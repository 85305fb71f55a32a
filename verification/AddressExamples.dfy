/** Known addresses: the witness program of the first example of BIP-173, and version 16 of BIP-350 (section "Test
    vectors for Bech32m"), encoded and converted down to the last character. */
module AddressExamples {
  import opened Wrappers
  import opened GoStrings
  import opened Checksum
  import opened Positional
  import opened Regroup
  import IdAddress
  import Bech32

  const PROGRAM: seq<Byte> :=
    [117, 30, 118, 232, 25]
    + ([145, 150, 212, 84, 148]
    + ([28, 69, 209, 179, 163]
    + ([35, 241, 67, 59, 214] + [])))

  const SYMBOLS: seq<Symbol> :=
    [14, 20, 15, 7, 13, 26, 0, 25]
    + ([18, 6, 11, 13, 8, 21, 4, 20]
    + ([3, 17, 2, 29, 3, 12, 29, 3]
    + ([4, 15, 24, 20, 6, 14, 30, 22] + [])))

  const ID_PREFIX: seq<Symbol> := [3, 3, 3, 0, 9, 4, 26]

  const ID_CHECKSUM: seq<Symbol> := [19, 28, 3, 17, 10, 0]

  const MAIN_PREFIX: seq<Symbol> := [3, 3, 0, 2, 3]

  const MAIN_CHECKSUM: seq<Symbol> := [12, 7, 9, 17, 11, 21]

  const SHORT_SYMBOLS: seq<Symbol> := [14, 20, 15, 0]

  const SHORT_CHECKSUM: seq<Symbol> := [8, 13, 2, 10, 20, 18]

  /** Version 16, two bytes and the checksum. */
  const SHORT_WORD: seq<Symbol> := [16, 14, 20, 15, 0, 8, 13, 2, 10, 20, 18]

  const PROGRAM_TEXT := "w508d6qe" + ("jxtdg4y5" + ("r3zarvar" + "y0c5xw7k"))

  const ID_ADDRESS := "idz" + "1" + (PROGRAM_TEXT + "nur32q")

  const MAIN_ADDRESS := "bc" + "1" + ("q" + PROGRAM_TEXT + "v8f3t4")

  const SHORT_ADDRESS := "bc" + "1" + "sw50qgdz25j"

  // ---- Remainders, symbol by symbol ----

  lemma Words()
    ensures Word(0) == 0 && Word(1) == 1 && Word(2) == 2 && Word(3) == 3 && Word(4) == 4
    ensures Word(5) == 5 && Word(6) == 6 && Word(7) == 7 && Word(8) == 8 && Word(9) == 9
    ensures Word(10) == 10 && Word(11) == 11 && Word(12) == 12 && Word(13) == 13 && Word(14) == 14
    ensures Word(15) == 15 && Word(16) == 16 && Word(17) == 17 && Word(18) == 18 && Word(19) == 19
    ensures Word(20) == 20 && Word(21) == 21 && Word(22) == 22 && Word(23) == 23 && Word(24) == 24
    ensures Word(25) == 25 && Word(26) == 26 && Word(27) == 27 && Word(28) == 28 && Word(29) == 29
    ensures Word(30) == 30 && Word(31) == 31
  {}

  lemma At(word: seq<Symbol>, i: nat, chk: bv30, next: bv30)
    requires i < |word| && Step(chk, Word(word[i])) == next
    ensures PolymodFrom(chk, word[i..]) == PolymodFrom(next, word[i + 1..])
  {
    hide Step, Word;
  }

  lemma Eight(a: Symbol, b: Symbol, c: Symbol, d: Symbol, e: Symbol, f: Symbol, g: Symbol, h: Symbol, tail: seq<Symbol>,
              c0: bv30, c1: bv30, c2: bv30, c3: bv30, c4: bv30, c5: bv30, c6: bv30, c7: bv30, c8: bv30)
    requires Step(c0, Word(a)) == c1 && Step(c1, Word(b)) == c2 && Step(c2, Word(c)) == c3 && Step(c3, Word(d)) == c4
    requires Step(c4, Word(e)) == c5 && Step(c5, Word(f)) == c6 && Step(c6, Word(g)) == c7 && Step(c7, Word(h)) == c8
    ensures PolymodFrom(c0, [a, b, c, d, e, f, g, h] + tail) == PolymodFrom(c8, tail)
  {
    hide Step, Word, PolymodFrom;
    var block := [a, b, c, d, e, f, g, h];
    At(block, 0, c0, c1);
    At(block, 1, c1, c2);
    At(block, 2, c2, c3);
    At(block, 3, c3, c4);
    At(block, 4, c4, c5);
    At(block, 5, c5, c6);
    At(block, 6, c6, c7);
    At(block, 7, c7, c8);
    assert block[0..] == block && block[8..] == [];
    NoStep(c8);
    PolymodConcat(c0, block, tail);
  }

  lemma NoStep(chk: bv30)
    ensures PolymodFrom(chk, []) == chk
  {}

  lemma IdPrefixValues()
    ensures Step(0x1, 3) == 0x23 && Step(0x23, 3) == 0x463 && Step(0x463, 3) == 0x8c63
    ensures Step(0x8c63, 0) == 0x118c60 && Step(0x118c60, 9) == 0x2318c09 && Step(0x2318c09, 4) == 0x3d5bd696
    ensures Step(0x3d5bd696, 26) == 0x4dd1423
  {}

  lemma IdPrefix()
    ensures PolymodFrom(0x1, ID_PREFIX) == 0x4dd1423
  {
    hide Step, Word, PolymodFrom;
    Words();
    IdPrefixValues();
    At(ID_PREFIX, 0, 0x1, 0x23);
    At(ID_PREFIX, 1, 0x23, 0x463);
    At(ID_PREFIX, 2, 0x463, 0x8c63);
    At(ID_PREFIX, 3, 0x8c63, 0x118c60);
    At(ID_PREFIX, 4, 0x118c60, 0x2318c09);
    At(ID_PREFIX, 5, 0x2318c09, 0x3d5bd696);
    At(ID_PREFIX, 6, 0x3d5bd696, 0x4dd1423);
    assert ID_PREFIX[0..] == ID_PREFIX && ID_PREFIX[7..] == [];
    NoStep(0x4dd1423);
  }

  lemma IdSymbolsValues1()
    ensures Step(0x4dd1423, 14) == 0x3df20a03 && Step(0x3df20a03, 20) == 0x11e6868d && Step(0x11e6868d, 15) == 0x192e272
    ensures Step(0x192e272, 7) == 0x325c4e47 && Step(0x325c4e47, 13) == 0x27b5ce31 && Step(0x27b5ce31, 26) == 0x1977d56
    ensures Step(0x1977d56, 0) == 0x32efaac0 && Step(0x32efaac0, 25) == 0x31c95ec5 && Step(0x31c95ec5, 18) == 0x2e7d89dc
    ensures Step(0x2e7d89dc, 6) == 0x263e9910 && Step(0x263e9910, 11) == 0x30fd9967 && Step(0x30fd9967, 13) == 0x8e57d83
    ensures Step(0x8e57d83, 8) == 0x20ea992 && Step(0x20ea992, 21) == 0x3abf65e7 && Step(0x3abf65e7, 4) == 0x2571a3c2
    ensures Step(0x2571a3c2, 20) == 0x2270948a
  {}

  lemma IdSymbolsValues2()
    ensures Step(0x2270948a, 3) == 0x1f6ca442 && Step(0x1f6ca442, 17) == 0x134d7ba9 && Step(0x134d7ba9, 2) == 0x2f87114d
    ensures Step(0x2f87114d, 29) == 0x196d8b2b && Step(0x196d8b2b, 3) == 0xe524f44 && Step(0xe524f44, 12) == 0x9d228a9
    ensures Step(0x9d228a9, 29) == 0x24e40cc7 && Step(0x24e40cc7, 3) == 0x10c5743d && Step(0x10c5743d, 4) == 0x25ecb479
    ensures Step(0x25ecb479, 15) == 0x31d263f1 && Step(0x31d263f1, 24) == 0x2d1a2f56 && Step(0x2d1a2f56, 20) == 0x31a01ff0
    ensures Step(0x31a01ff0, 6) == 0x2355af68 && Step(0x2355af68, 14) == 0x3bcbd80f && Step(0x3bcbd80f, 30) == 0xbe61ed8
    ensures Step(0xbe61ed8, 22) == 0x1908955e
  {}

  lemma IdSymbols()
    ensures PolymodFrom(0x4dd1423, SYMBOLS) == 0x1908955e
  {
    hide Step, Word, PolymodFrom;
    Words();
    IdSymbolsValues1();
    IdSymbolsValues2();
    var t3: seq<Symbol> := [4, 15, 24, 20, 6, 14, 30, 22] + [];
    var t2: seq<Symbol> := [3, 17, 2, 29, 3, 12, 29, 3] + t3;
    var t1: seq<Symbol> := [18, 6, 11, 13, 8, 21, 4, 20] + t2;
    Eight(14, 20, 15, 7, 13, 26, 0, 25, t1,
          0x4dd1423, 0x3df20a03, 0x11e6868d, 0x192e272, 0x325c4e47, 0x27b5ce31, 0x1977d56, 0x32efaac0, 0x31c95ec5);
    Eight(18, 6, 11, 13, 8, 21, 4, 20, t2,
          0x31c95ec5, 0x2e7d89dc, 0x263e9910, 0x30fd9967, 0x8e57d83, 0x20ea992, 0x3abf65e7, 0x2571a3c2, 0x2270948a);
    Eight(3, 17, 2, 29, 3, 12, 29, 3, t3,
          0x2270948a, 0x1f6ca442, 0x134d7ba9, 0x2f87114d, 0x196d8b2b, 0xe524f44, 0x9d228a9, 0x24e40cc7, 0x10c5743d);
    Eight(4, 15, 24, 20, 6, 14, 30, 22, [],
          0x10c5743d, 0x25ecb479, 0x31d263f1, 0x2d1a2f56, 0x31a01ff0, 0x2355af68, 0x3bcbd80f, 0xbe61ed8, 0x1908955e);
    NoStep(0x1908955e);
  }

  lemma IdChecksumValues()
    ensures Step(0x1908955e, 19) == 0x2f181f4 && Step(0x2f181f4, 28) == 0x255a692e && Step(0x255a692e, 3) == 0x2709c91d
    ensures Step(0x2709c91d, 17) == 0x161798dd && Step(0x161798dd, 10) == 0x228bf1a8 && Step(0x228bf1a8, 0) == 0x1
  {}

  lemma IdChecksum()
    ensures PolymodFrom(0x1908955e, ID_CHECKSUM) == 0x1
  {
    hide Step, Word, PolymodFrom;
    Words();
    IdChecksumValues();
    At(ID_CHECKSUM, 0, 0x1908955e, 0x2f181f4);
    At(ID_CHECKSUM, 1, 0x2f181f4, 0x255a692e);
    At(ID_CHECKSUM, 2, 0x255a692e, 0x2709c91d);
    At(ID_CHECKSUM, 3, 0x2709c91d, 0x161798dd);
    At(ID_CHECKSUM, 4, 0x161798dd, 0x228bf1a8);
    At(ID_CHECKSUM, 5, 0x228bf1a8, 0x1);
    assert ID_CHECKSUM[0..] == ID_CHECKSUM && ID_CHECKSUM[6..] == [];
    NoStep(0x1);
  }

  lemma MainPrefixValues()
    ensures Step(0x1, 3) == 0x23 && Step(0x23, 3) == 0x463 && Step(0x463, 0) == 0x8c60
    ensures Step(0x8c60, 2) == 0x118c02 && Step(0x118c02, 3) == 0x2318043
  {}

  lemma MainPrefix()
    ensures PolymodFrom(0x1, MAIN_PREFIX) == 0x2318043
  {
    hide Step, Word, PolymodFrom;
    Words();
    MainPrefixValues();
    At(MAIN_PREFIX, 0, 0x1, 0x23);
    At(MAIN_PREFIX, 1, 0x23, 0x463);
    At(MAIN_PREFIX, 2, 0x463, 0x8c60);
    At(MAIN_PREFIX, 3, 0x8c60, 0x118c02);
    At(MAIN_PREFIX, 4, 0x118c02, 0x2318043);
    assert MAIN_PREFIX[0..] == MAIN_PREFIX && MAIN_PREFIX[5..] == [];
    NoStep(0x2318043);
  }

  lemma MainSymbolsValues1()
    ensures Step(0x3d5a5fd2, 14) == 0x4ec3cb7 && Step(0x4ec3cb7, 20) == 0x3bd71899 && Step(0x3bd71899, 15) == 0x87e0c09
    ensures Step(0x87e0c09, 7) == 0x116098dd && Step(0x116098dd, 13) == 0x11512870 && Step(0x11512870, 26) == 0x17673dc7
    ensures Step(0x17673dc7, 0) == 0xc9f52e2 && Step(0xc9f52e2, 25) == 0x2b1bcbce && Step(0x2b1bcbce, 18) == 0x2ca65529
    ensures Step(0x2ca65529, 6) == 0x62f5002 && Step(0x62f5002, 11) == 0x18d0d994 && Step(0x18d0d994, 13) == 0x39f818aa
    ensures Step(0x39f818aa, 8) == 0x36f45ddc && Step(0x36f45ddc, 21) == 0x14e73324 && Step(0x14e73324, 4) == 0x7f4d934
    ensures Step(0x7f4d934, 20) == 0x23a1ff4b
  {}

  lemma MainSymbolsValues2()
    ensures Step(0x23a1ff4b, 3) == 0x2541dc62 && Step(0x2541dc62, 17) == 0x247f608f && Step(0x247f608f, 2) == 0x3a8fd3c
    ensures Step(0x3a8fd3c, 29) == 0xe75f02f && Step(0xe75f02f, 3) == 0xd25c5c6 && Step(0xd25c5c6, 12) == 0x1c492f5b
    ensures Step(0x1c492f5b, 29) == 0xc964f37 && Step(0xc964f37, 3) == 0x2a387174 && Step(0x2a387174, 4) == 0x8d1027f
    ensures Step(0x8d1027f, 15) == 0x4815615 && Step(0x4815615, 24) == 0x367a4cd5 && Step(0x367a4cd5, 20) == 0x5251205
    ensures Step(0x5251205, 6) == 0x2f2cecb && Step(0x2f2cecb, 14) == 0x25338edc && Step(0x25338edc, 30) == 0x2a353740
    ensures Step(0x2a353740, 22) == 0x979c4ed
  {}

  lemma MainSymbols()
    ensures PolymodFrom(0x3d5a5fd2, SYMBOLS) == 0x979c4ed
  {
    hide Step, Word, PolymodFrom;
    Words();
    MainSymbolsValues1();
    MainSymbolsValues2();
    var t3: seq<Symbol> := [4, 15, 24, 20, 6, 14, 30, 22] + [];
    var t2: seq<Symbol> := [3, 17, 2, 29, 3, 12, 29, 3] + t3;
    var t1: seq<Symbol> := [18, 6, 11, 13, 8, 21, 4, 20] + t2;
    Eight(14, 20, 15, 7, 13, 26, 0, 25, t1,
          0x3d5a5fd2, 0x4ec3cb7, 0x3bd71899, 0x87e0c09, 0x116098dd, 0x11512870, 0x17673dc7, 0xc9f52e2, 0x2b1bcbce);
    Eight(18, 6, 11, 13, 8, 21, 4, 20, t2,
          0x2b1bcbce, 0x2ca65529, 0x62f5002, 0x18d0d994, 0x39f818aa, 0x36f45ddc, 0x14e73324, 0x7f4d934, 0x23a1ff4b);
    Eight(3, 17, 2, 29, 3, 12, 29, 3, t3,
          0x23a1ff4b, 0x2541dc62, 0x247f608f, 0x3a8fd3c, 0xe75f02f, 0xd25c5c6, 0x1c492f5b, 0xc964f37, 0x2a387174);
    Eight(4, 15, 24, 20, 6, 14, 30, 22, [],
          0x2a387174, 0x8d1027f, 0x4815615, 0x367a4cd5, 0x5251205, 0x2f2cecb, 0x25338edc, 0x2a353740, 0x979c4ed);
    NoStep(0x979c4ed);
  }

  lemma MainChecksumValues()
    ensures Step(0x979c4ed, 12) == 0x31998456 && Step(0x31998456, 7) == 0x2466dba9 && Step(0x2466dba9, 9) == 0x9f99f7
    ensures Step(0x9f99f7, 17) == 0x13f33ef1 && Step(0x13f33ef1, 11) == 0x384fba44 && Step(0x384fba44, 21) == 0x1
  {}

  lemma MainChecksum()
    ensures PolymodFrom(0x979c4ed, MAIN_CHECKSUM) == 0x1
  {
    hide Step, Word, PolymodFrom;
    Words();
    MainChecksumValues();
    At(MAIN_CHECKSUM, 0, 0x979c4ed, 0x31998456);
    At(MAIN_CHECKSUM, 1, 0x31998456, 0x2466dba9);
    At(MAIN_CHECKSUM, 2, 0x2466dba9, 0x9f99f7);
    At(MAIN_CHECKSUM, 3, 0x9f99f7, 0x13f33ef1);
    At(MAIN_CHECKSUM, 4, 0x13f33ef1, 0x384fba44);
    At(MAIN_CHECKSUM, 5, 0x384fba44, 0x1);
    assert MAIN_CHECKSUM[0..] == MAIN_CHECKSUM && MAIN_CHECKSUM[6..] == [];
    NoStep(0x1);
  }

  lemma ShortWordValues()
    ensures Step(0x2318043, 16) == 0x3d5a5fc2 && Step(0x3d5a5fc2, 14) == 0x4ec3eb7 && Step(0x4ec3eb7, 20) == 0x3bd75899
    ensures Step(0x3bd75899, 15) == 0x8760c09 && Step(0x8760c09, 0) == 0x106098da && Step(0x106098da, 8) == 0x31512895
    ensures Step(0x31512895, 13) == 0x3d7343c3 && Step(0x3d7343c3, 2) == 0x1cfbe9b && Step(0x1cfbe9b, 10) == 0x39f7d36a
    ensures Step(0x39f7d36a, 20) == 0x370d25c0 && Step(0x370d25c0, 18) == 0x2bc830a3
  {}

  lemma ShortWord()
    ensures PolymodFrom(0x2318043, SHORT_WORD) == 0x2bc830a3
  {
    hide Step, Word, PolymodFrom;
    Words();
    ShortWordValues();
    At(SHORT_WORD, 0, 0x2318043, 0x3d5a5fc2);
    At(SHORT_WORD, 1, 0x3d5a5fc2, 0x4ec3eb7);
    At(SHORT_WORD, 2, 0x4ec3eb7, 0x3bd75899);
    At(SHORT_WORD, 3, 0x3bd75899, 0x8760c09);
    At(SHORT_WORD, 4, 0x8760c09, 0x106098da);
    At(SHORT_WORD, 5, 0x106098da, 0x31512895);
    At(SHORT_WORD, 6, 0x31512895, 0x3d7343c3);
    At(SHORT_WORD, 7, 0x3d7343c3, 0x1cfbe9b);
    At(SHORT_WORD, 8, 0x1cfbe9b, 0x39f7d36a);
    At(SHORT_WORD, 9, 0x39f7d36a, 0x370d25c0);
    At(SHORT_WORD, 10, 0x370d25c0, 0x2bc830a3);
    assert SHORT_WORD[0..] == SHORT_WORD && SHORT_WORD[11..] == [];
    NoStep(0x2bc830a3);
  }

  // ---- Symbols of the program ----

  lemma Block1()
    ensures EightSymbols([117, 30, 118, 232, 25]) == [14, 20, 15, 7, 13, 26, 0, 25]
  {}

  lemma Block2()
    ensures EightSymbols([145, 150, 212, 84, 148]) == [18, 6, 11, 13, 8, 21, 4, 20]
  {}

  lemma Block3()
    ensures EightSymbols([28, 69, 209, 179, 163]) == [3, 17, 2, 29, 3, 12, 29, 3]
  {}

  lemma Block4()
    ensures EightSymbols([35, 241, 67, 59, 214]) == [4, 15, 24, 20, 6, 14, 30, 22]
  {}

  lemma ProgramSymbols()
    ensures IdAddress.ToSymbols(PROGRAM) == SYMBOLS
  {
    hide IdAddress.ToSymbols, EightSymbols;
    Block1();
    Block2();
    Block3();
    Block4();
    var t3: seq<Byte> := [35, 241, 67, 59, 214] + [];
    var t2: seq<Byte> := [28, 69, 209, 179, 163] + t3;
    var t1: seq<Byte> := [145, 150, 212, 84, 148] + t2;
    BlockSymbols([35, 241, 67, 59, 214], []);
    BlockSymbols([28, 69, 209, 179, 163], t3);
    BlockSymbols([145, 150, 212, 84, 148], t2);
    BlockSymbols([117, 30, 118, 232, 25], t1);
    NoSymbols();
  }

  // ---- Characters ----

  lemma CharsJoin(a: seq<Symbol>, b: seq<Symbol>)
    ensures IdAddress.Chars(a + b) == IdAddress.Chars(a) + IdAddress.Chars(b)
  {
    hide IdAddress.CharOf;
  }

  lemma BlockChars()
    ensures IdAddress.Chars([14, 20, 15, 7, 13, 26, 0, 25]) == "w508d6qe"
    ensures IdAddress.Chars([18, 6, 11, 13, 8, 21, 4, 20]) == "jxtdg4y5"
  {}

  lemma LastBlockChars()
    ensures IdAddress.Chars([3, 17, 2, 29, 3, 12, 29, 3]) == "r3zarvar"
    ensures IdAddress.Chars([4, 15, 24, 20, 6, 14, 30, 22]) == "y0c5xw7k"
  {}

  lemma ChecksumChars()
    ensures IdAddress.Chars(ID_CHECKSUM) == "nur32q" && IdAddress.Chars(MAIN_CHECKSUM) == "v8f3t4"
  {}

  lemma ShortChars()
    ensures IdAddress.Chars([0]) == "q" && IdAddress.Chars(SHORT_WORD) == "sw50qgdz25j"
  {}

  lemma ProgramChars()
    ensures IdAddress.Chars(SYMBOLS) == PROGRAM_TEXT
  {
    hide IdAddress.Chars;
    var t3: seq<Symbol> := [4, 15, 24, 20, 6, 14, 30, 22] + [];
    var t2: seq<Symbol> := [3, 17, 2, 29, 3, 12, 29, 3] + t3;
    var t1: seq<Symbol> := [18, 6, 11, 13, 8, 21, 4, 20] + t2;
    CharsJoin([14, 20, 15, 7, 13, 26, 0, 25], t1);
    CharsJoin([18, 6, 11, 13, 8, 21, 4, 20], t2);
    CharsJoin([3, 17, 2, 29, 3, 12, 29, 3], t3);
    assert t3 == [4, 15, 24, 20, 6, 14, 30, 22];
    BlockChars();
    LastBlockChars();
  }

  // ---- The addresses ----

  lemma Prefixes()
    ensures IdAddress.HrpExpand("idz") == ID_PREFIX && IdAddress.HrpExpand("bc") == MAIN_PREFIX
    ensures IdAddress.Hrp('z') == "idz" && IsAscii("bc")
  {
    IdAddress.ExpandedPrefix("idz");
    IdAddress.ExpandedPrefix("bc");
    hide IdAddress.HrpExpand;
    assert "idz"[0] as int == 105 && "idz"[1] as int == 100 && "idz"[2] as int == 122;
    assert "bc"[0] as int == 98 && "bc"[1] as int == 99;
  }

  /** An address is its prefix, its symbols and the six symbols that bring the remainder to 1. */
  lemma IdText(data: seq<Byte>, symbols: seq<Symbol>, checksum: seq<Symbol>)
    requires |data| == 20 && IdAddress.ToSymbols(data) == symbols && |checksum| == 6
    requires Polymod(IdAddress.HrpExpand("idz") + symbols + checksum) == 1
    ensures IdAddress.Encode(2, data) == Ok("idz" + "1" + (IdAddress.Chars(symbols) + IdAddress.Chars(checksum)))
  {
    hide IdAddress.ToSymbols, IdAddress.Chars, Polymod, Create, IdAddress.HrpExpand;
    assert IdAddress.Hrp('z') == "idz";
    ChecksumUnique(IdAddress.HrpExpand("idz") + symbols, checksum, 1);
    CharsJoin(symbols, checksum);
  }

  lemma MainText(version: Symbol, program: seq<Byte>, symbols: seq<Symbol>, checksum: seq<Symbol>)
    requires 2 <= |program| <= 40 && IdAddress.ToSymbols(program) == symbols && |checksum| == 6 && IsAscii("bc")
    requires Polymod(IdAddress.HrpExpand("bc") + ([version] + symbols) + checksum) == if version == 0 then 1 else 0x2bc830a3
    ensures Bech32.Encode("bc", version, program) == Ok("bc" + "1" + IdAddress.Chars([version] + symbols + checksum))
  {
    hide IdAddress.ToSymbols, IdAddress.Chars, Polymod, Create, IdAddress.HrpExpand;
    ChecksumUnique(IdAddress.HrpExpand("bc") + ([version] + symbols), checksum, if version == 0 then 1 else 0x2bc830a3);
    var e := Bech32.EncodingOf(version);
    assert Bech32.Constant(e) == if version == 0 then 1 else 0x2bc830a3;
    assert checksum == Create(IdAddress.HrpExpand("bc") + ([version] + symbols), Bech32.Constant(e));
    assert Bech32.EncodeSymbols("bc", [version] + symbols, e) == "bc" + "1" + IdAddress.Chars([version] + symbols + checksum);
  }

  lemma ProgramLength()
    ensures |PROGRAM| == 20
  {}

  lemma IdWord()
    ensures Polymod(ID_PREFIX + SYMBOLS + ID_CHECKSUM) == 1
  {
    hide PolymodFrom;
    IdPrefix();
    IdSymbols();
    IdChecksum();
    PolymodConcat(1, ID_PREFIX, SYMBOLS);
    PolymodConcat(1, ID_PREFIX + SYMBOLS, ID_CHECKSUM);
  }

  lemma MainWord()
    ensures Polymod(MAIN_PREFIX + ([0] + SYMBOLS) + MAIN_CHECKSUM) == 1
  {
    hide PolymodFrom;
    MainPrefix();
    MainVersion();
    MainSymbols();
    MainChecksum();
    PolymodConcat(0x2318043, [0], SYMBOLS);
    PolymodConcat(1, MAIN_PREFIX, [0] + SYMBOLS);
    PolymodConcat(1, MAIN_PREFIX + ([0] + SYMBOLS), MAIN_CHECKSUM);
  }

  lemma MainVersion()
    ensures PolymodFrom(0x2318043, [0]) == 0x3d5a5fd2
  {
    assert [0][1..] == [];
  }

  /** The witness program as a payload of version 2, both ways. */
  lemma IdExample()
    ensures IdAddress.Encode(2, PROGRAM) == Ok(ID_ADDRESS)
    ensures IdAddress.Decode(ID_ADDRESS) == Ok(IdAddress.AddressInfo(2, PROGRAM, ID_ADDRESS))
  {
    hide IdAddress.ToSymbols, IdAddress.Chars, Polymod, IdAddress.HrpExpand, IdAddress.Decode, IdAddress.Encode;
    ProgramLength();
    Prefixes();
    ProgramSymbols();
    IdWord();
    IdText(PROGRAM, SYMBOLS, ID_CHECKSUM);
    ProgramChars();
    ChecksumChars();
    IdAddress.DecodeAfterEncode(2, PROGRAM);
  }

  /** It as a witness program of version 0 on the main network, with the constant 1. */
  lemma MainExample()
    ensures Bech32.Encode("bc", 0, PROGRAM) == Ok(MAIN_ADDRESS) && IsAscii(MAIN_ADDRESS)
    ensures Bech32.Decode(MAIN_ADDRESS) == Ok(Bech32.Witness("bc", 0, PROGRAM, Bech32.Encoding.Bech32))
  {
    hide IdAddress.ToSymbols, IdAddress.Chars, Polymod, IdAddress.HrpExpand, Bech32.Decode, Bech32.Encode, IsAscii;
    ProgramLength();
    Prefixes();
    ProgramSymbols();
    MainWord();
    MainText(0, PROGRAM, SYMBOLS, MAIN_CHECKSUM);
    CharsJoin([0] + SYMBOLS, MAIN_CHECKSUM);
    CharsJoin([0], SYMBOLS);
    ProgramChars();
    ChecksumChars();
    ShortChars();
    Bech32.MainAndTestNet("bc", 0, PROGRAM);
  }

  /** Two bytes as a program of version 16, with the constant 0x2bc830a3. */
  lemma ShortExample()
    ensures Bech32.Encode("bc", 16, [0x75, 0x1e]) == Ok(SHORT_ADDRESS) && IsAscii(SHORT_ADDRESS)
    ensures Bech32.Decode(SHORT_ADDRESS) == Ok(Bech32.Witness("bc", 16, [0x75, 0x1e], Bech32.Bech32m))
  {
    hide IdAddress.ToSymbols, IdAddress.Chars, Polymod, IdAddress.HrpExpand, Bech32.Decode, Bech32.Encode, IsAscii;
    Prefixes();
    ShortSymbols();
    ShortRemainder();
    MainText(16, [0x75, 0x1e], SHORT_SYMBOLS, SHORT_CHECKSUM);
    ShortParts();
    ShortChars();
    Bech32.MainAndTestNet("bc", 16, [0x75, 0x1e]);
  }

  lemma ShortSymbols()
    ensures IdAddress.ToSymbols([0x75, 0x1e]) == SHORT_SYMBOLS
  {
    hide IdAddress.ToSymbols;
    TwoBytes(0x75, 0x1e);
  }

  lemma ShortParts()
    ensures SHORT_WORD == [16] + SHORT_SYMBOLS + SHORT_CHECKSUM && |SHORT_CHECKSUM| == 6
  {}

  lemma ShortRemainder()
    ensures Polymod(MAIN_PREFIX + ([16] + SHORT_SYMBOLS) + SHORT_CHECKSUM) == 0x2bc830a3
  {
    ShortParts();
    hide PolymodFrom;
    MainPrefix();
    ShortWord();
    PolymodConcat(1, MAIN_PREFIX, SHORT_WORD);
    assert MAIN_PREFIX + ([16] + SHORT_SYMBOLS + SHORT_CHECKSUM) == MAIN_PREFIX + ([16] + SHORT_SYMBOLS) + SHORT_CHECKSUM;
  }

  /** The Bitcoin address converts to the ID address and back, as Base58Check does not decode it. */
  lemma ConversionExample(base58: string -> Option<(Byte, seq<Byte>)>)
    requires base58(MAIN_ADDRESS) == None
    ensures IsAscii(MAIN_ADDRESS) && Bech32.FromBitcoin(MAIN_ADDRESS, base58) == Ok(ID_ADDRESS)
    ensures Bech32.ToSegWit(ID_ADDRESS, false) == Ok(MAIN_ADDRESS)
  {
    hide IdAddress.Decode, IdAddress.Encode, Bech32.Decode, Bech32.Encode, IsAscii;
    ProgramLength();
    IdExample();
    MainExample();
  }
}
