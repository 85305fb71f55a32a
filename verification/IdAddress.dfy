/** The ID-address codec: "id", a version character, "1", base32 data and a six-character checksum. */
module IdAddress {
  import opened Wrappers
  import opened GoStrings
  import opened Checksum
  import opened Regroup

  datatype Error = BadPrefix | NoSeparator | BadFormat | BadVersion | TooShort | BadCharacter | BadChecksum
                 | BadPadding | BadLength

  const CHARSET: string := "qpzry9x8gf2tvdw0s3jn54khce6mua7l"

  const CHECKSUM_LENGTH: nat := 6

  // ---- The character set ----

  function CharOf(v: Symbol): char
  {
    CHARSET[v]
  }

  function SymbolOf(c: char): Option<Symbol>
  {
    match c
    case 'q' => Some(0) case 'p' => Some(1) case 'z' => Some(2) case 'r' => Some(3)
    case 'y' => Some(4) case '9' => Some(5) case 'x' => Some(6) case '8' => Some(7)
    case 'g' => Some(8) case 'f' => Some(9) case '2' => Some(10) case 't' => Some(11)
    case 'v' => Some(12) case 'd' => Some(13) case 'w' => Some(14) case '0' => Some(15)
    case 's' => Some(16) case '3' => Some(17) case 'j' => Some(18) case 'n' => Some(19)
    case '5' => Some(20) case '4' => Some(21) case 'k' => Some(22) case 'h' => Some(23)
    case 'c' => Some(24) case 'e' => Some(25) case '6' => Some(26) case 'm' => Some(27)
    case 'u' => Some(28) case 'a' => Some(29) case '7' => Some(30) case 'l' => Some(31)
    case _ => None
  }

  lemma CharOfSymbol(v: Symbol)
    ensures SymbolOf(CharOf(v)) == Some(v)
    ensures CharOf(v) != '1' && LowerChar(CharOf(v)) == CharOf(v) && CharOf(v) < 128 as char
  {
    if v < 16 {
      if v < 8 { assert v in {0, 1, 2, 3, 4, 5, 6, 7}; } else { assert v in {8, 9, 10, 11, 12, 13, 14, 15}; }
    } else {
      if v < 24 { assert v in {16, 17, 18, 19, 20, 21, 22, 23}; } else { assert v in {24, 25, 26, 27, 28, 29, 30, 31}; }
    }
  }

  lemma SymbolOfChar(c: char)
    requires SymbolOf(c).Some?
    ensures CharOf(SymbolOf(c).value) == c
  {}

  function Chars(symbols: seq<Symbol>): (r: string)
    ensures |r| == |symbols|
  {
    seq(|symbols|, i requires 0 <= i < |symbols| => CharOf(symbols[i]))
  }

  /** The symbols of a string, if each of its characters is in the character set. */
  function ParseChars(s: string): (r: Option<seq<Symbol>>)
    ensures r.Some? ==> |r.value| == |s|
  {
    if s == [] then Some([])
    else
      match (ParseChars(s[..|s| - 1]), SymbolOf(s[|s| - 1]))
      case (Some(init), Some(v)) => Some(init + [v])
      case _ => None
  }

  lemma {:induction false} ParseOfChars(symbols: seq<Symbol>)
    ensures ParseChars(Chars(symbols)) == Some(symbols)
    ensures '1' !in Chars(symbols) && IsAscii(Chars(symbols)) && ToLower(Chars(symbols)) == Chars(symbols)
  {
    hide SymbolOf, CharOf;
    if symbols == [] {
    } else {
      var n := |symbols| - 1;
      ParseOfChars(symbols[..n]);
      CharOfSymbol(symbols[n]);
      assert Chars(symbols)[..n] == Chars(symbols[..n]);
      assert Chars(symbols) == Chars(symbols[..n]) + [CharOf(symbols[n])];
      assert symbols == symbols[..n] + [symbols[n]];
    }
  }

  lemma {:induction false} CharsOfParse(s: string)
    requires ParseChars(s).Some?
    ensures Chars(ParseChars(s).value) == s
  {
    hide SymbolOf, CharOf;
    if s != [] {
      CharsOfParse(s[..|s| - 1]);
      SymbolOfChar(s[|s| - 1]);
      assert s == s[..|s| - 1] + [s[|s| - 1]];
    }
  }

  // ---- Versions and payload lengths ----

  function VersionChar(version: Byte): Option<char>
  {
    match version
    case 0 => Some('q') case 1 => Some('p') case 2 => Some('z')
    case 3 => Some('r') case 4 => Some('y') case 5 => Some('t')
    case _ => None
  }

  function CharVersion(s: string): Option<Byte>
  {
    match s
    case "q" => Some(0) case "p" => Some(1) case "z" => Some(2)
    case "r" => Some(3) case "y" => Some(4) case "t" => Some(5)
    case _ => None
  }

  /** Whether the payload has a length its version allows; a multisig payload declares its own. */
  predicate ValidLength(version: Byte, data: seq<Byte>)
  {
    match version
    case 0 => |data| == 20 case 1 => |data| == 20 case 2 => |data| == 20
    case 3 => |data| == 32 case 5 => |data| == 32
    case 4 =>
      && |data| >= 2
      && data[0] != 0 && data[1] != 0 && data[0] <= data[1] <= 15
      && |data| == 2 + (data[1] as int) * 33
    case _ => false
  }

  // ---- Human-readable part ----

  /** High bits, a zero, low bits of an ASCII prefix. */
  function HrpExpand(hrp: string): (r: seq<Symbol>)
    requires IsAscii(hrp)
  {
    seq(|hrp|, i requires 0 <= i < |hrp| => (hrp[i] as int / 32) as Symbol) + [0]
    + seq(|hrp|, i requires 0 <= i < |hrp| => (hrp[i] as int % 32) as Symbol)
  }

  /** Position by position, and for the prefix of the first version. */
  lemma ExpandedPrefix(hrp: string)
    requires IsAscii(hrp)
    ensures var n, r := |hrp|, HrpExpand(hrp);
            && |r| == 2 * n + 1 && r[n] == 0
            && (forall i :: 0 <= i < n ==> r[i] == hrp[i] as int / 32 && r[n + 1 + i] == hrp[i] as int % 32)
    ensures hrp == "idq" ==> HrpExpand(hrp) == [3, 3, 3, 0, 9, 4, 17]
  {
    if hrp == "idq" {
      assert hrp[0] as int == 105 && hrp[1] as int == 100 && hrp[2] as int == 113;
    }
  }

  method ExpandHrp(hrp: string) returns (r: seq<Symbol>)
    requires IsAscii(hrp)
    ensures r == HrpExpand(hrp)
    ensures |r| == 2 * |hrp| + 1 && r[|hrp|] == 0
    ensures forall i :: 0 <= i < |hrp| ==> r[i] == hrp[i] as int / 32 && r[|hrp| + 1 + i] == hrp[i] as int % 32
  {
    var ret := new Symbol[|hrp| * 2 + 1](_ => 0);
    for i := 0 to |hrp|
      invariant forall k :: 0 <= k < i ==> ret[k] == hrp[k] as int / 32 && ret[k + |hrp| + 1] == hrp[k] as int % 32
    {
      ret[i] := hrp[i] as int / 32;
      ret[i + |hrp| + 1] := hrp[i] as int % 32;
    }
    ret[|hrp|] := 0;
    r := ret[..];
  }

  // ---- Encoding ----

  /** Bytes as base32 symbols, zero-padded. */
  function ToSymbols(data: seq<Byte>): (r: seq<Symbol>)
    ensures Spec(data, 8, 5, true) == Some(r)
  {
    PaddedStream(data, 8, 5);
    EightFive();
    Spec(data, 8, 5, true).value
  }

  function Hrp(versionChar: char): string { "id" + [versionChar] }

  function EncodeData(versionChar: char, symbols: seq<Symbol>): string
    requires versionChar < 128 as char
  {
    var checksum := Create(HrpExpand(Hrp(versionChar)) + symbols, 1);
    Hrp(versionChar) + "1" + Chars(symbols + checksum)
  }

  function Encode(version: Byte, data: seq<Byte>): Result<string, Error>
  {
    match VersionChar(version)
    case None => Err(BadVersion)
    case Some(c) =>
      if !ValidLength(version, data) then Err(BadLength)
      else Ok(EncodeData(c, ToSymbols(data)))
  }

  // ---- Decoding ----

  datatype AddressInfo = AddressInfo(version: Byte, data: seq<Byte>, address: string)

  datatype Parsed = Parsed(version: Byte, versionChar: char, symbols: seq<Symbol>)

  /** A lower-case address cut into its version and its symbols, the checksum among them. */
  function Parse(addr: string): (r: Result<Parsed, Error>)
    ensures r.Ok? ==> |r.value.symbols| >= CHECKSUM_LENGTH && r.value.versionChar < 128 as char
  {
    if !("id" <= addr) then Err(BadPrefix)
    else
      match LastIndex(addr, '1')
      case None => Err(NoSeparator)
      case Some(sep) =>
        if sep < 3 then Err(BadFormat)
        else
          match CharVersion(addr[2..sep])
          case None => Err(BadVersion)
          case Some(version) =>
            if |addr| - (sep + 1) < CHECKSUM_LENGTH then Err(TooShort)
            else
              match ParseChars(addr[sep + 1..])
              case None => Err(BadCharacter)
              case Some(symbols) => Ok(Parsed(version, addr[2], symbols))
  }

  predicate Verified(p: Parsed)
    requires p.versionChar < 128 as char
  {
    Polymod(HrpExpand(Hrp(p.versionChar)) + p.symbols) == 1
  }

  /** Symbols as bytes; None when the padding is not zero or not minimal. */
  function ToBytes(symbols: seq<Symbol>): (r: Option<seq<Byte>>)
    ensures r == Spec(symbols, 5, 8, false)
  {
    EightFive();
    if Spec(symbols, 5, 8, false).Some? then NarrowAfterWiden(symbols, 5, 8); Some(Spec(symbols, 5, 8, false).value)
    else None
  }

  function Decode(address: string): Result<AddressInfo, Error>
  {
    var addr := ToLower(address);
    match Parse(addr)
    case Err(e) => Err(e)
    case Ok(p) =>
      if !Verified(p) then Err(BadChecksum)
      else
        match ToBytes(p.symbols[..|p.symbols| - CHECKSUM_LENGTH])
        case None => Err(BadPadding)
        case Some(data) =>
          if !ValidLength(p.version, data) then Err(BadLength)
          else Ok(AddressInfo(p.version, data, addr))
  }

  // ---- Encoder and decoder as they run ----

  method EncodeIDAddress(version: Byte, data: seq<Byte>) returns (r: Result<string, Error>)
    ensures r == Encode(version, data)
  {
    hide Spec, Polymod, Unpack, HrpExpand, Fits;
    var versionChar := VersionChar(version);
    if versionChar.None? {
      return Err(BadVersion);
    }
    if !ValidLength(version, data) {
      return Err(BadLength);
    }
    BytesFit(data);
    var regrouped := ConvertBits(data, 8, 5, true);
    assert regrouped == Some(ToSymbols(data));
    var converted: seq<Symbol> := regrouped.value;
    var expanded := ExpandHrp(Hrp(versionChar.value));
    var checksum := CreateChecksum(expanded, converted);
    var combined := converted + checksum;
    var encoded := "";
    for i := 0 to |combined|
      invariant encoded == Chars(combined[..i])
    {
      encoded := encoded + [CHARSET[combined[i]]];
      assert combined[..i + 1][..i] == combined[..i];
      assert encoded == Chars(combined[..i + 1]);
    }
    assert combined[..|combined|] == combined;
    r := Ok(Hrp(versionChar.value) + "1" + encoded);
  }

  lemma BytesFit(data: seq<Byte>)
    ensures Fits(data, 8)
  {
    EightFive();
  }

  method CreateChecksum(expanded: seq<Symbol>, data: seq<Symbol>) returns (checksum: seq<Symbol>)
    ensures checksum == Create(expanded + data, 1)
  {
    hide Polymod, Xor, Digit;
    var mod := ComputePolymod(expanded + data + Checksum.Zeros(6));
    mod := Xor(mod, 1);
    var ret := new Symbol[6](_ => 0);
    for i := 0 to 6
      invariant forall k :: 0 <= k < i ==> ret[k] == Unpack(mod)[k]
    {
      ret[i] := Digit(mod, (5 * (5 - i)) as bv5);
    }
    checksum := ret[..];
  }

  lemma {:induction false} ParseStops(s: string, i: nat)
    requires i < |s| && SymbolOf(s[i]).None?
    ensures ParseChars(s).None?
  {
    hide SymbolOf;
    if i < |s| - 1 {
      ParseStops(s[..|s| - 1], i);
    }
  }

  method DecodeIDAddress(address: string) returns (r: Result<AddressInfo, Error>)
    requires IsAscii(address)
    ensures r == Decode(address)
  {
    hide Spec, Polymod, HrpExpand, Fits, SymbolOf, ToLower;
    var addr := ToLower(address);
    if !("id" <= addr) {
      return Err(BadPrefix);
    }
    var sepIndex := LastIndex(addr, '1');
    if sepIndex.None? {
      return Err(NoSeparator);
    }
    var sep := sepIndex.value;
    if sep < 3 {
      return Err(BadFormat);
    }
    var version := CharVersion(addr[2..sep]);
    if version.None? {
      return Err(BadVersion);
    }
    var dataStr := addr[sep + 1..];
    if |dataStr| < CHECKSUM_LENGTH {
      return Err(TooShort);
    }
    var decoded := [];
    for i := 0 to |dataStr|
      invariant ParseChars(dataStr[..i]) == Some(decoded)
    {
      var val := SymbolOf(dataStr[i]);
      if val.None? {
        ParseStops(dataStr, i);
        return Err(BadCharacter);
      }
      assert dataStr[..i + 1][..i] == dataStr[..i];
      decoded := decoded + [val.value];
    }
    assert dataStr[..|dataStr|] == dataStr;
    var expanded := ExpandHrp(Hrp(addr[2]));
    var chk := ComputePolymod(expanded + decoded);
    if chk != 1 {
      return Err(BadChecksum);
    }
    var data := decoded[..|decoded| - CHECKSUM_LENGTH];
    SymbolsFit(data);
    var converted := ConvertBits(data, 5, 8, false);
    if converted.None? {
      return Err(BadPadding);
    }
    assert converted == ToBytes(data);
    var bytes: seq<Byte> := converted.value;
    if !ValidLength(version.value, bytes) {
      return Err(BadLength);
    }
    r := Ok(AddressInfo(version.value, bytes, addr));
  }

  lemma SymbolsFit(symbols: seq<Symbol>)
    ensures Fits(symbols, 5)
  {
    EightFive();
  }

  // ---- Canonical bijection ----

  lemma VersionInverse(version: Byte, c: char)
    requires VersionChar(version) == Some(c)
    ensures CharVersion([c]) == Some(version) && LowerChar(c) == c && c < 128 as char
  {}

  lemma LowerHead(c: char)
    requires LowerChar(c) == c
    ensures ToLower(Hrp(c) + "1") == Hrp(c) + "1"
  {
    var s := Hrp(c) + "1";
    assert s[0] == 'i' && s[1] == 'd' && s[2] == c && s[3] == '1';
  }

  lemma ParseEncoded(version: Byte, c: char, symbols: seq<Symbol>)
    requires VersionChar(version) == Some(c) && |symbols| >= CHECKSUM_LENGTH
    ensures Parse(Hrp(c) + "1" + Chars(symbols)) == Ok(Parsed(version, c, symbols))
    ensures ToLower(Hrp(c) + "1" + Chars(symbols)) == Hrp(c) + "1" + Chars(symbols)
  {
    hide SymbolOf, CharOf, Chars, ParseChars, CharVersion, VersionChar, LastIndex, ToLower, LowerChar;
    var body := Chars(symbols);
    var addr := Hrp(c) + "1" + body;
    ParseOfChars(symbols);
    VersionInverse(version, c);
    LastIndexOf(Hrp(c), '1', body);
    assert Hrp(c) + ['1'] + body == addr;
    assert addr[2..3] == [c];
    assert addr[4..] == body;
    assert addr[..2] == "id";
    LowerHead(c);
    ToLowerConcat(Hrp(c) + "1", body);
  }

  lemma BytesOfSymbols(data: seq<Byte>)
    ensures ToBytes(ToSymbols(data)) == Some(data)
  {
    BytesFit(data);
    WidenAfterNarrow(data, 8, 5);
  }

  /** Decoding an encoded payload gives back its version and its bytes. */
  lemma DecodeAfterEncode(version: Byte, data: seq<Byte>)
    requires Encode(version, data).Ok?
    ensures Decode(Encode(version, data).value) == Ok(AddressInfo(version, data, Encode(version, data).value))
  {
    hide Spec, Polymod, Create, HrpExpand, Chars, ToLower, ToSymbols, ToBytes;
    var c := VersionChar(version).value;
    var symbols := ToSymbols(data);
    var head := HrpExpand(Hrp(c)) + symbols;
    var checksum := Create(head, 1);
    ParseEncoded(version, c, symbols + checksum);
    ChecksumUnique(head, checksum, 1);
    assert head + checksum == HrpExpand(Hrp(c)) + (symbols + checksum);
    assert (symbols + checksum)[..|symbols + checksum| - CHECKSUM_LENGTH] == symbols;
    BytesOfSymbols(data);
  }

  /** Which payloads have an address: a version up to 5 and a length it allows. */
  lemma EncodedPayloads(version: Byte, data: seq<Byte>)
    ensures Encode(version, data) == Err(BadVersion) <==> version > 5
    ensures Encode(version, data).Ok? <==>
            || (version <= 2 && |data| == 20)
            || ((version == 3 || version == 5) && |data| == 32)
            || (version == 4 && |data| >= 2 && 1 <= data[0] <= data[1] <= 15 && |data| == 2 + 33 * data[1] as int)
  {
    hide EncodeData, ToSymbols;
  }

  /** An encoded address is "id", the letter of its version, "1" and symbols that bring the remainder to 1. */
  lemma EncodedRemainder(version: Byte, data: seq<Byte>)
    requires Encode(version, data).Ok?
    ensures var address := Encode(version, data).value;
            && version <= 5 && "id" + ["qpzryt"[version]] + "1" <= address
            && match ParseChars(address[4..])
               case None => false
               case Some(symbols) => Polymod(HrpExpand("id" + ["qpzryt"[version]]) + symbols) == 1
  {
    hide Polymod, Create, HrpExpand, Chars, ParseChars, ToSymbols, SymbolOf;
    EncodedPayloads(version, data);
    var c := VersionChar(version).value;
    assert c == "qpzryt"[version];
    var head := HrpExpand(Hrp(c)) + ToSymbols(data);
    var checksum := Create(head, 1);
    ChecksumUnique(head, checksum, 1);
    ParseOfChars(ToSymbols(data) + checksum);
    var address := Encode(version, data).value;
    assert address == Hrp(c) + "1" + Chars(ToSymbols(data) + checksum);
    assert address[4..] == Chars(ToSymbols(data) + checksum);
    assert HrpExpand(Hrp(c)) + (ToSymbols(data) + checksum) == head + checksum;
  }

  /** A text parses as symbols when each of its characters is one of the thirty-two. */
  lemma {:induction false} ParsesIff(s: string)
    ensures ParseChars(s).Some? <==> forall c <- s :: c in "qpzry9x8gf2tvdw0s3jn54khce6mua7l"
  {
    if s != [] {
      ParsesIff(s[..|s| - 1]);
      assert s == s[..|s| - 1] + [s[|s| - 1]];
      InCharset(s[|s| - 1]);
    }
  }

  lemma InCharset(c: char)
    ensures SymbolOf(c).Some? <==> c in CHARSET
  {
    if SymbolOf(c).Some? {
      SymbolOfChar(c);
    }
    if c in CHARSET {
      var v :| 0 <= v < |CHARSET| && CHARSET[v] == c;
      CharOfSymbol(v);
    }
  }

  /** The first check an address fails names the error. */
  lemma DecodeRejects(address: string, head: string, body: string)
    requires ToLower(address) == head + "1" + body && '1' !in body
    ensures var r := Decode(address);
            var prefixed, versioned := "id" <= ToLower(address), |head| >= 3 && head[2..] in {"q", "p", "z", "r", "y", "t"};
            && (r == Err(BadPrefix) <==> !prefixed) && r != Err(NoSeparator)
            && (r == Err(BadFormat) <==> prefixed && |head| < 3)
            && (r == Err(BadVersion) <==> prefixed && |head| >= 3 && !versioned)
            && (r == Err(TooShort) <==> prefixed && versioned && |body| < 6)
            && (r == Err(BadCharacter) <==>
                  prefixed && versioned && |body| >= 6 && exists c :: c in body && c !in "qpzry9x8gf2tvdw0s3jn54khce6mua7l")
  {
    hide ToLower, SymbolOf, ParseChars, Verified, ToBytes, ValidLength, LastIndex;
    LastIndexOf(head, '1', body);
    var addr := ToLower(address);
    assert head + ['1'] + body == addr;
    assert addr[|head| + 1..] == body;
    assert |head| >= 3 ==> addr[2..|head|] == head[2..];
    ParsesIff(body);
  }

  lemma NoSeparatorRejected(address: string)
    ensures Decode(address) == Err(NoSeparator) <==> "id" <= ToLower(address) && '1' !in ToLower(address)
  {
    hide ToLower, SymbolOf, ParseChars, Verified, ToBytes, ValidLength, CharVersion, LastIndex;
  }

  /** A parsed address is determined by what was parsed. */
  lemma ParsedAddress(addr: string)
    requires Parse(addr).Ok?
    ensures var p := Parse(addr).value;
            addr == Hrp(p.versionChar) + "1" + Chars(p.symbols) && VersionChar(p.version) == Some(p.versionChar)
  {
    hide SymbolOf, CharOf, Chars, ParseChars, CharVersion, VersionChar;
    var sep := LastIndex(addr, '1').value;
    var p := Parse(addr).value;
    OneVersion(addr[2..sep]);
    hide LastIndex;
    assert sep == 3 && addr[2..sep] == [addr[2]];
    CharsOfParse(addr[sep + 1..]);
    assert addr == addr[..2] + addr[2..3] + addr[3..4] + addr[4..];
    assert addr[..2] == "id" && addr[3..4] == "1";
  }

  lemma OneVersion(s: string)
    requires CharVersion(s).Some?
    ensures |s| == 1 && VersionChar(CharVersion(s).value) == Some(s[0])
  {}

  lemma SymbolsOfBytes(symbols: seq<Symbol>)
    requires ToBytes(symbols).Some?
    ensures ToSymbols(ToBytes(symbols).value) == symbols
  {
    SymbolsFit(symbols);
    NarrowAfterWiden(symbols, 5, 8);
  }

  /** Every accepted ASCII address re-encodes to its lower-case form. */
  lemma EncodeAfterDecode(address: string)
    requires IsAscii(address) && Decode(address).Ok?
    ensures var info := Decode(address).value;
            Encode(info.version, info.data) == Ok(ToLower(address)) && info.address == ToLower(address)
  {
    hide Spec, Polymod, Create, HrpExpand, Chars, ToLower, ToSymbols, ToBytes, Parse;
    var addr := ToLower(address);
    var p := Parse(addr).value;
    var n := |p.symbols| - CHECKSUM_LENGTH;
    var symbols, checksum := p.symbols[..n], p.symbols[n..];
    ParsedAddress(addr);
    SymbolsOfBytes(symbols);
    var head := HrpExpand(Hrp(p.versionChar)) + symbols;
    assert p.symbols == symbols + checksum;
    assert HrpExpand(Hrp(p.versionChar)) + p.symbols == head + checksum;
    ChecksumUnique(head, checksum, 1);
  }

  lemma SameDecoding(idAddr: string)
    ensures Decode(ToLower(idAddr)) == Decode(idAddr)
  {
    hide ToLower, Parse, Verified, ToBytes;
    ToLowerIdempotent(idAddr);
  }

  /** Accepted are exactly the encodings, in any mixture of cases. */
  lemma AcceptedIff(address: string)
    requires IsAscii(address)
    ensures Decode(address).Ok? <==>
            exists version: Byte, data: seq<Byte> :: Encode(version, data) == Ok(ToLower(address))
  {
    hide Decode, Encode, ToLower;
    if Decode(address).Ok? {
      EncodeAfterDecode(address);
      assert Encode(Decode(address).value.version, Decode(address).value.data) == Ok(ToLower(address));
    }
    forall version: Byte, data: seq<Byte> | Encode(version, data) == Ok(ToLower(address))
      ensures Decode(address).Ok?
    {
      DecodeAfterEncode(version, data);
      SameDecoding(address);
    }
  }

  /** No two lower-case addresses carry the same payload. */
  lemma AddressesUnique(a: string, b: string)
    requires IsAscii(a) && IsAscii(b) && ToLower(a) == a && ToLower(b) == b
    requires Decode(a).Ok? && Decode(b).Ok?
    requires Decode(a).value.version == Decode(b).value.version && Decode(a).value.data == Decode(b).value.data
    ensures a == b
  {
    hide Decode, Encode;
    EncodeAfterDecode(a);
    EncodeAfterDecode(b);
  }

  // ---- Burst detection ----

  /** Two lower-case addresses with one version that both pass the checksum
      do not differ only within six consecutive characters, whatever their length. */
  lemma AddressBurst(a: string, b: string, at: nat)
    requires ToLower(a) == a && ToLower(b) == b && IsAscii(a) && IsAscii(b)
    requires Parse(a).Ok? && Verified(Parse(a).value)
    requires Parse(b).Ok? && Verified(Parse(b).value)
    requires |a| == |b| && Parse(a).value.version == Parse(b).value.version
    requires forall i :: 0 <= i < |a| && !(at <= i < at + 6) ==> a[i] == b[i]
    ensures a == b
  {
    hide Parse, Polymod, PolymodFrom, HrpExpand, SymbolOf, CharOf;
    var p, q := Parse(a).value, Parse(b).value;
    ParsedAddress(a);
    ParsedAddress(b);
    var hrp := HrpExpand(Hrp(p.versionChar));
    PolymodConcat(1, hrp, p.symbols);
    PolymodConcat(1, hrp, q.symbols);
    var start := if at < 4 then 0 else at - 4;
    forall i | 0 <= i < |p.symbols| && !(start <= i < start + 6)
      ensures p.symbols[i] == q.symbols[i]
    {
      assert a[i + 4] == CharOf(p.symbols[i]) && b[i + 4] == CharOf(q.symbols[i]);
      CharOfSymbol(p.symbols[i]);
      CharOfSymbol(q.symbols[i]);
    }
    PolymodOf(hrp + p.symbols);
    PolymodOf(hrp + q.symbols);
    BurstDetection(PolymodFrom(1, hrp), p.symbols, q.symbols, start);
  }

  lemma PolymodOf(values: seq<Symbol>)
    ensures Polymod(values) == PolymodFrom(1, values)
  {}
}
