/** Regrouping read as arithmetic: a list of values is a number written in base 2^w, most significant digit first, and
    padded regrouping writes the same number, shifted, in the other base. */
module Positional {
  import opened Wrappers
  import opened Checksum
  import opened Regroup
  import opened IdAddress

  /** The number with these digits in base 2^w. */
  function Value(digits: seq<nat>, w: nat): nat
  {
    if digits == [] then 0 else Value(digits[..|digits| - 1], w) * Pow2(w) + digits[|digits| - 1]
  }

  lemma {:induction false} StreamValue(digits: seq<nat>, w: nat)
    requires Fits(digits, w)
    ensures Num(Stream(digits, w)) == Value(digits, w)
  {
    hide Num, BitsOf;
    if digits == [] {
      NumZeros(0);
      assert Stream(digits, w) == Regroup.Zeros(0);
    } else {
      var n := |digits| - 1;
      StreamValue(digits[..n], w);
      NumConcat(Stream(digits[..n], w), BitsOf(digits[n], w));
      NumOfBits(digits[n], w);
    }
  }

  /** Padded regrouping keeps the number, shifted by the zero bits that complete the last group. */
  lemma PaddedValue(data: seq<nat>, from: nat, to: nat)
    requires to > 0 && Fits(data, from)
    ensures Spec(data, from, to, true).Some?
    ensures var r, fill := Spec(data, from, to, true).value, Fill(|data| * from, to);
            Fits(r, to) && |r| * to == |data| * from + fill && Value(r, to) == Value(data, from) * Pow2(fill)
  {
    hide Num, Stream, Value, Spec, Fill;
    PaddedStream(data, from, to);
    var r := Spec(data, from, to, true).value;
    StreamLength(data, from);
    StreamLength(r, to);
    StreamValue(data, from);
    StreamValue(r, to);
    var fill := Fill(|data| * from, to);
    NumConcat(Stream(data, from), Regroup.Zeros(fill));
    NumZeros(fill);
  }

  // ---- Five bytes are eight symbols ----

  function EightSymbols(b: seq<Byte>): (r: seq<Symbol>)
    requires |b| == 5
    ensures |r| == 8
  {
    [b[0] / 8, b[0] % 8 * 4 + b[1] / 64, b[1] / 2 % 32, b[1] % 2 * 16 + b[2] / 16,
     b[2] % 16 * 2 + b[3] / 128, b[3] / 4 % 32, b[3] % 4 * 8 + b[4] / 32, b[4] % 32]
  }

  lemma ValueStep(init: seq<nat>, d: nat, w: nat)
    ensures Value(init + [d], w) == Value(init, w) * Pow2(w) + d
  {
    assert (init + [d])[..|init|] == init;
  }

  lemma NoDigits(w: nat)
    ensures Value([], w) == 0
  {}

  lemma TakeValue(s: seq<nat>, k: nat, w: nat)
    requires k < |s|
    ensures Value(s[..k + 1], w) == Value(s[..k], w) * Pow2(w) + s[k]
  {
    assert s[..k + 1] == s[..k] + [s[k]];
    ValueStep(s[..k], s[k], w);
  }

  lemma FiveDigits(b: seq<nat>)
    requires |b| == 5
    ensures Value(b, 8) == (((b[0] * 256 + b[1]) * 256 + b[2]) * 256 + b[3]) * 256 + b[4]
  {
    hide Value, Pow2;
    EightFive();
    NoDigits(8);
    assert b[..0] == [] && b[..5] == b;
    TakeValue(b, 0, 8);
    TakeValue(b, 1, 8);
    TakeValue(b, 2, 8);
    TakeValue(b, 3, 8);
    TakeValue(b, 4, 8);
  }

  lemma EightDigits(s: seq<nat>)
    requires |s| == 8
    ensures Value(s, 5) ==
            ((((((s[0] * 32 + s[1]) * 32 + s[2]) * 32 + s[3]) * 32 + s[4]) * 32 + s[5]) * 32 + s[6]) * 32 + s[7]
  {
    hide Value, Pow2;
    EightFive();
    NoDigits(5);
    assert s[..0] == [] && s[..8] == s;
    TakeValue(s, 0, 5);
    TakeValue(s, 1, 5);
    TakeValue(s, 2, 5);
    TakeValue(s, 3, 5);
    TakeValue(s, 4, 5);
    TakeValue(s, 5, 5);
    TakeValue(s, 6, 5);
    TakeValue(s, 7, 5);
  }

  lemma EightSymbolsValue(b: seq<Byte>)
    requires |b| == 5
    ensures Value(EightSymbols(b), 5) == Value(b, 8)
  {
    hide Value;
    FiveDigits(b);
    EightDigits(EightSymbols(b));
    ByteParts(b[1]);
    ByteParts(b[3]);
    Rejoined(b[0] / 8, b[0] % 8, b[1] / 64, b[1] / 2 % 32, b[1] % 2, b[2] / 16, b[2] % 16, b[3] / 128, b[3] / 4 % 32, b[3] % 4,
             b[4] / 32, b[4] % 32);
  }

  lemma ByteParts(b: Byte)
    ensures b == b / 64 * 64 + b / 2 % 32 * 2 + b % 2 && b == b / 128 * 128 + b / 4 % 32 * 4 + b % 4
  {}

  lemma Rejoined(a: int, b: int, c: int, d: int, e: int, f: int, g: int, h: int, i: int, j: int, k: int, l: int)
    ensures ((((((a * 32 + (b * 4 + c)) * 32 + d) * 32 + (e * 16 + f)) * 32 + (g * 2 + h)) * 32 + i) * 32 + (j * 8 + k)) * 32 + l
            == ((((a * 8 + b) * 256 + (c * 64 + d * 2 + e)) * 256 + (f * 16 + g)) * 256 + (h * 128 + i * 4 + j)) * 256
               + (k * 32 + l)
  {}

  /** Five bytes and what follows them. */
  lemma BlockSymbols(b: seq<Byte>, tail: seq<Byte>)
    requires |b| == 5
    ensures ToSymbols(b + tail) == EightSymbols(b) + ToSymbols(tail)
  {
    hide Groups, Num, BitsOf, EightSymbols;
    BlockStream(b);
    StreamConcat(b, tail, 8);
    var s, head := Stream(tail, 8), Stream(b, 8);
    StreamLength(b, 8);
    SameFill(|s|);
    var zeros := Regroup.Zeros(Fill(|s|, 5));
    assert (head + s) + zeros == head + (s + zeros);
    WholeMultiple(8, 5);
    GroupsConcat(head, s + zeros, 5);
    GroupsOfStream(EightSymbols(b), 5);
  }

  lemma SameFill(n: nat)
    ensures Fill(40 + n, 5) == Fill(n, 5)
  {
    DivModUnique(40 + n, 5, 8 + n / 5, n % 5);
  }

  /** The bits of five bytes are those of their eight symbols. */
  lemma BlockStream(b: seq<Byte>)
    requires |b| == 5
    ensures Fits(EightSymbols(b), 5) && Stream(EightSymbols(b), 5) == Stream(b, 8)
  {
    hide Num, Stream, Value, EightSymbols;
    EightFive();
    BytesFit(b);
    SymbolsFit(EightSymbols(b));
    EightSymbolsValue(b);
    StreamValue(b, 8);
    StreamValue(EightSymbols(b), 5);
    StreamLength(b, 8);
    StreamLength(EightSymbols(b), 5);
    BitsOfNum(Stream(b, 8));
    BitsOfNum(Stream(EightSymbols(b), 5));
  }

  lemma NoSymbols()
    ensures ToSymbols([]) == []
  {
    assert Stream([], 8) + Regroup.Zeros(Fill(0, 5)) == [];
  }

  /** Digits are determined by their number. */
  lemma {:induction false} DigitsUnique(a: seq<nat>, b: seq<nat>, w: nat)
    requires |a| == |b| && Fits(a, w) && Fits(b, w) && Value(a, w) == Value(b, w)
    ensures a == b
  {
    if a != [] {
      var n := |a| - 1;
      DivModUnique(Value(a, w), Pow2(w), Value(a[..n], w), a[n]);
      DivModUnique(Value(b, w), Pow2(w), Value(b[..n], w), b[n]);
      DigitsUnique(a[..n], b[..n], w);
    }
  }

  /** Two bytes alone are four symbols, completed with four zero bits. */
  lemma TwoBytes(a: Byte, b: Byte)
    ensures ToSymbols([a, b]) == [a / 8, a % 8 * 4 + b / 64, b / 2 % 32, b % 2 * 16]
  {
    hide Value, Spec;
    EightFive();
    var data: seq<Byte> := [a, b];
    var s: seq<Symbol> := [a / 8, a % 8 * 4 + b / 64, b / 2 % 32, b % 2 * 16];
    BytesFit(data);
    SymbolsFit(s);
    PaddedValue(data, 8, 5);
    assert Fill(16, 5) == 4 && Pow2(4) == 16;
    NoDigits(8);
    NoDigits(5);
    assert data[..0] == [] && data[..2] == data && s[..0] == [] && s[..4] == s;
    TakeValue(data, 0, 8);
    TakeValue(data, 1, 8);
    TakeValue(s, 0, 5);
    TakeValue(s, 1, 5);
    TakeValue(s, 2, 5);
    TakeValue(s, 3, 5);
    ByteParts(b);
    DigitsUnique(s, ToSymbols(data), 5);
  }
}
