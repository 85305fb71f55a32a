/** Bit regrouping between bytes and base32 symbols: both regroupers of the address codecs are proved
    against one specification on bit strings, and the two directions are proved inverse. */
module Regroup {
  import opened Wrappers

  function Pow2(n: nat): (p: nat)
    ensures p >= 1
  {
    if n == 0 then 1 else 2 * Pow2(n - 1)
  }

  // ---- Bit strings, most significant bit first ----

  type Bits = seq<bool>

  function Num(b: Bits): nat
  {
    if b == [] then 0 else 2 * Num(b[..|b| - 1]) + (if b[|b| - 1] then 1 else 0)
  }

  function BitsOf(v: nat, w: nat): (b: Bits)
    ensures |b| == w
  {
    if w == 0 then [] else BitsOf(v / 2, w - 1) + [v % 2 == 1]
  }

  function Zeros(n: nat): Bits { seq(n, i => false) }

  /** The values of `data`, `w` bits each, as one bit string. */
  function Stream(data: seq<nat>, w: nat): Bits
  {
    if data == [] then [] else Stream(data[..|data| - 1], w) + BitsOf(data[|data| - 1], w)
  }

  /** The complete `w`-bit groups at the front of `b`. */
  function Groups(b: Bits, w: nat): seq<nat>
    requires w > 0
    decreases |b|
  {
    if |b| < w then [] else [Num(b[..w])] + Groups(b[w..], w)
  }

  predicate Fits(data: seq<nat>, w: nat)
  {
    forall i :: 0 <= i < |data| ==> data[i] < Pow2(w)
  }

  /** How many zero bits complete the last group. */
  function Fill(n: nat, w: nat): (r: nat)
    requires w > 0
    ensures r < w && (n + r) % w == 0
  {
    var r := if n % w == 0 then 0 else w - n % w;
    FillDivides(n, w, r);
    r
  }

  lemma FillDivides(n: nat, w: nat, r: nat)
    requires w > 0 && r == if n % w == 0 then 0 else w - n % w
    ensures (n + r) % w == 0
  {
    if n % w != 0 {
      assert n + r == (n / w + 1) * w;
      DivModUnique(n + r, w, n / w + 1, 0);
    }
  }

  /** Regrouping on bit strings: zero-padded, or exact up to fewer than `from` zero bits. */
  function Spec(data: seq<nat>, from: nat, to: nat, pad: bool): Option<seq<nat>>
    requires to > 0
  {
    var s := Stream(data, from);
    var rest := s[|s| - |s| % to..];
    if pad then Some(Groups(s + Zeros(Fill(|s|, to)), to))
    else if |rest| >= from || Num(rest) != 0 then None
    else Some(Groups(s, to))
  }

  // ---- Arithmetic of powers of two ----

  lemma Pow2Add(a: nat, b: nat)
    ensures Pow2(a + b) == Pow2(a) * Pow2(b)
  {
    if a > 0 {
      Pow2Add(a - 1, b);
    }
  }

  /** A number whose low `a + b` bits are `hi` over `lo` splits into them. */
  lemma SplitDigits(x: int, q: int, p: nat, r: nat, hi: nat, lo: nat)
    requires p >= 1 && r >= 1 && hi < p && lo < r
    requires x == q * (p * r) + hi * r + lo
    ensures (x / r) % p == hi
    ensures x % r == lo
  {
    assert x == (q * p + hi) * r + lo by {
      assert q * (p * r) == (q * p) * r;
    }
    DivModUnique(x, r, q * p + hi, lo);
    DivModUnique(q * p + hi, p, q, hi);
  }

  lemma DivModUnique(x: int, d: nat, q: int, r: nat)
    requires d >= 1 && r < d && x == q * d + r
    ensures x / d == q && x % d == r
  {
    var e := x / d - q;
    assert e * d == r - x % d;
  }

  lemma MulAssociative(a: int, b: int, c: int)
    ensures a * (b * c) == (a * b) * c
  {}

  lemma Distribute(a: int, b: int, p: int)
    ensures (a + b) * p == a * p + b * p
  {}

  lemma ModOfShifted(x: int, y: int, k: int, p: nat)
    requires p >= 1 && x == y + k * p
    ensures x % p == y % p
  {
    assert x == (y / p + k) * p + y % p;
    DivModUnique(x, p, y / p + k, y % p);
  }

  /** Dropping a multiple of a larger power does not change the low bits. */
  lemma LowBitsKept(x: int, y: int, q: int, big: nat, small: nat)
    requires small <= big
    requires x == y + q * Pow2(big)
    ensures x % Pow2(small) == y % Pow2(small)
  {
    Pow2Add(big - small, small);
    MulAssociative(q, Pow2(big - small), Pow2(small));
    ModOfShifted(x, y, q * Pow2(big - small), Pow2(small));
  }

  // ---- Bit strings and numbers ----

  lemma {:induction false} NumBound(b: Bits)
    ensures Num(b) < Pow2(|b|)
  {
    if b != [] {
      NumBound(b[..|b| - 1]);
    }
  }

  lemma {:induction false} NumConcat(a: Bits, b: Bits)
    ensures Num(a + b) == Num(a) * Pow2(|b|) + Num(b)
  {
    if b == [] {
      assert a + b == a;
    } else {
      var n := |b| - 1;
      assert (a + b)[..|a + b| - 1] == a + b[..n];
      NumConcat(a, b[..n]);
      MulAssociative(Num(a), 2, Pow2(n));
      MulAssociative(2, Num(a), Pow2(n));
    }
  }

  lemma {:induction false} NumZeros(n: nat)
    ensures Num(Zeros(n)) == 0
  {
    if n > 0 {
      assert Zeros(n)[..n - 1] == Zeros(n - 1);
      NumZeros(n - 1);
    }
  }

  lemma {:induction false} NumOfBits(v: nat, w: nat)
    requires v < Pow2(w)
    ensures Num(BitsOf(v, w)) == v
  {
    if w > 0 {
      NumOfBits(v / 2, w - 1);
    }
  }

  lemma {:induction false} BitsOfNum(b: Bits)
    ensures BitsOf(Num(b), |b|) == b
  {
    if b != [] {
      BitsOfNum(b[..|b| - 1]);
      assert b == b[..|b| - 1] + [b[|b| - 1]];
    }
  }

  lemma {:induction false} NumZeroOnly(b: Bits)
    requires Num(b) == 0
    ensures b == Zeros(|b|)
  {
    if b != [] {
      NumZeroOnly(b[..|b| - 1]);
      assert b == b[..|b| - 1] + [b[|b| - 1]];
    }
  }

  // ---- Groups and streams are inverse ----

  lemma {:induction false} GroupsFit(b: Bits, w: nat)
    requires w > 0
    ensures Fits(Groups(b, w), w)
    decreases |b|
  {
    if |b| >= w {
      NumBound(b[..w]);
      GroupsFit(b[w..], w);
    }
  }

  /** `n` bits split into groups of `w` without remainder. */
  ghost predicate Whole(n: nat, w: nat)
    requires w > 0
  {
    n == 0 || (n >= w && Whole(n - w, w))
  }

  lemma {:induction false} WholeMultiple(q: nat, w: nat)
    requires w > 0
    ensures Whole(q * w, w)
    decreases q
  {
    if q > 0 {
      Distribute(q - 1, 1, w);
      WholeMultiple(q - 1, w);
    }
  }

  lemma {:induction false} GroupsConcat(a: Bits, b: Bits, w: nat)
    requires w > 0 && Whole(|a|, w)
    ensures Groups(a + b, w) == Groups(a, w) + Groups(b, w)
    decreases |a|
  {
    if a == [] {
      assert a + b == b;
    } else {
      assert (a + b)[..w] == a[..w] && (a + b)[w..] == a[w..] + b;
      GroupsConcat(a[w..], b, w);
    }
  }

  lemma GroupOne(b: Bits, w: nat)
    requires w > 0 && |b| == w
    ensures Groups(b, w) == [Num(b)]
  {
    assert b[..w] == b && b[w..] == [];
  }

  lemma {:induction false} StreamLength(data: seq<nat>, w: nat)
    ensures |Stream(data, w)| == |data| * w
  {
    if data != [] {
      var n := |data| - 1;
      StreamLength(data[..n], w);
      Distribute(n, 1, w);
    }
  }

  lemma WholeStream(data: seq<nat>, w: nat)
    requires w > 0
    ensures Whole(|Stream(data, w)|, w)
  {
    hide Whole, Stream;
    StreamLength(data, w);
    WholeMultiple(|data|, w);
  }

  lemma {:induction false} GroupsOfStream(data: seq<nat>, w: nat)
    requires w > 0 && Fits(data, w)
    ensures Groups(Stream(data, w), w) == data
  {
    hide Num, BitsOf, Groups, Whole, Stream;
    if data == [] {
      NoGroups(w);
    } else {
      var n := |data| - 1;
      var front, last := data[..n], BitsOf(data[n], w);
      LastGroup(data, w);
      GroupsOfStream(front, w);
      WholeStream(front, w);
      GroupsConcat(Stream(front, w), last, w);
      GroupOne(last, w);
      NumOfBits(data[n], w);
      assert data == front + [data[n]];
    }
  }

  lemma NoGroups(w: nat)
    requires w > 0
    ensures Groups(Stream([], w), w) == []
  {}

  lemma LastGroup(data: seq<nat>, w: nat)
    requires data != []
    ensures Stream(data, w) == Stream(data[..|data| - 1], w) + BitsOf(data[|data| - 1], w)
  {}

  lemma {:induction false} StreamConcat(a: seq<nat>, b: seq<nat>, w: nat)
    ensures Stream(a + b, w) == Stream(a, w) + Stream(b, w)
  {
    if b == [] {
      assert a + b == a;
    } else {
      var init := b[..|b| - 1];
      assert (a + b)[..|a + b| - 1] == a + init;
      StreamConcat(a, init, w);
      var last := BitsOf(b[|b| - 1], w);
      assert (Stream(a, w) + Stream(init, w)) + last == Stream(a, w) + (Stream(init, w) + last);
    }
  }

  lemma StreamOne(v: nat, w: nat)
    ensures Stream([v], w) == BitsOf(v, w)
  {
    assert [v][..0] == [];
    assert Stream([], w) == [];
  }

  lemma GroupsStep(b: Bits, w: nat)
    requires 0 < w <= |b|
    ensures Groups(b, w) == [Num(b[..w])] + Groups(b[w..], w)
  {}

  lemma StreamStep(head: Bits, tail: seq<nat>, w: nat)
    requires |head| == w
    ensures Stream([Num(head)] + tail, w) == head + Stream(tail, w)
  {
    hide Num, BitsOf, Stream;
    StreamConcat([Num(head)], tail, w);
    StreamOne(Num(head), w);
    BitsOfNum(head);
  }

  lemma {:induction false} StreamOfGroups(b: Bits, w: nat)
    requires w > 0 && Whole(|b|, w)
    ensures Stream(Groups(b, w), w) == b
    decreases |b|
  {
    hide Num, BitsOf;
    if b == [] {
    } else {
      hide Stream, Groups;
      GroupsStep(b, w);
      StreamOfGroups(b[w..], w);
      StreamStep(b[..w], Groups(b[w..], w), w);
      assert b == b[..w] + b[w..];
    }
  }

  // ---- The register of the regrouping loops ----

  /** `ret` is the grouping of all of `s` but its last `bits` bits, which `acc` holds as its low bits. */
  ghost predicate Register(ret: seq<nat>, acc: int, bits: nat, s: Bits, to: nat)
    requires to > 0
  {
    && |s| == |ret| * to + bits
    && ret == Groups(s[..|s| - bits], to)
    && acc % Pow2(bits) == Num(s[|s| - bits..])
  }

  lemma ShiftedDigits(acc: int, low: nat, p: nat, v: nat)
    requires low >= 1 && v < p
    ensures low * p >= 1 && (acc * p + v) % (low * p) == (acc % low) * p + v
  {
    var k, n := acc / low, acc % low;
    assert acc == k * low + n;
    Distribute(k * low, n, p);
    MulAssociative(k, low, p);
    Distribute(low - n - 1, n + 1, p);
    Distribute(n, 1, p);
    assert (low - n - 1) * p >= 0;
    DivModUnique(acc * p + v, low * p, k, n * p + v);
  }

  /** The low bits after shifting in `v`, whether the accumulator is masked or wraps around above them. */
  lemma AbsorbDigits(acc: int, rest: Bits, v: nat, from: nat, next: int)
    requires v < Pow2(from) && acc % Pow2(|rest|) == Num(rest)
    requires next % Pow2(|rest| + from) == (acc * Pow2(from) + v) % Pow2(|rest| + from)
    ensures next % Pow2(|rest| + from) == Num(rest + BitsOf(v, from))
  {
    hide Num, Pow2;
    NumConcat(rest, BitsOf(v, from));
    NumOfBits(v, from);
    Pow2Add(|rest|, from);
    ShiftedDigits(acc, Pow2(|rest|), Pow2(from), v);
  }

  lemma Absorb(ret: seq<nat>, acc: int, bits: nat, s: Bits, to: nat, v: nat, from: nat, next: int)
    requires to > 0 && Register(ret, acc, bits, s, to) && v < Pow2(from)
    requires next % Pow2(bits + from) == (acc * Pow2(from) + v) % Pow2(bits + from)
    ensures Register(ret, next, bits + from, s + BitsOf(v, from), to)
  {
    hide Num, Pow2, Groups, BitsOf;
    var s' := s + BitsOf(v, from);
    var rest := s[|s| - bits..];
    assert s'[..|s'| - (bits + from)] == s[..|s| - bits];
    assert s'[|s'| - (bits + from)..] == rest + BitsOf(v, from);
    AbsorbDigits(acc, rest, v, from, next);
  }

  lemma DivMod(x: int, d: nat)
    requires d >= 1
    ensures x == (x / d) * d + x % d
  {}

  lemma EmitDigits(acc: int, top: Bits, rest: Bits)
    requires acc % Pow2(|top| + |rest|) == Num(top + rest)
    ensures (acc / Pow2(|rest|)) % Pow2(|top|) == Num(top)
    ensures acc % Pow2(|rest|) == Num(rest)
  {
    hide Num, Pow2;
    NumConcat(top, rest);
    NumBound(top);
    NumBound(rest);
    Pow2Add(|top|, |rest|);
    var all := Pow2(|top| + |rest|);
    DivMod(acc, all);
    SplitDigits(acc, acc / all, Pow2(|top|), Pow2(|rest|), Num(top), Num(rest));
  }

  /** `to` bits of the accumulator above its low `bits` bits. */
  function Field(acc: int, bits: nat, to: nat): (v: nat)
  {
    (acc / Pow2(bits)) % Pow2(to)
  }

  /** Emitting the top group of the pending bits. */
  lemma Emit(ret: seq<nat>, acc: int, bits: nat, s: Bits, to: nat)
    requires 0 < to <= bits && Register(ret, acc, bits, s, to)
    ensures Register(ret + [Field(acc, bits - to, to)], acc, bits - to, s, to)
  {
    hide Num, Pow2, Groups;
    var left := bits - to;
    var done, top, rest := s[..|s| - bits], s[|s| - bits..|s| - left], s[|s| - left..];
    assert s[|s| - bits..] == top + rest;
    assert s[..|s| - left] == done + top;
    EmitDigits(acc, top, rest);
    WholeMultiple(|ret|, to);
    GroupsConcat(done, top, to);
    GroupOne(top, to);
    Distribute(|ret|, 1, to);
  }

  function Shifted(acc: int, n: nat): int { acc * Pow2(n) }

  function LowField(acc: int, to: nat): (v: nat) { acc % Pow2(to) }

  /** What the shift to a full group yields at the end of the loop: the pending bits over zeros. */
  lemma PendingShifted(acc: int, rest: Bits, to: nat, shifted: int)
    requires |rest| < to && acc % Pow2(|rest|) == Num(rest)
    requires LowField(shifted, to) == LowField(Shifted(acc, to - |rest|), to)
    ensures LowField(shifted, to) == Num(rest + Zeros(to - |rest|))
    ensures LowField(shifted, to) == 0 <==> Num(rest) == 0
  {
    hide Num, Pow2;
    var p := Pow2(to - |rest|);
    NumConcat(rest, Zeros(to - |rest|));
    NumZeros(to - |rest|);
    Pow2Add(|rest|, to - |rest|);
    ShiftedDigits(acc, Pow2(|rest|), p, 0);
    if Num(rest) >= 1 {
      Distribute(Num(rest) - 1, 1, p);
      assert (Num(rest) - 1) * p >= 0;
    }
  }

  /** With fewer pending bits than a group, they are the remainder of the whole string. */
  lemma PendingIsRemainder(q: nat, n: nat, bits: nat, to: nat)
    requires bits < to && n == q * to + bits
    ensures n % to == bits
    ensures Fill(n, to) == if bits == 0 then 0 else to - bits
  {
    DivModUnique(n, to, q, bits);
  }

  lemma GroupsOfParts(q: nat, done: Bits, rest: Bits, to: nat)
    requires |rest| < to && |done| == q * to
    ensures Groups(done + rest, to) == Groups(done, to)
    ensures Groups(done + (rest + Zeros(to - |rest|)), to) == Groups(done, to) + [Num(rest + Zeros(to - |rest|))]
  {
    hide Num, Groups;
    WholeMultiple(q, to);
    GroupsConcat(done, rest, to);
    GroupsOfShort(rest, to);
    var filled := rest + Zeros(to - |rest|);
    GroupsConcat(done, filled, to);
    GroupOne(filled, to);
  }

  /** The value the loops return from their final register. */
  lemma FinalRegister(ret: seq<nat>, acc: int, bits: nat, data: seq<nat>, from: nat, to: nat, shifted: int)
    requires 0 < to && bits < to && Register(ret, acc, bits, Stream(data, from), to)
    requires LowField(shifted, to) == LowField(Shifted(acc, to - bits), to)
    ensures Spec(data, from, to, true) == Some(if bits > 0 then ret + [LowField(shifted, to)] else ret)
    ensures Spec(data, from, to, false) ==
            if bits >= from || LowField(shifted, to) != 0 then None else Some(ret)
  {
    hide Num, Pow2, Groups, Fill, LowField, Shifted, Spec, Stream;
    var s := Stream(data, from);
    var done, rest := s[..|s| - bits], s[|s| - bits..];
    assert s == done + rest;
    PendingShifted(acc, rest, to, shifted);
    ExactSpec(|ret|, done, rest, data, from, to);
    PaddedSpec(data, from, to);
    GroupsOfParts(|ret|, done, rest, to);
    PendingIsRemainder(|ret|, |s|, bits, to);
    FilledUp(s, done, rest, to);
  }

  lemma FilledUp(s: Bits, done: Bits, rest: Bits, to: nat)
    requires s == done + rest && |rest| < to
    ensures s + Zeros(0) == s
    ensures s + Zeros(to - |rest|) == done + (rest + Zeros(to - |rest|))
  {}

  type Byte = x: int | 0 <= x < 256

  lemma StreamSnoc(data: seq<nat>, k: nat, w: nat)
    requires k < |data|
    ensures Stream(data[..k + 1], w) == Stream(data[..k], w) + BitsOf(data[k], w)
  {
    assert data[..k + 1][..k] == data[..k];
  }

  lemma ReducedBy(x: int, big: nat, small: nat)
    requires small <= big
    ensures (x % Pow2(big)) % Pow2(small) == x % Pow2(small)
  {
    hide Pow2;
    var p := Pow2(big);
    assert x == x % p + (x / p) * p;
    LowBitsKept(x, x % p, x / p, big, small);
  }

  lemma EmptyRegister(data: seq<nat>, from: nat, to: nat)
    requires to > 0
    ensures Register([], 0, 0, Stream(data[..0], from), to)
  {}

  // ---- The regrouper of the ID-address codec: the accumulator is masked ----

  function Masked(acc: int, from: nat, v: nat, to: nat): int
    requires from > 0
  {
    (Shifted(acc, from) + v) % Pow2(from + to - 1)
  }

  lemma AbsorbMasked(ret: seq<nat>, acc: int, bits: nat, s: Bits, to: nat, v: nat, from: nat)
    requires from > 0 && bits < to && Register(ret, acc, bits, s, to) && v < Pow2(from)
    ensures Register(ret, Masked(acc, from, v, to), bits + from, s + BitsOf(v, from), to)
  {
    hide Num, Pow2, Register;
    ReducedBy(acc * Pow2(from) + v, from + to - 1, bits + from);
    Absorb(ret, acc, bits, s, to, v, from, Masked(acc, from, v, to));
  }

  /** The inner loop of both regroupers. */
  method EmitGroups(ret: seq<nat>, acc: int, bits: nat, to: nat, ghost s: Bits) returns (ret': seq<nat>, bits': nat)
    requires to > 0 && Register(ret, acc, bits, s, to)
    ensures bits' < to && Register(ret', acc, bits', s, to)
  {
    hide Register, Field;
    ret', bits' := ret, bits;
    while bits' >= to
      invariant Register(ret', acc, bits', s, to)
    {
      Emit(ret', acc, bits', s, to);
      bits' := bits' - to;
      ret' := ret' + [Field(acc, bits', to)];
    }
  }

  /** The end of both regroupers, where `shifted` is the accumulator moved up to a full group. */
  method Finish(ret: seq<nat>, ghost acc: int, bits: nat, ghost data: seq<nat>, from: nat, to: nat, pad: bool,
                shifted: int)
    returns (r: Option<seq<nat>>)
    requires 0 < to && bits < to && Register(ret, acc, bits, Stream(data, from), to)
    requires LowField(shifted, to) == LowField(Shifted(acc, to - bits), to)
    ensures r == Spec(data, from, to, pad)
  {
    hide Register, Spec, LowField, Shifted;
    FinalRegister(ret, acc, bits, data, from, to, shifted);
    r := Some(ret);
    if pad {
      if bits > 0 {
        r := Some(ret + [LowField(shifted, to)]);
      }
    } else if bits >= from || LowField(shifted, to) != 0 {
      r := None;
    }
  }

  method ConvertBits(data: seq<Byte>, from: nat, to: nat, pad: bool) returns (r: Option<seq<nat>>)
    requires from > 0 && to > 0
    ensures r == if Fits(data, from) then Spec(data, from, to, pad) else None
  {
    hide Pow2, Spec, Register, Masked, Shifted;
    var acc, bits: nat, ret: seq<nat> := 0, 0, [];
    EmptyRegister(data, from, to);
    for k := 0 to |data|
      invariant Fits(data[..k], from)
      invariant bits < to && Register(ret, acc, bits, Stream(data[..k], from), to)
    {
      var value := data[k];
      if value >= Pow2(from) {
        return None;
      }
      AbsorbMasked(ret, acc, bits, Stream(data[..k], from), to, value, from);
      StreamSnoc(data, k, from);
      acc, bits := Masked(acc, from, value, to), bits + from;
      ret, bits := EmitGroups(ret, acc, bits, to, Stream(data[..k + 1], from));
    }
    assert data[..|data|] == data;
    r := Finish(ret, acc, bits, data, from, to, pad, Shifted(acc, to - bits));
  }

  // ---- The regrouper of the Bech32 codec: a 64-bit accumulator that wraps around ----

  /** Two's complement wrap-around of a 64-bit machine integer. */
  function Wrap64(x: int): int
  {
    (x + Pow2(63)) % Pow2(64) - Pow2(63)
  }

  lemma Sixty()
    ensures Pow2(63) == 0x8000_0000_0000_0000 && Pow2(64) == 0x1_0000_0000_0000_0000
  {
    assert Pow2(16) == 0x1_0000;
    Pow2Add(16, 16);
    Pow2Add(32, 16);
    Pow2Add(48, 15);
    assert Pow2(15) == 0x8000;
  }

  lemma WrapInRange(x: int)
    requires -0x8000_0000_0000_0000 <= x < 0x8000_0000_0000_0000
    ensures Wrap64(x) == x
  {
    hide Pow2;
    Sixty();
  }

  lemma WrapAbove(x: int)
    requires 0x8000_0000_0000_0000 <= x < 0x1_8000_0000_0000_0000
    ensures Wrap64(x) == x - 0x1_0000_0000_0000_0000
  {
    hide Pow2;
    Sixty();
  }

  lemma WrapKeepsLowBits(x: int, n: nat)
    requires n <= 64
    ensures Wrap64(x) % Pow2(n) == x % Pow2(n)
  {
    hide Pow2;
    var y, p := x + Pow2(63), Pow2(64);
    assert y == (y / p) * p + y % p;
    LowBitsKept(x, Wrap64(x), y / p, 64, n);
  }

  function Wrapped(acc: int, from: nat, v: nat): int { Wrap64(Shifted(acc, from) + v) }

  lemma AbsorbWrapped(ret: seq<nat>, acc: int, bits: nat, s: Bits, to: nat, v: nat, from: nat)
    requires from > 0 && bits < to && from + to <= 64 && Register(ret, acc, bits, s, to) && v < Pow2(from)
    ensures Register(ret, Wrapped(acc, from, v), bits + from, s + BitsOf(v, from), to)
  {
    hide Num, Pow2, Register, Wrap64;
    WrapKeepsLowBits(acc * Pow2(from) + v, bits + from);
    Absorb(ret, acc, bits, s, to, v, from, Wrapped(acc, from, v));
  }

  /** On values within range it returns what the masked regrouper returns. */
  method ConvertBits8to5(data: seq<Byte>, from: nat, to: nat, pad: bool) returns (r: Option<seq<nat>>)
    requires from > 0 && to > 0 && from + to <= 64 && Fits(data, from)
    ensures r == Spec(data, from, to, pad)
  {
    hide Pow2, Spec, Register, Wrapped, Shifted, Wrap64, LowField;
    var acc, bits: nat, ret: seq<nat> := 0, 0, [];
    EmptyRegister(data, from, to);
    for k := 0 to |data|
      invariant bits < to && Register(ret, acc, bits, Stream(data[..k], from), to)
    {
      AbsorbWrapped(ret, acc, bits, Stream(data[..k], from), to, data[k], from);
      StreamSnoc(data, k, from);
      acc, bits := Wrapped(acc, from, data[k]), bits + from;
      ret, bits := EmitGroups(ret, acc, bits, to, Stream(data[..k + 1], from));
    }
    assert data[..|data|] == data;
    WrappedLowField(Shifted(acc, to - bits), to);
    r := Finish(ret, acc, bits, data, from, to, pad, Wrap64(Shifted(acc, to - bits)));
  }

  lemma WrappedLowField(x: int, to: nat)
    requires to <= 64
    ensures LowField(Wrap64(x), to) == LowField(x, to)
  {
    WrapKeepsLowBits(x, to);
  }

  // ---- The two directions are inverse ----

  lemma EightFive()
    ensures Pow2(8) == 256 && Pow2(5) == 32
  {
    assert Pow2(5) == 32;
  }

  lemma PaddedLength(n: nat, to: nat)
    requires to > 0
    ensures exists q: nat :: n + Fill(n, to) == q * to
  {
    var m := n + Fill(n, to);
    assert m == (m / to) * to;
  }

  /** Padded regrouping keeps the bits, completes them with zeros and yields values that fit. */
  lemma PaddedStream(data: seq<nat>, from: nat, to: nat)
    requires to > 0
    ensures Spec(data, from, to, true).Some?
    ensures Fits(Spec(data, from, to, true).value, to)
    ensures Stream(Spec(data, from, to, true).value, to) ==
            Stream(data, from) + Zeros(Fill(|Stream(data, from)|, to))
  {
    hide Groups;
    var s := Stream(data, from);
    PaddedLength(|s|, to);
    var q: nat :| |s| + Fill(|s|, to) == q * to;
    WholeMultiple(q, to);
    StreamOfGroups(s + Zeros(Fill(|s|, to)), to);
    GroupsFit(s + Zeros(Fill(|s|, to)), to);
  }

  lemma ExactUnfolded(done: Bits, rest: Bits, data: seq<nat>, from: nat, to: nat)
    requires to > 0 && Stream(data, from) == done + rest && (|done| + |rest|) % to == |rest|
    ensures Spec(data, from, to, false) ==
            if |rest| >= from || Num(rest) != 0 then None else Some(Groups(done + rest, to))
  {
    hide Num, Stream, Groups;
    var s := Stream(data, from);
    assert |s| - |s| % to == |done|;
    LastPart(done, rest);
  }

  lemma LastPart(done: Bits, rest: Bits)
    ensures (done + rest)[|done|..] == rest
  {}

  /** Exact regrouping in terms of the complete groups and the bits left over. */
  lemma ExactSpec(q: nat, done: Bits, rest: Bits, data: seq<nat>, from: nat, to: nat)
    requires Stream(data, from) == done + rest && |done| == q * to && |rest| < to
    ensures Spec(data, from, to, false) == if |rest| >= from || Num(rest) != 0 then None else Some(Groups(done, to))
  {
    hide Num, Stream, Groups, Spec;
    PendingIsRemainder(q, |done| + |rest|, |rest|, to);
    GroupsOfParts(q, done, rest, to);
    ExactUnfolded(done, rest, data, from, to);
  }

  lemma GroupsOfShort(b: Bits, w: nat)
    requires |b| < w
    ensures Groups(b, w) == []
  {}

  /** Narrowing with padding and widening without it gives the data back. */
  lemma WidenAfterNarrow(data: seq<nat>, wide: nat, narrow: nat)
    requires 0 < narrow <= wide && Fits(data, wide)
    ensures Spec(data, wide, narrow, true).Some?
    ensures Spec(Spec(data, wide, narrow, true).value, narrow, wide, false) == Some(data)
  {
    hide Groups, Num, Spec, Fill, Stream;
    var s := Stream(data, wide);
    var fill := Fill(|s|, narrow);
    PaddedStream(data, wide, narrow);
    StreamLength(data, wide);
    NumZeros(fill);
    ExactSpec(|data|, s, Zeros(fill), Spec(data, wide, narrow, true).value, narrow, wide);
    GroupsOfStream(data, wide);
  }

  lemma SplitAtGroup(s: Bits, w: nat) returns (q: nat, done: Bits, rest: Bits)
    requires w > 0
    ensures s == done + rest && |done| == q * w && |rest| < w
  {
    q := |s| / w;
    assert |s| == q * w + |s| % w;
    done, rest := s[..|s| - |s| % w], s[|s| - |s| % w..];
  }

  /** Widening accepts only what narrowing with padding produces. */
  lemma NarrowAfterWiden(symbols: seq<nat>, narrow: nat, wide: nat)
    requires 0 < narrow <= wide && Fits(symbols, narrow)
    requires Spec(symbols, narrow, wide, false).Some?
    ensures Fits(Spec(symbols, narrow, wide, false).value, wide)
    ensures Spec(Spec(symbols, narrow, wide, false).value, wide, narrow, true) == Some(symbols)
  {
    hide Groups, Num, Spec, Fill, Stream;
    var s := Stream(symbols, narrow);
    var q, done, rest := SplitAtGroup(s, wide);
    ExactSpec(q, done, rest, symbols, narrow, wide);
    NumZeroOnly(rest);
    GroupsFit(done, wide);
    WholeMultiple(q, wide);
    StreamOfGroups(done, wide);
    StreamLength(symbols, narrow);
    FillRestores(|symbols|, |done|, |rest|, narrow);
    GroupsOfStream(symbols, narrow);
    PaddedSpec(Groups(done, wide), wide, narrow);
  }

  lemma PaddedSpec(data: seq<nat>, from: nat, to: nat)
    requires to > 0
    ensures var s := Stream(data, from);
            Spec(data, from, to, true) == Some(Groups(s + Zeros(Fill(|s|, to)), to))
  {}

  /** The zero bits dropped by widening are the ones narrowing adds back. */
  lemma FillRestores(count: nat, kept: nat, dropped: nat, w: nat)
    requires w > 0 && dropped < w && kept + dropped == count * w
    ensures Fill(kept, w) == dropped
  {
    if dropped == 0 {
      DivModUnique(kept, w, count, 0);
    } else {
      Distribute(count - 1, 1, w);
      DivModUnique(kept, w, count - 1, w - dropped);
    }
  }
}
