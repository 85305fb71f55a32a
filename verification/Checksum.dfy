/** The BCH checksum shared by the ID-address and the Bech32 codecs (BIP-173, section "Checksum").
    The 30-bit remainder is a `bv30`, a base32 symbol an integer below 32. */
module Checksum {
  type Symbol = x: int | 0 <= x < 32

  /** Generator coefficients, one per bit of the five-bit overflow. */
  const GENERATOR: seq<bv30> := [0x3b6a57b2, 0x26508e6d, 0x1ea119fa, 0x3d4233dd, 0x2a1462b3]

  // The proofs below treat the bit operations as hidden symbols wherever only their algebra matters.

  // ---- One step of the remainder ----

  /** Addition of remainders over GF(2). */
  function Xor(a: bv30, b: bv30): bv30 { a ^ b }

  function Word(v: Symbol): bv30 { (v as bv5) as bv30 }

  function Low(chk: bv30): bv30 { (chk & 0x1ffffff) << 5 }

  function Tap(bit: bv30, g: bv30): bv30 { if bit & 1 == 1 then g else 0 }

  function TapsLow(top: bv30): bv30 { Xor(Tap(top, 0x3b6a57b2), Tap(top >> 1, 0x26508e6d)) }

  function TapsMid(top: bv30): bv30 { Xor(Tap(top >> 2, 0x1ea119fa), Tap(top >> 3, 0x3d4233dd)) }

  function LastTap(top: bv30): bv30 { Tap(top >> 4, 0x2a1462b3) }

  function TapsHalf(top: bv30): bv30 { Xor(TapsLow(top), TapsMid(top)) }

  function Taps(top: bv30): bv30 { Xor(TapsHalf(top), LastTap(top)) }

  function Reduced(chk: bv30): bv30 { Xor(Low(chk), Taps(chk >> 25)) }

  /** One symbol shifted into the remainder. */
  function Step(chk: bv30, v: bv30): bv30 { Xor(Reduced(chk), v) }

  function PolymodFrom(chk: bv30, values: seq<Symbol>): bv30
    decreases |values|
  {
    if values == [] then chk else PolymodFrom(Step(chk, Word(values[0])), values[1..])
  }

  function Polymod(values: seq<Symbol>): bv30 { PolymodFrom(1, values) }

  // ---- Algebra of the addition ----

  lemma XorAssociative(a: bv30, b: bv30, c: bv30)
    ensures Xor(Xor(a, b), c) == Xor(a, Xor(b, c))
  {}

  lemma XorCommutative(a: bv30, b: bv30)
    ensures Xor(a, b) == Xor(b, a)
  {}

  lemma XorPairs(p1: bv30, p2: bv30, q1: bv30, q2: bv30)
    ensures Xor(Xor(p1, p2), Xor(q1, q2)) == Xor(Xor(p1, q1), Xor(p2, q2))
  {
    hide Xor;
    calc {
      Xor(Xor(p1, p2), Xor(q1, q2));
      { XorAssociative(p1, p2, Xor(q1, q2)); }
      Xor(p1, Xor(p2, Xor(q1, q2)));
      { XorAssociative(p2, q1, q2); }
      Xor(p1, Xor(Xor(p2, q1), q2));
      { XorCommutative(p2, q1); }
      Xor(p1, Xor(Xor(q1, p2), q2));
      { XorAssociative(q1, p2, q2); }
      Xor(p1, Xor(q1, Xor(p2, q2)));
      { XorAssociative(p1, q1, Xor(p2, q2)); }
      Xor(Xor(p1, q1), Xor(p2, q2));
    }
  }

  // ---- The loops of `polymod` refine the fold ----

  /** The inner loop of `polymod` after `n` of its five rounds. */
  function TapLoop(top: bv30, acc: bv30, n: nat): bv30
    requires n <= 5
  {
    if n == 0 then acc
    else
      var before := TapLoop(top, acc, n - 1);
      if (top >> (n - 1)) & 1 == 1 then Xor(before, GENERATOR[n - 1]) else before
  }

  lemma TapRound(acc: bv30, bit: bv30, g: bv30)
    ensures (if bit & 1 == 1 then Xor(acc, g) else acc) == Xor(acc, Tap(bit, g))
  {}

  lemma TapLoopUnrolled(top: bv30, acc: bv30)
    ensures TapLoop(top, acc, 5) ==
            Xor(Xor(Xor(Xor(Xor(acc, Tap(top, 0x3b6a57b2)), Tap(top >> 1, 0x26508e6d)),
                        Tap(top >> 2, 0x1ea119fa)), Tap(top >> 3, 0x3d4233dd)), Tap(top >> 4, 0x2a1462b3))
  {
    hide Xor, Tap;
    TapRound(acc, top, 0x3b6a57b2);
    TapRound(TapLoop(top, acc, 1), top >> 1, 0x26508e6d);
    TapRound(TapLoop(top, acc, 2), top >> 2, 0x1ea119fa);
    TapRound(TapLoop(top, acc, 3), top >> 3, 0x3d4233dd);
    TapRound(TapLoop(top, acc, 4), top >> 4, 0x2a1462b3);
    assert top >> 0 == top;
    assert TapLoop(top, acc, 1) == Xor(acc, Tap(top, 0x3b6a57b2));
    assert TapLoop(top, acc, 2) == Xor(TapLoop(top, acc, 1), Tap(top >> 1, 0x26508e6d));
    assert TapLoop(top, acc, 3) == Xor(TapLoop(top, acc, 2), Tap(top >> 2, 0x1ea119fa));
    assert TapLoop(top, acc, 4) == Xor(TapLoop(top, acc, 3), Tap(top >> 3, 0x3d4233dd));
  }

  lemma StepIsLoop(chk: bv30, v: bv30)
    ensures TapLoop(chk >> 25, Xor(Low(chk), v), 5) == Step(chk, v)
  {
    hide Xor, Tap, Low, TapLoop;
    var top := chk >> 25;
    var t0, t1 := Tap(top, 0x3b6a57b2), Tap(top >> 1, 0x26508e6d);
    var t2, t3, t4 := Tap(top >> 2, 0x1ea119fa), Tap(top >> 3, 0x3d4233dd), Tap(top >> 4, 0x2a1462b3);
    var acc := Xor(Low(chk), v);
    TapLoopUnrolled(top, acc);
    XorAssociative(acc, t0, t1);
    XorAssociative(Xor(acc, Xor(t0, t1)), t2, t3);
    XorAssociative(acc, Xor(t0, t1), Xor(t2, t3));
    XorAssociative(acc, Xor(Xor(t0, t1), Xor(t2, t3)), t4);
    XorAssociative(Low(chk), v, Taps(top));
    XorCommutative(v, Taps(top));
    XorAssociative(Low(chk), Taps(top), v);
  }

  /** One round of the outer loop: shift in a symbol, then add one generator per overflow bit. */
  method ShiftIn(chk: bv30, v: bv30) returns (next: bv30)
    ensures next == Step(chk, v)
  {
    hide Step, Tap, Xor;
    var top := chk >> 25;
    next := Xor(Low(chk), v);
    for i := 0 to 5
      invariant next == TapLoop(top, Xor(Low(chk), v), i)
    {
      if (top >> i) & 1 == 1 {
        next := Xor(next, GENERATOR[i]);
      }
    }
    StepIsLoop(chk, v);
  }

  method ComputePolymod(values: seq<Symbol>) returns (chk: bv30)
    ensures chk == Polymod(values)
  {
    hide Step, Word;
    chk := 1;
    for k := 0 to |values|
      invariant PolymodFrom(chk, values[k..]) == Polymod(values)
    {
      assert values[k..][0] == values[k] && values[k..][1..] == values[k + 1..];
      chk := ShiftIn(chk, Word(values[k]));
    }
  }

  // ---- Linearity over GF(2) ----

  lemma LowLinear(a: bv30, b: bv30)
    ensures Low(Xor(a, b)) == Xor(Low(a), Low(b))
  {}

  lemma TopLinear(a: bv30, b: bv30)
    ensures Xor(a, b) >> 25 == Xor(a >> 25, b >> 25)
  {}

  lemma LowBit(a: bv30)
    ensures a & 1 == 0 || a & 1 == 1
  {}

  lemma BitSums()
    ensures Xor(0, 0) == 0 && Xor(0, 1) == 1 && Xor(1, 0) == 1 && Xor(1, 1) == 0
  {}

  /** A tap is linear in the bit it tests. */
  lemma TapLinear(x: bv30, a: bv30, b: bv30, g: bv30)
    requires x & 1 == Xor(a & 1, b & 1)
    ensures Tap(x, g) == Xor(Tap(a, g), Tap(b, g))
  {
    hide Xor;
    LowBit(a);
    LowBit(b);
    BitSums();
    XorSelf(g);
  }

  lemma BitLinear0(a: bv30, b: bv30)
    ensures Xor(a, b) & 1 == Xor(a & 1, b & 1)
  {}

  lemma BitLinear1(a: bv30, b: bv30)
    ensures (Xor(a, b) >> 1) & 1 == Xor((a >> 1) & 1, (b >> 1) & 1)
  {}

  lemma BitLinear2(a: bv30, b: bv30)
    ensures (Xor(a, b) >> 2) & 1 == Xor((a >> 2) & 1, (b >> 2) & 1)
  {}

  lemma BitLinear3(a: bv30, b: bv30)
    ensures (Xor(a, b) >> 3) & 1 == Xor((a >> 3) & 1, (b >> 3) & 1)
  {}

  lemma BitLinear4(a: bv30, b: bv30)
    ensures (Xor(a, b) >> 4) & 1 == Xor((a >> 4) & 1, (b >> 4) & 1)
  {}

  lemma TapsLowLinear(a: bv30, b: bv30)
    ensures TapsLow(Xor(a, b)) == Xor(TapsLow(a), TapsLow(b))
  {
    hide Xor, Tap;
    BitLinear0(a, b);
    BitLinear1(a, b);
    TapLinear(Xor(a, b), a, b, 0x3b6a57b2);
    TapLinear(Xor(a, b) >> 1, a >> 1, b >> 1, 0x26508e6d);
    XorPairs(Tap(a, 0x3b6a57b2), Tap(b, 0x3b6a57b2), Tap(a >> 1, 0x26508e6d), Tap(b >> 1, 0x26508e6d));
  }

  lemma TapsMidLinear(a: bv30, b: bv30)
    ensures TapsMid(Xor(a, b)) == Xor(TapsMid(a), TapsMid(b))
  {
    hide Xor, Tap;
    BitLinear2(a, b);
    BitLinear3(a, b);
    TapLinear(Xor(a, b) >> 2, a >> 2, b >> 2, 0x1ea119fa);
    TapLinear(Xor(a, b) >> 3, a >> 3, b >> 3, 0x3d4233dd);
    XorPairs(Tap(a >> 2, 0x1ea119fa), Tap(b >> 2, 0x1ea119fa), Tap(a >> 3, 0x3d4233dd), Tap(b >> 3, 0x3d4233dd));
  }

  lemma LastTapLinear(a: bv30, b: bv30)
    ensures LastTap(Xor(a, b)) == Xor(LastTap(a), LastTap(b))
  {
    hide Xor, Tap;
    BitLinear4(a, b);
    TapLinear(Xor(a, b) >> 4, a >> 4, b >> 4, 0x2a1462b3);
  }

  lemma TapsHalfLinear(a: bv30, b: bv30)
    ensures TapsHalf(Xor(a, b)) == Xor(TapsHalf(a), TapsHalf(b))
  {
    hide Xor, TapsLow, TapsMid;
    TapsLowLinear(a, b);
    TapsMidLinear(a, b);
    XorPairs(TapsLow(a), TapsLow(b), TapsMid(a), TapsMid(b));
  }

  lemma TapsLinear(a: bv30, b: bv30)
    ensures Taps(Xor(a, b)) == Xor(Taps(a), Taps(b))
  {
    hide Xor, TapsHalf, LastTap;
    TapsHalfLinear(a, b);
    LastTapLinear(a, b);
    XorPairs(TapsHalf(a), TapsHalf(b), LastTap(a), LastTap(b));
  }

  lemma ReducedLinear(a: bv30, b: bv30)
    ensures Reduced(Xor(a, b)) == Xor(Reduced(a), Reduced(b))
  {
    hide Xor, Low, Taps;
    LowLinear(a, b);
    TopLinear(a, b);
    TapsLinear(a >> 25, b >> 25);
    XorPairs(Low(a), Low(b), Taps(a >> 25), Taps(b >> 25));
  }

  lemma StepLinear(a: bv30, b: bv30, v: bv30, w: bv30)
    ensures Step(Xor(a, b), Xor(v, w)) == Xor(Step(a, v), Step(b, w))
  {
    hide Xor, Reduced;
    ReducedLinear(a, b);
    XorPairs(Reduced(a), Reduced(b), v, w);
  }

  lemma StepKernel(a: bv30)
    requires Step(a, 0) == 0
    ensures a == 0
  {}

  lemma XorSelf(a: bv30)
    ensures Xor(a, a) == 0
    ensures Xor(a, 0) == a && Xor(0, a) == a
  {}

  lemma XorCancel(a: bv30, b: bv30)
    ensures Xor(a, Xor(a, b)) == b
  {
    hide Xor;
    XorAssociative(a, a, b);
    XorSelf(a);
    XorSelf(b);
  }

  /** The kernel of the step is trivial, so no two remainders are merged by the same symbol. */
  lemma StepInjective(a: bv30, b: bv30, v: bv30)
    requires Step(a, v) == Step(b, v)
    ensures a == b
  {
    hide Xor, Step;
    StepLinear(a, b, v, v);
    XorSelf(v);
    XorSelf(Step(a, v));
    StepKernel(Xor(a, b));
    XorCancel(a, b);
    XorSelf(a);
  }

  // ---- Folding over concatenations ----

  lemma {:induction false} PolymodConcat(chk: bv30, a: seq<Symbol>, b: seq<Symbol>)
    ensures PolymodFrom(chk, a + b) == PolymodFrom(PolymodFrom(chk, a), b)
    decreases |a|
  {
    hide Step, Word;
    if a == [] {
      assert a + b == b;
    } else {
      assert (a + b)[0] == a[0] && (a + b)[1..] == a[1..] + b;
      PolymodConcat(Step(chk, Word(a[0])), a[1..], b);
    }
  }

  lemma PolymodSnoc(chk: bv30, a: seq<Symbol>, v: Symbol)
    ensures PolymodFrom(chk, a + [v]) == Step(PolymodFrom(chk, a), Word(v))
  {
    hide Step, Word;
    PolymodConcat(chk, a, [v]);
    assert [v][1..] == [];
    assert PolymodFrom(Step(PolymodFrom(chk, a), Word(v)), []) == Step(PolymodFrom(chk, a), Word(v));
  }

  /** Different remainders stay different, whatever is appended to both. */
  lemma {:induction false} PolymodInjective(a: bv30, b: bv30, values: seq<Symbol>)
    requires PolymodFrom(a, values) == PolymodFrom(b, values)
    ensures a == b
    decreases |values|
  {
    hide Step, Word;
    if values != [] {
      var v := Word(values[0]);
      PolymodInjective(Step(a, v), Step(b, v), values[1..]);
      StepInjective(a, b, v);
    }
  }

  // ---- Windows of at most six symbols ----

  /** One more base-32 digit. */
  function Push(p: bv30, c: bv30): bv30 { (p << 5) ^ c }

  /** The symbols of `w` as the digits of one remainder. */
  function Pack(w: seq<Symbol>): bv30
  {
    if w == [] then 0 else Push(Pack(w[..|w| - 1]), Word(w[|w| - 1]))
  }

  predicate Within(p: bv30, m: bv30) { p & m == p }

  function Widen(m: bv30): bv30 { (m << 5) | 0x1f }

  function Mask(n: nat): bv30
  {
    if n == 0 then 0 else Widen(Mask(n - 1))
  }

  lemma WordWithin(v: Symbol)
    ensures Within(Word(v), 0x1f)
  {}

  lemma FiveBitValue(v: Symbol)
    ensures (v as bv5) as int == v
  {}

  lemma WordInjective(v: Symbol, w: Symbol)
    requires Word(v) == Word(w)
    ensures v == w
  {
    FiveBitValue(v);
    FiveBitValue(w);
  }

  lemma PushWithin(p: bv30, m: bv30, c: bv30)
    requires Within(p, m) && Within(c, 0x1f)
    ensures Within(Push(p, c), Widen(m))
  {}

  lemma {:induction false} PackWithinMask(w: seq<Symbol>)
    ensures Within(Pack(w), Mask(|w|))
  {
    if w != [] {
      hide Word, Push, Within, Widen;
      var n := |w| - 1;
      PackWithinMask(w[..n]);
      WordWithin(w[n]);
      PushWithin(Pack(w[..n]), Mask(n), Word(w[n]));
    }
  }

  lemma FewMasks()
    ensures Mask(0) == 0 && Mask(1) == 0x1f && Mask(2) == 0x3ff && Mask(3) == 0x7fff
    ensures Mask(4) == 0xfffff && Mask(5) == 0x1ffffff
  {
    assert Mask(3) == 0x7fff;
  }

  lemma NarrowMask(p: bv30, m: bv30)
    requires Within(p, m)
    requires m == 0 || m == 0x1f || m == 0x3ff || m == 0x7fff || m == 0xfffff || m == 0x1ffffff
    ensures Within(p, 0x1ffffff)
  {}

  lemma ShortPackIsLow(w: seq<Symbol>)
    requires |w| <= 5
    ensures Within(Pack(w), 0x1ffffff)
  {
    hide Pack, Within, Mask;
    PackWithinMask(w);
    FewMasks();
    var n := |w|;
    assert n == 0 || n == 1 || n == 2 || n == 3 || n == 4 || n == 5;
    NarrowMask(Pack(w), Mask(n));
  }

  lemma NoOverflow(p: bv30)
    requires Within(p, 0x1ffffff)
    ensures p >> 25 == 0 && Low(p) == p << 5
  {}

  lemma NoTaps()
    ensures Taps(0) == 0
  {}

  lemma PushIsXor(p: bv30, c: bv30)
    ensures Push(p, c) == Xor(p << 5, c)
  {}

  lemma StepOfLow(p: bv30, c: bv30)
    requires Within(p, 0x1ffffff)
    ensures Step(p, c) == Push(p, c)
  {
    hide Xor, Low, Taps, Push, Within;
    NoOverflow(p);
    NoTaps();
    XorSelf(Low(p));
    PushIsXor(p, c);
  }

  function Zeros(n: nat): seq<Symbol> { seq(n, i => 0) }

  lemma WordOfZero()
    ensures Word(0) == 0
  {}

  /** Up to six symbols reach the remainder as plain digits on top of a run of zeros. */
  lemma {:induction false} WindowIsAdded(chk: bv30, w: seq<Symbol>)
    requires |w| <= 6
    ensures PolymodFrom(chk, w) == Xor(PolymodFrom(chk, Zeros(|w|)), Pack(w))
  {
    hide Step, Xor, Word, Push, Within;
    if w == [] {
      XorSelf(chk);
    } else {
      var n := |w| - 1;
      var init, v := w[..n], w[n];
      assert w == init + [v];
      assert Zeros(|w|) == Zeros(n) + [0];
      var z := PolymodFrom(chk, Zeros(n));
      WindowIsAdded(chk, init);
      PolymodSnoc(chk, init, v);
      PolymodSnoc(chk, Zeros(n), 0);
      WordOfZero();
      StepLinear(z, Pack(init), 0, Word(v));
      XorSelf(Word(v));
      ShortPackIsLow(init);
      StepOfLow(Pack(init), Word(v));
    }
  }

  lemma PushInjective(p: bv30, c: bv30, q: bv30, d: bv30)
    requires Within(p, 0x1ffffff) && Within(q, 0x1ffffff) && Within(c, 0x1f) && Within(d, 0x1f)
    requires Push(p, c) == Push(q, d)
    ensures p == q && c == d
  {}

  lemma {:induction false} PackInjective(w: seq<Symbol>, u: seq<Symbol>)
    requires |w| == |u| <= 6
    requires Pack(w) == Pack(u)
    ensures w == u
  {
    if w != [] {
      hide Word, Push, Within;
      var n := |w| - 1;
      ShortPackIsLow(w[..n]);
      ShortPackIsLow(u[..n]);
      WordWithin(w[n]);
      WordWithin(u[n]);
      PushInjective(Pack(w[..n]), Word(w[n]), Pack(u[..n]), Word(u[n]));
      WordInjective(w[n], u[n]);
      PackInjective(w[..n], u[..n]);
      assert w == w[..n] + [w[n]] && u == u[..n] + [u[n]];
    }
  }

  // ---- Burst detection ----

  /** Two words agree outside the six positions that start at `at`. */
  ghost predicate DifferInWindow(x: seq<Symbol>, y: seq<Symbol>, at: nat)
  {
    |x| == |y| && forall i :: 0 <= i < |x| && !(at <= i < at + 6) ==> x[i] == y[i]
  }

  /** Different windows take one remainder to different remainders. */
  lemma WindowInjective(chk: bv30, w: seq<Symbol>, u: seq<Symbol>)
    requires |w| == |u| <= 6
    requires PolymodFrom(chk, w) == PolymodFrom(chk, u)
    ensures w == u
  {
    hide Xor, Pack, PolymodFrom;
    WindowIsAdded(chk, w);
    WindowIsAdded(chk, u);
    var z := PolymodFrom(chk, Zeros(|w|));
    XorCancel(z, Pack(w));
    XorCancel(z, Pack(u));
    PackInjective(w, u);
  }

  /** Words of any length with equal remainders cannot differ in one window of six symbols only. */
  lemma BurstDetection(chk: bv30, x: seq<Symbol>, y: seq<Symbol>, at: nat)
    requires DifferInWindow(x, y, at)
    requires PolymodFrom(chk, x) == PolymodFrom(chk, y)
    ensures x == y
  {
    hide PolymodFrom;
    if at < |x| {
      var stop := if at + 6 < |x| then at + 6 else |x|;
      var head, tail := x[..at], x[stop..];
      var wx, wy := x[at..stop], y[at..stop];
      assert head == y[..at] && tail == y[stop..];
      assert x == head + (wx + tail) && y == head + (wy + tail);
      var s := PolymodFrom(chk, head);
      PolymodConcat(chk, head, wx + tail);
      PolymodConcat(chk, head, wy + tail);
      PolymodConcat(s, wx, tail);
      PolymodConcat(s, wy, tail);
      PolymodInjective(PolymodFrom(s, wx), PolymodFrom(s, wy), tail);
      WindowInjective(s, wx, wy);
    }
  }

  // ---- Checksums ----

  function Digit(mod: bv30, shift: bv5): (s: Symbol)
    requires shift <= 25
  {
    (((mod >> shift) & 31) as bv5) as int
  }

  /** The remainder cut into six symbols, most significant first. */
  function Unpack(mod: bv30): (c: seq<Symbol>)
    ensures |c| == 6
  {
    [Digit(mod, 25), Digit(mod, 20), Digit(mod, 15), Digit(mod, 10), Digit(mod, 5), Digit(mod, 0)]
  }

  lemma DigitBits(mod: bv30, shift: bv5)
    requires shift <= 25
    ensures Word(Digit(mod, shift)) == (mod >> shift) & 31
  {
    hide Word;
    MaskedBelow(mod >> shift);
    WordOfNarrow((mod >> shift) & 31);
  }

  lemma MaskedBelow(a: bv30)
    ensures a & 31 < 32
  {}

  lemma WordOfNarrow(a: bv30)
    requires a < 32
    ensures Word((a as bv5) as int) == a
  {}

  lemma DigitsJoin(m: bv30)
    ensures Push(Push(Push(Push(Push(Push(0, (m >> 25) & 31), (m >> 20) & 31), (m >> 15) & 31),
                            (m >> 10) & 31), (m >> 5) & 31), (m >> 0) & 31) == m
  {}

  lemma PackSix(c0: Symbol, c1: Symbol, c2: Symbol, c3: Symbol, c4: Symbol, c5: Symbol)
    ensures Pack([c0, c1, c2, c3, c4, c5]) ==
            Push(Push(Push(Push(Push(Push(0, Word(c0)), Word(c1)), Word(c2)), Word(c3)), Word(c4)), Word(c5))
  {
    hide Push, Word;
    assert [c0, c1, c2, c3, c4, c5][..5] == [c0, c1, c2, c3, c4];
    assert [c0, c1, c2, c3, c4][..4] == [c0, c1, c2, c3];
    assert [c0, c1, c2, c3][..3] == [c0, c1, c2];
    assert [c0, c1, c2][..2] == [c0, c1];
    assert [c0, c1][..1] == [c0];
    assert [c0][..0] == [];
    assert Pack([c0]) == Push(0, Word(c0));
    assert Pack([c0, c1]) == Push(Pack([c0]), Word(c1));
    assert Pack([c0, c1, c2]) == Push(Pack([c0, c1]), Word(c2));
    assert Pack([c0, c1, c2, c3]) == Push(Pack([c0, c1, c2]), Word(c3));
    assert Pack([c0, c1, c2, c3, c4]) == Push(Pack([c0, c1, c2, c3]), Word(c4));
  }

  lemma PackUnpack(mod: bv30)
    ensures Pack(Unpack(mod)) == mod
  {
    hide Push, Word, Digit, Pack;
    PackSix(Digit(mod, 25), Digit(mod, 20), Digit(mod, 15), Digit(mod, 10), Digit(mod, 5), Digit(mod, 0));
    DigitBits(mod, 25);
    DigitBits(mod, 20);
    DigitBits(mod, 15);
    DigitBits(mod, 10);
    DigitBits(mod, 5);
    DigitBits(mod, 0);
    DigitsJoin(mod);
  }

  /** The checksum that the encoders append so that the remainder becomes `constant`. */
  function Create(values: seq<Symbol>, constant: bv30): (c: seq<Symbol>)
    ensures |c| == 6
  {
    Unpack(Xor(Polymod(values + Zeros(6)), constant))
  }

  /** Exactly one six-symbol suffix passes verification, and it is the one created. */
  lemma ChecksumUnique(values: seq<Symbol>, c: seq<Symbol>, constant: bv30)
    requires |c| == 6
    ensures Polymod(values + c) == constant <==> c == Create(values, constant)
  {
    hide Xor, Pack, Unpack, PolymodFrom;
    var s := PolymodFrom(1, values);
    PolymodConcat(1, values, c);
    PolymodConcat(1, values, Zeros(6));
    var z := PolymodFrom(s, Zeros(6));
    WindowIsAdded(s, c);
    var wanted := Create(values, constant);
    PackUnpack(Xor(z, constant));
    XorCancel(z, Pack(c));
    XorCancel(z, constant);
    if Pack(c) == Pack(wanted) {
      PackInjective(c, wanted);
    }
  }
}
