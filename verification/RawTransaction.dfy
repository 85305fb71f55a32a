/** Parsing of raw MVC transactions: the parser accepts exactly the layouts of transactions,
    with any admissible length prefixes, and returns the fields laid out. */
module RawTransaction {
  import opened Wrappers

  type Byte = x: int | 0 <= x < 256

  type Bytes = seq<Byte>

  datatype TxIn = TxIn(txid: Bytes, vout: Bytes, scriptSig: Bytes, sequence: Bytes)

  datatype TxOut = TxOut(amount: Bytes, script: Bytes)

  datatype Tx = Tx(version: Bytes, inputs: seq<TxIn>, outputs: seq<TxOut>, lockTime: Bytes)

  /** A parse succeeds, is rejected with an error, or panics: a length prefix takes the index past the range of
      a machine integer, the sum wraps around to a negative number, passes the length check, and bounds a slice. */
  datatype Outcome<+T> = Parsed(value: T) | Rejected | Panics

  const MAX_INT: int := 0x7fff_ffff_ffff_ffff

  /** Buffers are far shorter than the range of a machine integer. */
  predicate Fits(raw: Bytes) { |raw| <= MAX_INT / 2 }

  // ---- Length prefixes ----

  function LittleEndian(b: Bytes): nat
  {
    if b == [] then 0 else b[0] + 256 * LittleEndian(b[1..])
  }

  /** Value and size of the prefix at the front of `buf`. */
  function DecodeVarInt(buf: Bytes): (r: Option<(nat, nat)>)
    ensures r.Some? ==> 1 <= r.value.1 <= |buf| && r.value.0 <= MAX_INT
  {
    if buf == [] then None
    else if buf[0] == 0xfd then
      if |buf| < 3 then None else Small(buf[1..3])
    else if buf[0] == 0xfe then
      if |buf| < 5 then None else Small(buf[1..5])
    else if buf[0] == 0xff then
      if |buf| < 9 || LittleEndian(buf[1..9]) > MAX_INT then None else Some((LittleEndian(buf[1..9]), 9))
    else Some((buf[0], 1))
  }

  function Small(b: Bytes): (r: Option<(nat, nat)>)
    requires |b| == 2 || |b| == 4
    ensures r == Some((LittleEndian(b), |b| + 1)) && r.value.0 <= MAX_INT
  {
    LittleEndianBound(b);
    assert Pow256(2) == 0x1_0000 && Pow256(4) == 0x1_0000_0000;
    Some((LittleEndian(b), |b| + 1))
  }

  function Pow256(k: nat): nat { if k == 0 then 1 else 256 * Pow256(k - 1) }

  lemma {:induction false} LittleEndianBound(b: Bytes)
    ensures LittleEndian(b) < Pow256(|b|)
  {
    if b != [] {
      LittleEndianBound(b[1..]);
    }
  }

  /** Two, four or eight bytes after a marker, lowest first; a smaller first byte is the value itself. */
  lemma PrefixRead(buf: Bytes)
    ensures |buf| >= 1 && buf[0] < 0xfd ==> DecodeVarInt(buf) == Some((buf[0], 1))
    ensures |buf| >= 3 && buf[0] == 0xfd ==> DecodeVarInt(buf) == Some((buf[1] as int + 0x100 * (buf[2] as int), 3))
    ensures |buf| >= 5 && buf[0] == 0xfe ==>
              DecodeVarInt(buf) == Some((buf[1] as int + 0x100 * (buf[2] as int) + 0x1_0000 * (buf[3] as int)
                                         + 0x100_0000 * (buf[4] as int), 5))
    ensures |buf| >= 9 && buf[0] == 0xff ==>
              var v := buf[1] as int + 0x100 * (buf[2] as int) + 0x1_0000 * (buf[3] as int) + 0x100_0000 * (buf[4] as int)
                       + 0x1_0000_0000 * (buf[5] as int) + 0x100_0000_0000 * (buf[6] as int)
                       + 0x1_0000_0000_0000 * (buf[7] as int) + 0x100_0000_0000_0000 * (buf[8] as int);
              DecodeVarInt(buf) == if v > 0x7fff_ffff_ffff_ffff then None else Some((v, 9))
    ensures |buf| == 0 || (buf[0] == 0xfd && |buf| < 3) || (buf[0] == 0xfe && |buf| < 5) || (buf[0] == 0xff && |buf| < 9) ==>
              DecodeVarInt(buf) == None
  {
    hide LittleEndian;
    if |buf| >= 3 {
      TwoBytes(buf[1..3]);
    }
    if |buf| >= 5 {
      FourBytes(buf[1..5]);
    }
    if |buf| >= 9 {
      EightBytes(buf[1..9]);
    }
  }

  lemma TwoBytes(b: Bytes)
    requires |b| == 2
    ensures LittleEndian(b) == b[0] as int + 0x100 * (b[1] as int)
  {
    assert b[1..][1..] == [];
    assert LittleEndian(b[1..]) == b[1] as int + 256 * LittleEndian(b[1..][1..]);
  }

  lemma TwoMore(b: Bytes)
    requires |b| >= 2
    ensures LittleEndian(b) == b[0] as int + 0x100 * (b[1] as int) + 0x1_0000 * LittleEndian(b[2..])
  {
    assert b[1..][1..] == b[2..];
  }

  lemma FourBytes(b: Bytes)
    requires |b| == 4
    ensures LittleEndian(b) == b[0] as int + 0x100 * (b[1] as int) + 0x1_0000 * (b[2] as int) + 0x100_0000 * (b[3] as int)
  {
    hide LittleEndian;
    TwoMore(b);
    TwoBytes(b[2..]);
  }

  lemma EightBytes(b: Bytes)
    requires |b| == 8
    ensures LittleEndian(b) ==
            b[0] as int + 0x100 * (b[1] as int) + 0x1_0000 * (b[2] as int) + 0x100_0000 * (b[3] as int)
            + 0x1_0000_0000 * (b[4] as int) + 0x100_0000_0000 * (b[5] as int) + 0x1_0000_0000_0000 * (b[6] as int)
            + 0x100_0000_0000_0000 * (b[7] as int)
  {
    hide LittleEndian;
    TwoMore(b);
    TwoMore(b[2..]);
    assert b[2..][2..] == b[4..];
    FourBytes(b[4..]);
  }

  // ---- The parser ----

  function ParseInput(raw: Bytes, index: nat): (r: Outcome<(TxIn, nat)>)
    requires Fits(raw) && index <= |raw|
    ensures r.Parsed? ==> index <= r.value.1 <= |raw|
  {
    if index + 36 > |raw| then Rejected
    else
      match DecodeVarInt(raw[index + 36..])
      case None => Rejected
      case Some((len, size)) =>
        var at := index + 36 + size;
        if at + len + 4 > MAX_INT then Panics
        else if at + len + 4 > |raw| then Rejected
        else Parsed((TxIn(raw[index..index + 32], raw[index + 32..index + 36], raw[at..at + len],
                      raw[at + len..at + len + 4]), at + len + 4))
  }

  function ParseInputs(raw: Bytes, index: nat, n: nat): (r: Outcome<(seq<TxIn>, nat)>)
    requires Fits(raw) && index <= |raw|
    ensures r.Parsed? ==> index <= r.value.1 <= |raw|
    decreases n
  {
    if n == 0 then Parsed(([], index))
    else
      match ParseInput(raw, index)
      case Rejected => Rejected
      case Panics => Panics
      case Parsed((input, next)) =>
        match ParseInputs(raw, next, n - 1)
        case Rejected => Rejected
        case Panics => Panics
        case Parsed((inputs, end)) => Parsed(([input] + inputs, end))
  }

  function ParseOutput(raw: Bytes, index: nat): (r: Outcome<(TxOut, nat)>)
    requires Fits(raw) && index <= |raw|
    ensures r.Parsed? ==> index <= r.value.1 <= |raw|
  {
    if index + 8 > |raw| then Rejected
    else
      match DecodeVarInt(raw[index + 8..])
      case None => Rejected
      case Some((len, size)) =>
        var at := index + 8 + size;
        if at + len > MAX_INT then Panics
        else if at + len > |raw| then Rejected
        else Parsed((TxOut(raw[index..index + 8], raw[at..at + len]), at + len))
  }

  function ParseOutputs(raw: Bytes, index: nat, n: nat): (r: Outcome<(seq<TxOut>, nat)>)
    requires Fits(raw) && index <= |raw|
    ensures r.Parsed? ==> index <= r.value.1 <= |raw|
    decreases n
  {
    if n == 0 then Parsed(([], index))
    else
      match ParseOutput(raw, index)
      case Rejected => Rejected
      case Panics => Panics
      case Parsed((output, next)) =>
        match ParseOutputs(raw, next, n - 1)
        case Rejected => Rejected
        case Panics => Panics
        case Parsed((outputs, end)) => Parsed(([output] + outputs, end))
  }

  function Parse(raw: Bytes): Outcome<Tx>
    requires Fits(raw)
  {
    if |raw| < 10 then Rejected
    else
      match DecodeVarInt(raw[4..])
      case None => Rejected
      case Some((inCount, inSize)) =>
        if inCount == 0 then Rejected
        else
          match ParseInputs(raw, 4 + inSize, inCount)
          case Rejected => Rejected
          case Panics => Panics
          case Parsed((inputs, index)) => ParseRest(raw, inputs, index)
  }

  function ParseRest(raw: Bytes, inputs: seq<TxIn>, index: nat): Outcome<Tx>
    requires Fits(raw) && 4 <= index <= |raw|
  {
    match DecodeVarInt(raw[index..])
    case None => Rejected
    case Some((outCount, outSize)) =>
      if outCount == 0 then Rejected
      else
        match ParseOutputs(raw, index + outSize, outCount)
        case Rejected => Rejected
        case Panics => Panics
        case Parsed((outputs, end)) =>
          if end + 4 != |raw| then Rejected
          else Parsed(Tx(raw[..4], inputs, outputs, raw[end..]))
  }

  // ---- Layouts ----

  /** The length prefixes of a serialised transaction; each may be longer than needed. */
  datatype Layout = Layout(inCount: Bytes, inLens: seq<Bytes>, outCount: Bytes, outLens: seq<Bytes>)

  predicate IsPrefix(b: Bytes, n: nat) { DecodeVarInt(b) == Some((n, |b|)) }

  predicate InputFits(x: TxIn, len: Bytes)
  {
    |x.txid| == 32 && |x.vout| == 4 && |x.sequence| == 4 && IsPrefix(len, |x.scriptSig|)
  }

  predicate OutputFits(x: TxOut, len: Bytes) { |x.amount| == 8 && IsPrefix(len, |x.script|) }

  predicate InputsFit(xs: seq<TxIn>, lens: seq<Bytes>)
  {
    |xs| == |lens| && forall i :: 0 <= i < |xs| ==> InputFits(xs[i], lens[i])
  }

  predicate OutputsFit(xs: seq<TxOut>, lens: seq<Bytes>)
  {
    |xs| == |lens| && forall i :: 0 <= i < |xs| ==> OutputFits(xs[i], lens[i])
  }

  function InputBytes(x: TxIn, len: Bytes): Bytes { x.txid + x.vout + len + x.scriptSig + x.sequence }

  function OutputBytes(x: TxOut, len: Bytes): Bytes { x.amount + len + x.script }

  function InputsBytes(xs: seq<TxIn>, lens: seq<Bytes>): Bytes
    requires |xs| == |lens|
  {
    if xs == [] then [] else InputBytes(xs[0], lens[0]) + InputsBytes(xs[1..], lens[1..])
  }

  function OutputsBytes(xs: seq<TxOut>, lens: seq<Bytes>): Bytes
    requires |xs| == |lens|
  {
    if xs == [] then [] else OutputBytes(xs[0], lens[0]) + OutputsBytes(xs[1..], lens[1..])
  }

  /** A transaction with at least one input and one output, fields of the fixed widths, and prefixes
      that state the lengths that follow them. */
  predicate Admissible(tx: Tx, l: Layout)
  {
    && |tx.version| == 4 && |tx.lockTime| == 4
    && tx.inputs != [] && InputsFit(tx.inputs, l.inLens) && IsPrefix(l.inCount, |tx.inputs|)
    && tx.outputs != [] && OutputsFit(tx.outputs, l.outLens) && IsPrefix(l.outCount, |tx.outputs|)
  }

  /** The bytes of `tx` under the prefixes of `l`, fields in order. */
  function Assemble(tx: Tx, l: Layout): Bytes
    requires Admissible(tx, l)
  {
    tx.version + l.inCount + InputsBytes(tx.inputs, l.inLens)
    + l.outCount + OutputsBytes(tx.outputs, l.outLens) + tx.lockTime
  }

  /** `raw` holds the piece `b` at `index`. */
  predicate At(raw: Bytes, index: nat, b: Bytes)
  {
    index + |b| <= |raw| && raw[index..index + |b|] == b
  }

  /** A piece made of two pieces lies there exactly when they lie one after the other. */
  lemma AtConcat(raw: Bytes, index: nat, a: Bytes, b: Bytes)
    ensures At(raw, index, a + b) <==> At(raw, index, a) && At(raw, index + |a|, b)
  {
    if index + |a| + |b| <= |raw| {
      var whole := raw[index..index + |a + b|];
      assert whole == raw[index..index + |a|] + raw[index + |a|..index + |a| + |b|];
      assert (a + b)[..|a|] == a && (a + b)[|a|..] == b;
      assert whole[..|a|] == raw[index..index + |a|] && whole[|a|..] == raw[index + |a|..index + |a| + |b|];
    }
  }

  // ---- Prefixes at a position ----

  lemma SliceOfTake(buf: Bytes, k: nat, i: nat, j: nat)
    requires i <= j <= k <= |buf|
    ensures buf[..k][i..j] == buf[i..j]
  {}

  /** Decoding looks at the prefix alone: it reads one of size |b| from the front of every buffer that
      starts with it, and the bytes it consumed are such a prefix. */
  lemma DecodeLocal(buf: Bytes, n: nat, k: nat)
    ensures DecodeVarInt(buf) == Some((n, k)) <==> k <= |buf| && IsPrefix(buf[..k], n)
  {
    hide LittleEndian;
    if buf != [] {
      var size := if buf[0] == 0xfd then 3 else if buf[0] == 0xfe then 5 else if buf[0] == 0xff then 9 else 1;
      if size <= |buf| {
        SliceOfTake(buf, size, 1, size);
      }
      if 0 < k <= |buf| {
        assert buf[..k][0] == buf[0];
        if size <= k {
          SliceOfTake(buf, k, 1, size);
        }
      }
    }
  }

  lemma DecodeAt(raw: Bytes, index: nat, b: Bytes, n: nat)
    requires index <= |raw| && IsPrefix(b, n) && At(raw, index, b)
    ensures DecodeVarInt(raw[index..]) == Some((n, |b|))
  {
    hide DecodeVarInt;
    assert raw[index..][..|b|] == raw[index..index + |b|];
    DecodeLocal(raw[index..], n, |b|);
  }

  lemma DecodedAt(raw: Bytes, index: nat, n: nat, k: nat) returns (b: Bytes)
    requires index <= |raw| && DecodeVarInt(raw[index..]) == Some((n, k))
    ensures |b| == k && index + k <= |raw| && IsPrefix(b, n) && At(raw, index, b)
  {
    hide DecodeVarInt;
    DecodeLocal(raw[index..], n, k);
    b := raw[index..index + k];
    assert raw[index..][..k] == b;
  }

  // ---- One input, one output ----

  lemma InputBytesAt(raw: Bytes, index: nat, x: TxIn, len: Bytes)
    requires |x.txid| == 32 && |x.vout| == 4
    ensures At(raw, index, InputBytes(x, len)) <==>
            && At(raw, index, x.txid) && At(raw, index + 32, x.vout) && At(raw, index + 36, len)
            && At(raw, index + 36 + |len|, x.scriptSig)
            && At(raw, index + 36 + |len| + |x.scriptSig|, x.sequence)
  {
    hide At;
    AtConcat(raw, index, x.txid, x.vout);
    AtConcat(raw, index, x.txid + x.vout, len);
    AtConcat(raw, index, x.txid + x.vout + len, x.scriptSig);
    AtConcat(raw, index, x.txid + x.vout + len + x.scriptSig, x.sequence);
  }

  lemma InputParsed(raw: Bytes, index: nat, x: TxIn, len: Bytes)
    requires Fits(raw) && index <= |raw| && InputFits(x, len) && At(raw, index, InputBytes(x, len))
    ensures ParseInput(raw, index) == Parsed((x, index + |InputBytes(x, len)|))
  {
    hide DecodeVarInt;
    InputBytesAt(raw, index, x, len);
    DecodeAt(raw, index + 36, len, |x.scriptSig|);
  }

  lemma ParsedInput(raw: Bytes, index: nat, x: TxIn, end: nat) returns (len: Bytes)
    requires Fits(raw) && index <= |raw| && ParseInput(raw, index) == Parsed((x, end))
    ensures InputFits(x, len) && At(raw, index, InputBytes(x, len)) && end == index + |InputBytes(x, len)|
  {
    hide DecodeVarInt;
    var (n, size) := DecodeVarInt(raw[index + 36..]).value;
    len := DecodedAt(raw, index + 36, n, size);
    InputBytesAt(raw, index, x, len);
  }

  lemma OutputBytesAt(raw: Bytes, index: nat, x: TxOut, len: Bytes)
    requires |x.amount| == 8
    ensures At(raw, index, OutputBytes(x, len)) <==>
            && At(raw, index, x.amount) && At(raw, index + 8, len) && At(raw, index + 8 + |len|, x.script)
  {
    hide At;
    AtConcat(raw, index, x.amount, len);
    AtConcat(raw, index, x.amount + len, x.script);
  }

  lemma OutputParsed(raw: Bytes, index: nat, x: TxOut, len: Bytes)
    requires Fits(raw) && index <= |raw| && OutputFits(x, len) && At(raw, index, OutputBytes(x, len))
    ensures ParseOutput(raw, index) == Parsed((x, index + |OutputBytes(x, len)|))
  {
    hide DecodeVarInt;
    OutputBytesAt(raw, index, x, len);
    DecodeAt(raw, index + 8, len, |x.script|);
  }

  lemma ParsedOutput(raw: Bytes, index: nat, x: TxOut, end: nat) returns (len: Bytes)
    requires Fits(raw) && index <= |raw| && ParseOutput(raw, index) == Parsed((x, end))
    ensures OutputFits(x, len) && At(raw, index, OutputBytes(x, len)) && end == index + |OutputBytes(x, len)|
  {
    hide DecodeVarInt;
    var (n, size) := DecodeVarInt(raw[index + 8..]).value;
    len := DecodedAt(raw, index + 8, n, size);
    OutputBytesAt(raw, index, x, len);
  }

  // ---- Lists ----

  lemma {:induction false} InputsParsed(raw: Bytes, index: nat, xs: seq<TxIn>, lens: seq<Bytes>)
    requires Fits(raw) && index <= |raw| && InputsFit(xs, lens) && At(raw, index, InputsBytes(xs, lens))
    ensures ParseInputs(raw, index, |xs|) == Parsed((xs, index + |InputsBytes(xs, lens)|))
    decreases |xs|
  {
    hide InputBytes, InputFits, ParseInput;
    if xs != [] {
      var here := InputBytes(xs[0], lens[0]);
      AtConcat(raw, index, here, InputsBytes(xs[1..], lens[1..]));
      InputParsed(raw, index, xs[0], lens[0]);
      InputsParsed(raw, index + |here|, xs[1..], lens[1..]);
      assert [xs[0]] + xs[1..] == xs;
    }
  }

  lemma {:induction false} ParsedInputs(raw: Bytes, index: nat, n: nat, xs: seq<TxIn>, end: nat)
    returns (lens: seq<Bytes>)
    requires Fits(raw) && index <= |raw| && ParseInputs(raw, index, n) == Parsed((xs, end))
    ensures |xs| == n && InputsFit(xs, lens)
    ensures At(raw, index, InputsBytes(xs, lens)) && end == index + |InputsBytes(xs, lens)|
    decreases n
  {
    hide InputBytes, InputFits, ParseInput;
    lens := [];
    if n > 0 {
      var (x, next) := ParseInput(raw, index).value;
      var len := ParsedInput(raw, index, x, next);
      var rest := ParsedInputs(raw, next, n - 1, xs[1..], end);
      lens := [len] + rest;
      assert lens[1..] == rest;
      AtConcat(raw, index, InputBytes(x, len), InputsBytes(xs[1..], rest));
    }
  }

  lemma {:induction false} OutputsParsed(raw: Bytes, index: nat, xs: seq<TxOut>, lens: seq<Bytes>)
    requires Fits(raw) && index <= |raw| && OutputsFit(xs, lens) && At(raw, index, OutputsBytes(xs, lens))
    ensures ParseOutputs(raw, index, |xs|) == Parsed((xs, index + |OutputsBytes(xs, lens)|))
    decreases |xs|
  {
    hide OutputBytes, OutputFits, ParseOutput;
    if xs != [] {
      var here := OutputBytes(xs[0], lens[0]);
      AtConcat(raw, index, here, OutputsBytes(xs[1..], lens[1..]));
      OutputParsed(raw, index, xs[0], lens[0]);
      OutputsParsed(raw, index + |here|, xs[1..], lens[1..]);
      assert [xs[0]] + xs[1..] == xs;
    }
  }

  lemma {:induction false} ParsedOutputs(raw: Bytes, index: nat, n: nat, xs: seq<TxOut>, end: nat)
    returns (lens: seq<Bytes>)
    requires Fits(raw) && index <= |raw| && ParseOutputs(raw, index, n) == Parsed((xs, end))
    ensures |xs| == n && OutputsFit(xs, lens)
    ensures At(raw, index, OutputsBytes(xs, lens)) && end == index + |OutputsBytes(xs, lens)|
    decreases n
  {
    hide OutputBytes, OutputFits, ParseOutput;
    lens := [];
    if n > 0 {
      var (x, next) := ParseOutput(raw, index).value;
      var len := ParsedOutput(raw, index, x, next);
      var rest := ParsedOutputs(raw, next, n - 1, xs[1..], end);
      lens := [len] + rest;
      assert lens[1..] == rest;
      AtConcat(raw, index, OutputBytes(x, len), OutputsBytes(xs[1..], rest));
    }
  }

  // ---- The whole transaction ----

  /** Where each part of an assembled transaction lies. */
  lemma PartsAt(raw: Bytes, tx: Tx, l: Layout)
    requires Admissible(tx, l)
    ensures var outs := 4 + |l.inCount| + |InputsBytes(tx.inputs, l.inLens)|;
            var end := outs + |l.outCount| + |OutputsBytes(tx.outputs, l.outLens)|;
            At(raw, 0, Assemble(tx, l)) <==>
            && At(raw, 0, tx.version) && At(raw, 4, l.inCount)
            && At(raw, 4 + |l.inCount|, InputsBytes(tx.inputs, l.inLens))
            && At(raw, outs, l.outCount) && At(raw, outs + |l.outCount|, OutputsBytes(tx.outputs, l.outLens))
            && At(raw, end, tx.lockTime)
  {
    hide At, InputsFit, OutputsFit, IsPrefix, InputsBytes, OutputsBytes;
    SameLengths(tx, l);
    var a := InputsBytes(tx.inputs, l.inLens);
    var b := OutputsBytes(tx.outputs, l.outLens);
    AtConcat(raw, 0, tx.version, l.inCount);
    AtConcat(raw, 0, tx.version + l.inCount, a);
    AtConcat(raw, 0, tx.version + l.inCount + a, l.outCount);
    AtConcat(raw, 0, tx.version + l.inCount + a + l.outCount, b);
    AtConcat(raw, 0, tx.version + l.inCount + a + l.outCount + b, tx.lockTime);
  }

  /** Every layout of a transaction parses back to its fields. */
  lemma ParseAssembled(tx: Tx, l: Layout)
    requires Admissible(tx, l) && Fits(Assemble(tx, l))
    ensures Parse(Assemble(tx, l)) == Parsed(tx)
  {
    hide DecodeVarInt, InputsFit, OutputsFit, InputsBytes, OutputsBytes, ParseInputs, ParseOutputs;
    SameLengths(tx, l);
    var raw := Assemble(tx, l);
    assert At(raw, 0, raw);
    PartsAt(raw, tx, l);
    var outs := 4 + |l.inCount| + |InputsBytes(tx.inputs, l.inLens)|;
    PrefixNotEmpty(l.inCount, |tx.inputs|);
    PrefixNotEmpty(l.outCount, |tx.outputs|);
    DecodeAt(raw, 4, l.inCount, |tx.inputs|);
    InputsParsed(raw, 4 + |l.inCount|, tx.inputs, l.inLens);
    DecodeAt(raw, outs, l.outCount, |tx.outputs|);
    OutputsParsed(raw, outs + |l.outCount|, tx.outputs, l.outLens);
  }

  lemma PrefixNotEmpty(b: Bytes, n: nat)
    requires IsPrefix(b, n)
    ensures b != []
  {}

  /** What the parser accepts is a layout of what it returns, with no byte left over. */
  lemma ParsedIsAssembled(raw: Bytes, tx: Tx) returns (l: Layout)
    requires Fits(raw) && Parse(raw) == Parsed(tx)
    ensures Admissible(tx, l) && raw == Assemble(tx, l)
  {
    hide DecodeVarInt, InputsFit, OutputsFit, InputsBytes, OutputsBytes, ParseInputs, ParseOutputs, IsPrefix;
    var (inCount, inSize) := DecodeVarInt(raw[4..]).value;
    var inPrefix := DecodedAt(raw, 4, inCount, inSize);
    var (inputs, index) := ParseInputs(raw, 4 + inSize, inCount).value;
    var inLens := ParsedInputs(raw, 4 + inSize, inCount, inputs, index);
    var (outCount, outSize) := DecodeVarInt(raw[index..]).value;
    var outPrefix := DecodedAt(raw, index, outCount, outSize);
    var (outputs, end) := ParseOutputs(raw, index + outSize, outCount).value;
    var outLens := ParsedOutputs(raw, index + outSize, outCount, outputs, end);
    l := Layout(inPrefix, inLens, outPrefix, outLens);
    SameLengths(tx, l);
    assert At(raw, 0, tx.version) && At(raw, end, tx.lockTime);
    PartsAt(raw, tx, l);
    assert |Assemble(tx, l)| == |raw|;
    assert raw[0..|raw|] == raw;
  }

  lemma SameLengths(tx: Tx, l: Layout)
    requires InputsFit(tx.inputs, l.inLens) && OutputsFit(tx.outputs, l.outLens)
    ensures |tx.inputs| == |l.inLens| && |tx.outputs| == |l.outLens|
  {}

  /** The parser accepts exactly the layouts of `tx`, and never anything else with that result. */
  lemma ParseIff(raw: Bytes, tx: Tx)
    requires Fits(raw)
    ensures Parse(raw) == Parsed(tx) <==> exists l: Layout :: Admissible(tx, l) && raw == Assemble(tx, l)
  {
    hide *;
    if Parse(raw) == Parsed(tx) {
      var l := ParsedIsAssembled(raw, tx);
    }
    if l: Layout :| Admissible(tx, l) && raw == Assemble(tx, l) {
      ParseAssembled(tx, l);
    }
  }

  /** No byte string is a layout of two different transactions. */
  lemma LayoutsUnambiguous(tx: Tx, l: Layout, other: Tx, k: Layout)
    requires Admissible(tx, l) && Admissible(other, k) && Fits(Assemble(tx, l))
    requires Assemble(tx, l) == Assemble(other, k)
    ensures tx == other
  {
    hide *;
    ParseAssembled(tx, l);
    ParseAssembled(other, k);
  }

  // ---- When the parser panics ----

  lemma InputPanics(raw: Bytes, index: nat)
    requires Fits(raw) && index <= |raw|
    ensures ParseInput(raw, index) == Panics <==>
            index + 36 <= |raw|
            && exists b, n :: IsPrefix(b, n) && At(raw, index + 36, b) && index + 36 + |b| + n + 4 > MAX_INT
  {
    hide DecodeVarInt, IsPrefix;
    if index + 36 <= |raw| {
      PrefixAt(raw, index + 36);
    }
  }

  lemma OutputPanics(raw: Bytes, index: nat)
    requires Fits(raw) && index <= |raw|
    ensures ParseOutput(raw, index) == Panics <==>
            index + 8 <= |raw|
            && exists b, n :: IsPrefix(b, n) && At(raw, index + 8, b) && index + 8 + |b| + n > MAX_INT
  {
    hide DecodeVarInt, IsPrefix;
    if index + 8 <= |raw| {
      PrefixAt(raw, index + 8);
    }
  }

  /** The prefix read at a position is the only one that lies there. */
  lemma PrefixAt(raw: Bytes, index: nat)
    requires index <= |raw|
    ensures var r := DecodeVarInt(raw[index..]);
            && (forall b, n: nat :: IsPrefix(b, n) && At(raw, index, b) ==> r == Some((n, |b|)))
            && (r.Some? ==> exists b :: IsPrefix(b, r.value.0) && At(raw, index, b) && |b| == r.value.1)
  {
    hide DecodeVarInt, IsPrefix, At;
    var r := DecodeVarInt(raw[index..]);
    forall b, n: nat | IsPrefix(b, n) && At(raw, index, b)
      ensures r == Some((n, |b|))
    {
      DecodeAt(raw, index, b, n);
    }
    if r.Some? {
      var b := DecodedAt(raw, index, r.value.0, r.value.1);
    }
  }

  lemma {:induction false} InputsPanicAfter(raw: Bytes, index: nat, n: nat, xs: seq<TxIn>, lens: seq<Bytes>)
    requires Fits(raw) && index <= |raw| && |xs| < n && InputsFit(xs, lens) && At(raw, index, InputsBytes(xs, lens))
    requires ParseInput(raw, index + |InputsBytes(xs, lens)|) == Panics
    ensures ParseInputs(raw, index, n) == Panics
    decreases |xs|
  {
    hide InputBytes, InputFits, ParseInput;
    if xs != [] {
      var here := InputBytes(xs[0], lens[0]);
      AtConcat(raw, index, here, InputsBytes(xs[1..], lens[1..]));
      InputParsed(raw, index, xs[0], lens[0]);
      InputsPanicAfter(raw, index + |here|, n - 1, xs[1..], lens[1..]);
    }
  }

  lemma {:induction false} PanicAfterInputs(raw: Bytes, index: nat, n: nat) returns (xs: seq<TxIn>, lens: seq<Bytes>)
    requires Fits(raw) && index <= |raw| && ParseInputs(raw, index, n) == Panics
    ensures |xs| < n && InputsFit(xs, lens) && At(raw, index, InputsBytes(xs, lens))
    ensures ParseInput(raw, index + |InputsBytes(xs, lens)|) == Panics
    decreases n
  {
    hide InputBytes, InputFits, ParseInput;
    xs, lens := [], [];
    var first := ParseInput(raw, index);
    if first.Parsed? {
      var (x, next) := first.value;
      var len := ParsedInput(raw, index, x, next);
      var ys, rest := PanicAfterInputs(raw, next, n - 1);
      xs, lens := [x] + ys, [len] + rest;
      assert xs[1..] == ys && lens[1..] == rest;
      AtConcat(raw, index, InputBytes(x, len), InputsBytes(ys, rest));
    }
  }

  lemma {:induction false} OutputsPanicAfter(raw: Bytes, index: nat, n: nat, xs: seq<TxOut>, lens: seq<Bytes>)
    requires Fits(raw) && index <= |raw| && |xs| < n && OutputsFit(xs, lens) && At(raw, index, OutputsBytes(xs, lens))
    requires ParseOutput(raw, index + |OutputsBytes(xs, lens)|) == Panics
    ensures ParseOutputs(raw, index, n) == Panics
    decreases |xs|
  {
    hide OutputBytes, OutputFits, ParseOutput;
    if xs != [] {
      var here := OutputBytes(xs[0], lens[0]);
      AtConcat(raw, index, here, OutputsBytes(xs[1..], lens[1..]));
      OutputParsed(raw, index, xs[0], lens[0]);
      OutputsPanicAfter(raw, index + |here|, n - 1, xs[1..], lens[1..]);
    }
  }

  lemma {:induction false} PanicAfterOutputs(raw: Bytes, index: nat, n: nat) returns (xs: seq<TxOut>, lens: seq<Bytes>)
    requires Fits(raw) && index <= |raw| && ParseOutputs(raw, index, n) == Panics
    ensures |xs| < n && OutputsFit(xs, lens) && At(raw, index, OutputsBytes(xs, lens))
    ensures ParseOutput(raw, index + |OutputsBytes(xs, lens)|) == Panics
    decreases n
  {
    hide OutputBytes, OutputFits, ParseOutput;
    xs, lens := [], [];
    var first := ParseOutput(raw, index);
    if first.Parsed? {
      var (x, next) := first.value;
      var len := ParsedOutput(raw, index, x, next);
      var ys, rest := PanicAfterOutputs(raw, next, n - 1);
      xs, lens := [x] + ys, [len] + rest;
      assert xs[1..] == ys && lens[1..] == rest;
      AtConcat(raw, index, OutputBytes(x, len), OutputsBytes(ys, rest));
    }
  }

  /** After the version and the number of inputs lie some of the inputs, and the script length of the next takes
      the index out of range. */
  ghost predicate StopsInInput(raw: Bytes, inCount: Bytes, count: nat, xs: seq<TxIn>, lens: seq<Bytes>)
  {
    && |raw| >= 10 && IsPrefix(inCount, count) && At(raw, 4, inCount)
    && |xs| < count && InputsFit(xs, lens) && At(raw, 4 + |inCount|, InputsBytes(xs, lens))
    && var script := 4 + |inCount| + |InputsBytes(xs, lens)| + 36;
       script <= |raw| && exists b, n :: IsPrefix(b, n) && At(raw, script, b) && script + |b| + n + 4 > MAX_INT
  }

  /** After all inputs and the number of outputs lie some of the outputs, and the script length of the next takes
      the index out of range. */
  ghost predicate StopsInOutput(raw: Bytes, inCount: Bytes, xs: seq<TxIn>, lens: seq<Bytes>,
                                outCount: Bytes, count: nat, ys: seq<TxOut>, outLens: seq<Bytes>)
  {
    && |raw| >= 10 && xs != [] && InputsFit(xs, lens) && IsPrefix(inCount, |xs|) && At(raw, 4, inCount)
    && At(raw, 4 + |inCount|, InputsBytes(xs, lens))
    && var outs := 4 + |inCount| + |InputsBytes(xs, lens)|;
       && IsPrefix(outCount, count) && At(raw, outs, outCount)
       && |ys| < count && OutputsFit(ys, outLens) && At(raw, outs + |outCount|, OutputsBytes(ys, outLens))
       && var script := outs + |outCount| + |OutputsBytes(ys, outLens)| + 8;
          script <= |raw| && exists b, n :: IsPrefix(b, n) && At(raw, script, b) && script + |b| + n > MAX_INT
  }

  lemma StopInInputPanics(raw: Bytes, inCount: Bytes, count: nat, xs: seq<TxIn>, lens: seq<Bytes>)
    requires Fits(raw) && StopsInInput(raw, inCount, count, xs, lens)
    ensures Parse(raw) == Panics
  {
    hide DecodeVarInt, InputsFit, InputsBytes, ParseInputs, ParseInput, IsPrefix;
    DecodeAt(raw, 4, inCount, count);
    InputsFitLengths(xs, lens);
    var index := 4 + |inCount| + |InputsBytes(xs, lens)|;
    InputPanics(raw, index);
    InputsPanicAfter(raw, 4 + |inCount|, count, xs, lens);
  }

  lemma InputsFitLengths(xs: seq<TxIn>, lens: seq<Bytes>)
    requires InputsFit(xs, lens)
    ensures |xs| == |lens|
  {}

  lemma StopInOutputPanics(raw: Bytes, inCount: Bytes, xs: seq<TxIn>, lens: seq<Bytes>,
                           outCount: Bytes, count: nat, ys: seq<TxOut>, outLens: seq<Bytes>)
    requires Fits(raw) && StopsInOutput(raw, inCount, xs, lens, outCount, count, ys, outLens)
    ensures Parse(raw) == Panics
  {
    hide DecodeVarInt, InputsFit, InputsBytes, ParseInputs, OutputsBytes, OutputsFit, ParseOutputs, ParseOutput, IsPrefix;
    DecodeAt(raw, 4, inCount, |xs|);
    InputsParsed(raw, 4 + |inCount|, xs, lens);
    InputsFitLengths(xs, lens);
    var outs := 4 + |inCount| + |InputsBytes(xs, lens)|;
    DecodeAt(raw, outs, outCount, count);
    OutputsFitLengths(ys, outLens);
    OutputPanics(raw, outs + |outCount| + |OutputsBytes(ys, outLens)|);
    OutputsPanicAfter(raw, outs + |outCount|, count, ys, outLens);
  }

  lemma OutputsFitLengths(xs: seq<TxOut>, lens: seq<Bytes>)
    requires OutputsFit(xs, lens)
    ensures |xs| == |lens|
  {}

  lemma PanicStopsInInput(raw: Bytes, inCount: Bytes, count: nat) returns (xs: seq<TxIn>, lens: seq<Bytes>)
    requires Fits(raw) && |raw| >= 10 && IsPrefix(inCount, count) && At(raw, 4, inCount)
    requires ParseInputs(raw, 4 + |inCount|, count) == Panics
    ensures StopsInInput(raw, inCount, count, xs, lens)
  {
    hide DecodeVarInt, InputsBytes, ParseInputs, ParseInput, IsPrefix, InputFits;
    xs, lens := PanicAfterInputs(raw, 4 + |inCount|, count);
    InputPanics(raw, 4 + |inCount| + |InputsBytes(xs, lens)|);
  }

  lemma PanicStopsInOutput(raw: Bytes, inCount: Bytes, xs: seq<TxIn>, lens: seq<Bytes>, outCount: Bytes, count: nat)
    returns (ys: seq<TxOut>, outLens: seq<Bytes>)
    requires Fits(raw) && |raw| >= 10 && xs != [] && InputsFit(xs, lens) && IsPrefix(inCount, |xs|) && At(raw, 4, inCount)
    requires At(raw, 4 + |inCount|, InputsBytes(xs, lens)) && IsPrefix(outCount, count)
    requires At(raw, 4 + |inCount| + |InputsBytes(xs, lens)|, outCount)
    requires ParseOutputs(raw, 4 + |inCount| + |InputsBytes(xs, lens)| + |outCount|, count) == Panics
    ensures StopsInOutput(raw, inCount, xs, lens, outCount, count, ys, outLens)
  {
    hide DecodeVarInt, InputsBytes, OutputsBytes, ParseOutputs, ParseOutput, IsPrefix, InputFits, OutputFits;
    var at := 4 + |inCount| + |InputsBytes(xs, lens)| + |outCount|;
    ys, outLens := PanicAfterOutputs(raw, at, count);
    OutputPanics(raw, at + |OutputsBytes(ys, outLens)|);
  }

  ghost predicate Stops(raw: Bytes)
  {
    || (exists inCount, count, xs, lens :: StopsInInput(raw, inCount, count, xs, lens))
    || (exists inCount, xs, lens, outCount, count, ys, outLens ::
          StopsInOutput(raw, inCount, xs, lens, outCount, count, ys, outLens))
  }

  lemma PanicStops(raw: Bytes)
    requires Fits(raw) && Parse(raw) == Panics
    ensures Stops(raw)
  {
    hide DecodeVarInt, InputsFit, InputsBytes, ParseInputs, ParseOutputs, IsPrefix, StopsInInput, StopsInOutput, At;
    var (count, inSize) := DecodeVarInt(raw[4..]).value;
    var inCount := DecodedAt(raw, 4, count, inSize);
    var ins := ParseInputs(raw, 4 + inSize, count);
    if ins.Panics? {
      var xs, lens := PanicStopsInInput(raw, inCount, count);
    } else {
      var (xs, index) := ins.value;
      var lens := ParsedInputs(raw, 4 + inSize, count, xs, index);
      var (outputs, outSize) := DecodeVarInt(raw[index..]).value;
      var outCount := DecodedAt(raw, index, outputs, outSize);
      var ys, outLens := PanicStopsInOutput(raw, inCount, xs, lens, outCount, outputs);
    }
  }

  /** The parser panics exactly when the bytes are those of a transaction up to some script, and the length prefix of that
      script takes the index past the range of a machine integer. */
  lemma PanicsIff(raw: Bytes)
    requires Fits(raw)
    ensures Parse(raw) == Panics <==> Stops(raw)
  {
    hide Parse, StopsInInput, StopsInOutput;
    if Parse(raw) == Panics {
      PanicStops(raw);
    }
    forall inCount, count: nat, xs, lens | StopsInInput(raw, inCount, count, xs, lens)
      ensures Parse(raw) == Panics
    {
      StopInInputPanics(raw, inCount, count, xs, lens);
    }
    forall inCount, xs, lens, outCount, count: nat, ys, outLens |
      StopsInOutput(raw, inCount, xs, lens, outCount, count, ys, outLens)
      ensures Parse(raw) == Panics
    {
      StopInOutputPanics(raw, inCount, xs, lens, outCount, count, ys, outLens);
    }
  }

  // ---- The shortest prefixes, as transactions are serialised ----

  /** The low `k` bytes of `n`, least significant first. */
  function ToLittleEndian(n: nat, k: nat): (b: Bytes)
    ensures |b| == k
  {
    if k == 0 then [] else [n % 256] + ToLittleEndian(n / 256, k - 1)
  }

  lemma {:induction false} LittleEndianRoundTrip(n: nat, k: nat)
    requires n < Pow256(k)
    ensures LittleEndian(ToLittleEndian(n, k)) == n
  {
    if k > 0 {
      LittleEndianRoundTrip(n / 256, k - 1);
      assert ToLittleEndian(n, k)[1..] == ToLittleEndian(n / 256, k - 1);
    }
  }

  function ShortestPrefix(n: nat): Bytes
  {
    if n < 0xfd then [n]
    else if n <= 0xffff then [0xfd] + ToLittleEndian(n, 2)
    else if n <= 0xffff_ffff then [0xfe] + ToLittleEndian(n, 4)
    else [0xff] + ToLittleEndian(n, 8)
  }

  lemma ShortestPrefixDecodes(n: nat)
    requires n <= MAX_INT
    ensures IsPrefix(ShortestPrefix(n), n)
  {
    hide LittleEndian, ToLittleEndian;
    PowersOf256();
    if n >= 0xfd {
      var k := if n <= 0xffff then 2 else if n <= 0xffff_ffff then 4 else 8;
      LittleEndianRoundTrip(n, k);
      assert ShortestPrefix(n)[1..k + 1] == ToLittleEndian(n, k);
    }
  }

  lemma PowersOf256()
    ensures Pow256(2) == 0x1_0000 && Pow256(4) == 0x1_0000_0000 && Pow256(8) == 0x1_0000_0000_0000_0000
  {
    assert Pow256(4) == 0x1_0000_0000;
    assert Pow256(6) == 0x1_0000_0000_0000;
  }

  /** No admissible prefix for the same length is shorter. */
  lemma ShortestPrefixIsShortest(b: Bytes, n: nat)
    requires IsPrefix(b, n)
    ensures |ShortestPrefix(n)| <= |b|
  {
    hide LittleEndian, ToLittleEndian;
    PowersOf256();
    if |b| == 3 {
      LittleEndianBound(b[1..3]);
    } else if |b| == 5 {
      LittleEndianBound(b[1..5]);
    }
  }

  /** The layout a serialiser writes. */
  function ShortestLayout(tx: Tx): Layout
  {
    Layout(ShortestPrefix(|tx.inputs|), seq(|tx.inputs|, i requires 0 <= i < |tx.inputs| => ShortestPrefix(|tx.inputs[i].scriptSig|)),
           ShortestPrefix(|tx.outputs|), seq(|tx.outputs|, i requires 0 <= i < |tx.outputs| => ShortestPrefix(|tx.outputs[i].script|)))
  }

  /** A transaction with fields of the fixed widths and lengths within a machine integer. */
  predicate WellFormed(tx: Tx)
  {
    && |tx.version| == 4 && |tx.lockTime| == 4
    && 0 < |tx.inputs| <= MAX_INT && 0 < |tx.outputs| <= MAX_INT
    && (forall x <- tx.inputs ::
          |x.txid| == 32 && |x.vout| == 4 && |x.scriptSig| <= MAX_INT && |x.sequence| == 4)
    && (forall x <- tx.outputs :: |x.amount| == 8 && |x.script| <= MAX_INT)
  }

  lemma ShortestAdmissible(tx: Tx)
    requires WellFormed(tx)
    ensures Admissible(tx, ShortestLayout(tx))
  {
    hide IsPrefix, ShortestPrefix;
    ShortestPrefixDecodes(|tx.inputs|);
    ShortestPrefixDecodes(|tx.outputs|);
    var l := ShortestLayout(tx);
    forall i | 0 <= i < |tx.inputs|
      ensures InputFits(tx.inputs[i], l.inLens[i])
    {
      assert tx.inputs[i] in tx.inputs;
      ShortestPrefixDecodes(|tx.inputs[i].scriptSig|);
    }
    forall i | 0 <= i < |tx.outputs|
      ensures OutputFits(tx.outputs[i], l.outLens[i])
    {
      assert tx.outputs[i] in tx.outputs;
      ShortestPrefixDecodes(|tx.outputs[i].script|);
    }
  }

  function Serialise(tx: Tx): Bytes
    requires WellFormed(tx)
  {
    ShortestAdmissible(tx);
    Assemble(tx, ShortestLayout(tx))
  }

  /** Parsing inverts serialisation for every transaction with at least one input and one output. */
  lemma ParseSerialised(tx: Tx)
    requires WellFormed(tx) && Fits(Serialise(tx))
    ensures Parse(Serialise(tx)) == Parsed(tx)
  {
    hide Admissible, Assemble, WellFormed, Parse, ShortestLayout;
    ShortestAdmissible(tx);
    ParseAssembled(tx, ShortestLayout(tx));
  }

  /** Version, one input, an empty outpoint, and the largest length prefix. */
  function LongestScript(): Bytes
  {
    seq(4, i => 0) + [1] + seq(36, i => 0) + ShortestPrefix(MAX_INT)
  }

  /** Fifty bytes on which the parser panics. */
  lemma FiftyBytesPanic()
    ensures |LongestScript()| == 50 && Parse(LongestScript()) == Panics
  {
    hide DecodeVarInt, LittleEndian, ToLittleEndian, Parse;
    var raw := LongestScript();
    var last := ShortestPrefix(MAX_INT);
    ShortestPrefixDecodes(MAX_INT);
    ShortestPrefixDecodes(1);
    assert ShortestPrefix(1) == [1];
    assert At(raw, 4, [1]) && At(raw, 5, []) && At(raw, 41, last);
    assert InputsFit([], []) && InputsBytes([], []) == [];
    assert IsPrefix(last, MAX_INT) && 41 + |last| + MAX_INT + 4 > MAX_INT;
    assert StopsInInput(raw, [1], 1, [], []);
    StopInInputPanics(raw, [1], 1, [], []);
  }

  // ---- The parser as it runs ----

  /** Parsed values in front of the outcome for what follows them. */
  function After<T>(done: seq<T>, rest: Outcome<(seq<T>, nat)>): Outcome<(seq<T>, nat)>
  {
    match rest
    case Rejected => Rejected
    case Panics => Panics
    case Parsed((xs, end)) => Parsed((done + xs, end))
  }

  lemma AfterStep<T>(done: seq<T>, x: T, rest: Outcome<(seq<T>, nat)>)
    ensures After(done, After([x], rest)) == After(done + [x], rest)
  {
    if rest.Parsed? {
      assert done + ([x] + rest.value.0) == done + [x] + rest.value.0;
    }
  }

  lemma ParseInputsStep(raw: Bytes, index: nat, n: nat, done: seq<TxIn>)
    requires Fits(raw) && index <= |raw| && n > 0
    ensures var one := ParseInput(raw, index);
            After(done, ParseInputs(raw, index, n)) ==
            match one
            case Rejected => Rejected
            case Panics => Panics
            case Parsed((x, next)) => After(done + [x], ParseInputs(raw, next, n - 1))
  {
    hide ParseInput;
    var one := ParseInput(raw, index);
    if one.Parsed? {
      AfterStep(done, one.value.0, ParseInputs(raw, one.value.1, n - 1));
    }
  }

  lemma ParseOutputsStep(raw: Bytes, index: nat, n: nat, done: seq<TxOut>)
    requires Fits(raw) && index <= |raw| && n > 0
    ensures var one := ParseOutput(raw, index);
            After(done, ParseOutputs(raw, index, n)) ==
            match one
            case Rejected => Rejected
            case Panics => Panics
            case Parsed((x, next)) => After(done + [x], ParseOutputs(raw, next, n - 1))
  {
    hide ParseOutput;
    var one := ParseOutput(raw, index);
    if one.Parsed? {
      AfterStep(done, one.value.0, ParseOutputs(raw, one.value.1, n - 1));
    }
  }

  method ReadInputs(raw: Bytes, start: nat, inCount: nat) returns (r: Outcome<(seq<TxIn>, nat)>)
    requires Fits(raw) && start <= |raw|
    ensures r == ParseInputs(raw, start, inCount)
  {
    hide DecodeVarInt, ParseInputs, After;
    var index: nat := start;
    var inputs: seq<TxIn> := [];
    var i: nat := 0;
    AfterNothing(ParseInputs(raw, start, inCount));
    while i < inCount
      invariant i <= inCount && index <= |raw|
      invariant ParseInputs(raw, start, inCount) == After(inputs, ParseInputs(raw, index, inCount - i))
    {
      ParseInputsStep(raw, index, inCount - i, inputs);
      if index + 36 > |raw| {
        return Rejected;
      }
      var txid, vout := raw[index..index + 32], raw[index + 32..index + 36];
      var prefix := DecodeVarInt(raw[index + 36..]);
      index := index + 36;
      if prefix.None? {
        return Rejected;
      }
      var (scriptLen, size) := prefix.value;
      index := index + size;
      if index + scriptLen + 4 > MAX_INT {
        return Panics;
      }
      if index + scriptLen + 4 > |raw| {
        return Rejected;
      }
      var scriptSig := raw[index..index + scriptLen];
      index := index + scriptLen;
      inputs := inputs + [TxIn(txid, vout, scriptSig, raw[index..index + 4])];
      index := index + 4;
      i := i + 1;
    }
    NoInputsLeft(raw, index, inputs);
    return Parsed((inputs, index));
  }

  lemma AfterNothing<T>(r: Outcome<(seq<T>, nat)>)
    ensures After([], r) == r
  {
    if r.Parsed? {
      assert [] + r.value.0 == r.value.0;
    }
  }

  lemma NoInputsLeft(raw: Bytes, index: nat, done: seq<TxIn>)
    requires Fits(raw) && index <= |raw|
    ensures After(done, ParseInputs(raw, index, 0)) == Parsed((done, index))
  {
    assert done + [] == done;
  }

  lemma NoOutputsLeft(raw: Bytes, index: nat, done: seq<TxOut>)
    requires Fits(raw) && index <= |raw|
    ensures After(done, ParseOutputs(raw, index, 0)) == Parsed((done, index))
  {
    assert done + [] == done;
  }

  method ReadOutputs(raw: Bytes, start: nat, outCount: nat) returns (r: Outcome<(seq<TxOut>, nat)>)
    requires Fits(raw) && start <= |raw|
    ensures r == ParseOutputs(raw, start, outCount)
  {
    hide DecodeVarInt, ParseOutputs, After;
    var index: nat := start;
    var outputs: seq<TxOut> := [];
    var i: nat := 0;
    AfterNothing(ParseOutputs(raw, start, outCount));
    while i < outCount
      invariant i <= outCount && index <= |raw|
      invariant ParseOutputs(raw, start, outCount) == After(outputs, ParseOutputs(raw, index, outCount - i))
    {
      ParseOutputsStep(raw, index, outCount - i, outputs);
      if index + 8 > |raw| {
        return Rejected;
      }
      var amount := raw[index..index + 8];
      var prefix := DecodeVarInt(raw[index + 8..]);
      index := index + 8;
      if prefix.None? {
        return Rejected;
      }
      var (scriptLen, size) := prefix.value;
      index := index + size;
      if index + scriptLen > MAX_INT {
        return Panics;
      }
      if index + scriptLen > |raw| {
        return Rejected;
      }
      outputs := outputs + [TxOut(amount, raw[index..index + scriptLen])];
      index := index + scriptLen;
      i := i + 1;
    }
    NoOutputsLeft(raw, index, outputs);
    return Parsed((outputs, index));
  }

  /** The parser returns a transaction exactly when the bytes are one of its layouts. */
  method ParseRawTx(raw: Bytes) returns (r: Outcome<Tx>)
    requires Fits(raw)
    ensures r == Parse(raw)
    ensures r.Parsed? <==> exists tx: Tx, l: Layout :: Admissible(tx, l) && raw == Assemble(tx, l)
    ensures r.Parsed? ==> exists l: Layout :: Admissible(r.value, l) && raw == Assemble(r.value, l)
    ensures r.Panics? <==> Stops(raw)
  {
    hide DecodeVarInt, ParseInputs, ParseOutputs, Admissible, Assemble, Stops;
    r := ReadTx(raw);
    PanicsIff(raw);
    if r.Parsed? {
      var l := ParsedIsAssembled(raw, r.value);
    }
    forall tx: Tx, l: Layout | Admissible(tx, l) && raw == Assemble(tx, l)
      ensures r.Parsed?
    {
      ParseAssembled(tx, l);
    }
  }

  method ReadTx(raw: Bytes) returns (r: Outcome<Tx>)
    requires Fits(raw)
    ensures r == Parse(raw)
  {
    hide DecodeVarInt, ParseInputs, ParseOutputs;
    if |raw| < 10 {
      return Rejected;
    }
    var version := raw[..4];
    var prefix := DecodeVarInt(raw[4..]);
    if prefix.None? || prefix.value.0 == 0 {
      return Rejected;
    }
    var ins := ReadInputs(raw, 4 + prefix.value.1, prefix.value.0);
    if ins.Rejected? {
      return Rejected;
    }
    if ins.Panics? {
      return Panics;
    }
    var (inputs, index) := ins.value;
    prefix := DecodeVarInt(raw[index..]);
    if prefix.None? || prefix.value.0 == 0 {
      return Rejected;
    }
    var outs := ReadOutputs(raw, index + prefix.value.1, prefix.value.0);
    if outs.Rejected? {
      return Rejected;
    }
    if outs.Panics? {
      return Panics;
    }
    var (outputs, end) := outs.value;
    if end + 4 != |raw| {
      return Rejected;
    }
    assert raw[end..end + 4] == raw[end..];
    return Parsed(Tx(version, inputs, outputs, raw[end..end + 4]));
  }
}
