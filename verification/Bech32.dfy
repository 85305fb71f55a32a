/** The Bech32 and Bech32m codec for witness programs (BIP-173, BIP-350) and its use by the converter. */
module Bech32 {
  import opened Wrappers
  import opened GoStrings
  import opened Checksum
  import opened Regroup
  import IdAddress

  datatype Encoding = Bech32 | Bech32m

  datatype Error = BadFormat | BadCharacter | BadChecksum | NoData | BadPadding | BadProgramLength | BadVersionEncoding
                 | NoSymbol

  datatype Witness = Witness(hrp: string, version: Symbol, program: seq<Byte>, encoding: Encoding)

  const MAX_LENGTH: nat := 90

  function Constant(e: Encoding): bv30
  {
    if e.Bech32? then 1 else 0x2bc830a3
  }

  function EncodingOf(version: Byte): Encoding
  {
    if version == 0 then Encoding.Bech32 else Bech32m
  }

  predicate ProgramLength(program: seq<Byte>) { 2 <= |program| <= 40 }

  // ---- Encoding ----

  function EncodeSymbols(hrp: string, symbols: seq<Symbol>, e: Encoding): string
    requires IsAscii(hrp)
  {
    hrp + "1" + IdAddress.Chars(symbols + Create(IdAddress.HrpExpand(hrp) + symbols, Constant(e)))
  }

  /** A version beyond the character set has no symbol: `bech32Charset[d]` is an index out of range, a panic in Go. */
  function Encode(hrp: string, version: Byte, program: seq<Byte>): Result<string, Error>
    requires IsAscii(hrp)
  {
    if !ProgramLength(program) then Err(BadProgramLength)
    else if version >= 32 then Err(NoSymbol)
    else Ok(EncodeSymbols(hrp, [version] + IdAddress.ToSymbols(program), EncodingOf(version)))
  }

  // ---- Decoding ----

  /** The constant the remainder matches; the newer one is tried first. */
  function Detect(hrp: string, symbols: seq<Symbol>): Option<Encoding>
    requires IsAscii(hrp)
  {
    var mod := Polymod(IdAddress.HrpExpand(hrp) + symbols);
    if mod == Constant(Bech32m) then Some(Bech32m)
    else if mod == Constant(Encoding.Bech32) then Some(Encoding.Bech32)
    else None
  }

  function DecodeSymbols(hrp: string, symbols: seq<Symbol>): Result<Witness, Error>
    requires IsAscii(hrp) && |symbols| >= 6
  {
    match Detect(hrp, symbols)
    case None => Err(BadChecksum)
    case Some(e) =>
      var data := symbols[..|symbols| - 6];
      if |data| < 1 then Err(NoData)
      else
        match IdAddress.ToBytes(data[1..])
        case None => Err(BadPadding)
        case Some(program) =>
          if !ProgramLength(program) then Err(BadProgramLength)
          else if e != EncodingOf(data[0]) then Err(BadVersionEncoding)
          else Ok(Witness(hrp, data[0], program, e))
  }

  function Decode(address: string): Result<Witness, Error>
    requires IsAscii(address)
  {
    var addr := ToLower(address);
    ToLowerAscii(address);
    match LastIndex(addr, '1')
    case None => Err(BadFormat)
    case Some(pos) =>
      if pos < 1 || pos + 7 > |addr| || |addr| > MAX_LENGTH then Err(BadFormat)
      else
        match IdAddress.ParseChars(addr[pos + 1..])
        case None => Err(BadCharacter)
        case Some(symbols) => DecodeSymbols(addr[..pos], symbols)
  }

  // ---- Methods ----

  method Bech32Encode(hrp: string, version: Byte, program: seq<Byte>) returns (r: Result<string, Error>)
    requires IsAscii(hrp)
    ensures r == Encode(hrp, version, program)
  {
    hide Spec, Polymod, Unpack, Xor, Fits;
    if !ProgramLength(program) {
      return Err(BadProgramLength);
    }
    IdAddress.BytesFit(program);
    var converted := ConvertBits8to5(program, 8, 5, true);
    assert converted == Some(IdAddress.ToSymbols(program));
    if version >= 32 {
      return Err(NoSymbol);
    }
    var symbols: seq<Symbol> := converted.value;
    var data: seq<Symbol> := [version] + symbols;
    var expanded := IdAddress.ExpandHrp(hrp);
    var poly := ComputePolymod(expanded + data + Checksum.Zeros(6));
    poly := Xor(poly, if version == 0 then 1 else 0x2bc830a3);
    data := data + Unpack(poly);
    var encoded := "";
    for i := 0 to |data|
      invariant encoded == IdAddress.Chars(data[..i])
    {
      encoded := encoded + [IdAddress.CharOf(data[i])];
      assert encoded == IdAddress.Chars(data[..i + 1]);
    }
    assert data[..|data|] == data;
    r := Ok(hrp + "1" + encoded);
  }

  method Bech32Decode(address: string) returns (r: Result<Witness, Error>)
    requires IsAscii(address)
    ensures r == Decode(address)
  {
    hide Spec, Polymod, Fits, ToLower, IsAscii, IdAddress.SymbolOf, IdAddress.HrpExpand;
    var addr := ToLower(address);
    ToLowerAscii(address);
    var position := LastIndex(addr, '1');
    if position.None? || position.value < 1 || position.value + 7 > |addr| || |addr| > MAX_LENGTH {
      return Err(BadFormat);
    }
    var pos := position.value;
    var hrp, data := addr[..pos], addr[pos + 1..];
    PrefixAscii(addr, pos);
    var decoded := [];
    for i := 0 to |data|
      invariant IdAddress.ParseChars(data[..i]) == Some(decoded)
    {
      var val := IdAddress.SymbolOf(data[i]);
      if val.None? {
        IdAddress.ParseStops(data, i);
        return Err(BadCharacter);
      }
      assert data[..i + 1][..i] == data[..i];
      decoded := decoded + [val.value];
    }
    assert data[..|data|] == data;
    var expanded := IdAddress.ExpandHrp(hrp);
    var mod := ComputePolymod(expanded + decoded);
    if mod != 0x2bc830a3 && mod != 1 {
      return Err(BadChecksum);
    }
    var encoding := if mod == 0x2bc830a3 then Bech32m else Encoding.Bech32;
    decoded := decoded[..|decoded| - 6];
    if |decoded| < 1 {
      return Err(NoData);
    }
    var version := decoded[0];
    IdAddress.SymbolsFit(decoded[1..]);
    var converted := ConvertBits8to5(decoded[1..], 5, 8, false);
    if converted.None? {
      return Err(BadPadding);
    }
    assert converted == IdAddress.ToBytes(decoded[1..]);
    var program: seq<Byte> := converted.value;
    if !ProgramLength(program) {
      return Err(BadProgramLength);
    }
    if version == 0 && encoding != Encoding.Bech32 {
      return Err(BadVersionEncoding);
    }
    if version != 0 && encoding != Bech32m {
      return Err(BadVersionEncoding);
    }
    r := Ok(Witness(hrp, version, program, encoding));
  }

  lemma PrefixAscii(s: string, n: nat)
    requires IsAscii(s) && n <= |s|
    ensures IsAscii(s[..n])
  {}

  // ---- Round trips ----

  /** Exactly the checksum created for an encoding is detected as that encoding. */
  lemma DetectCreated(hrp: string, data: seq<Symbol>, checksum: seq<Symbol>, e: Encoding)
    requires IsAscii(hrp) && |checksum| == 6
    ensures Detect(hrp, data + checksum) == Some(e)
       <==> checksum == Create(IdAddress.HrpExpand(hrp) + data, Constant(e))
  {
    hide Polymod, Create;
    ChecksumUnique(IdAddress.HrpExpand(hrp) + data, checksum, Constant(e));
    assert IdAddress.HrpExpand(hrp) + data + checksum == IdAddress.HrpExpand(hrp) + (data + checksum);
  }

  lemma DecodeEncodedSymbols(hrp: string, version: Symbol, program: seq<Byte>)
    requires IsAscii(hrp) && ProgramLength(program)
    ensures var data := [version] + IdAddress.ToSymbols(program);
            DecodeSymbols(hrp, data + Create(IdAddress.HrpExpand(hrp) + data, Constant(EncodingOf(version)))) ==
            Ok(Witness(hrp, version, program, EncodingOf(version)))
  {
    hide Detect, Create, IdAddress.HrpExpand, IdAddress.ToSymbols, IdAddress.ToBytes, Constant;
    var data := [version] + IdAddress.ToSymbols(program);
    var checksum := Create(IdAddress.HrpExpand(hrp) + data, Constant(EncodingOf(version)));
    DetectCreated(hrp, data, checksum, EncodingOf(version));
    assert (data + checksum)[..|data + checksum| - 6] == data && data[1..] == IdAddress.ToSymbols(program);
    IdAddress.BytesOfSymbols(program);
  }

  /** Decoding inverts encoding for every lower-case ASCII prefix that leaves the address within its length limit. */
  lemma DecodeAfterEncode(hrp: string, version: Symbol, program: seq<Byte>)
    requires IsAscii(hrp) && hrp != "" && ToLower(hrp) == hrp
    requires Encode(hrp, version, program).Ok? && |Encode(hrp, version, program).value| <= MAX_LENGTH
    ensures IsAscii(Encode(hrp, version, program).value)
    ensures Decode(Encode(hrp, version, program).value) == Ok(Witness(hrp, version, program, EncodingOf(version)))
  {
    hide DecodeSymbols, Create, IdAddress.HrpExpand, IdAddress.Chars, IdAddress.ParseChars, ToLower, LastIndex;
    var data := [version] + IdAddress.ToSymbols(program);
    var symbols := data + Create(IdAddress.HrpExpand(hrp) + data, Constant(EncodingOf(version)));
    var body := IdAddress.Chars(symbols);
    var addr := Encode(hrp, version, program).value;
    assert addr == hrp + "1" + body;
    IdAddress.ParseOfChars(symbols);
    LastIndexOf(hrp, '1', body);
    assert hrp + ['1'] + body == addr;
    assert addr[..|hrp|] == hrp && addr[|hrp| + 1..] == body;
    LowerJoined(hrp, body);
    DecodeEncodedSymbols(hrp, version, program);
  }

  lemma LowerJoined(hrp: string, body: string)
    requires ToLower(hrp) == hrp && ToLower(body) == body
    ensures ToLower(hrp + "1" + body) == hrp + "1" + body
  {
    assert ToLower("1") == "1";
    ToLowerConcat(hrp, "1");
    ToLowerConcat(hrp + "1", body);
  }

  /** The prefixes in use never reach the length limit. */
  lemma MainAndTestNet(hrp: string, version: Symbol, program: seq<Byte>)
    requires hrp == "bc" || hrp == "tb"
    requires ProgramLength(program)
    ensures IsAscii(hrp) && Encode(hrp, version, program).Ok? && IsAscii(Encode(hrp, version, program).value)
    ensures Decode(Encode(hrp, version, program).value) == Ok(Witness(hrp, version, program, EncodingOf(version)))
  {
    hide Create, IdAddress.HrpExpand, IdAddress.Chars, Decode;
    SymbolCount(program);
    assert ToLower(hrp) == hrp;
    DecodeAfterEncode(hrp, version, program);
  }

  lemma SymbolCount(program: seq<Byte>)
    ensures 5 * |IdAddress.ToSymbols(program)| < 8 * |program| + 5
  {
    hide Spec;
    PaddedStream(program, 8, 5);
    StreamLength(program, 8);
    StreamLength(IdAddress.ToSymbols(program), 5);
  }

  /** Every accepted ASCII address re-encodes to its lower-case form, with the constant its version asks for. */
  lemma EncodeAfterDecode(address: string)
    requires IsAscii(address) && Decode(address).Ok?
    ensures var w := Decode(address).value;
            IsAscii(w.hrp) && w.encoding == EncodingOf(w.version)
            && Encode(w.hrp, w.version, w.program) == Ok(ToLower(address))
  {
    hide Detect, Create, IdAddress.HrpExpand, IdAddress.Chars, IdAddress.ParseChars, IdAddress.ToBytes,
         IdAddress.ToSymbols, ToLower, Constant;
    var addr := ToLower(address);
    var pos := LastIndex(addr, '1').value;
    var symbols := IdAddress.ParseChars(addr[pos + 1..]).value;
    var w := Decode(address).value;
    var n := |symbols| - 6;
    var data, checksum := symbols[..n], symbols[n..];
    ToLowerAscii(address);
    PrefixAscii(addr, pos);
    IdAddress.CharsOfParse(addr[pos + 1..]);
    assert symbols == data + checksum;
    DetectCreated(w.hrp, data, checksum, w.encoding);
    IdAddress.SymbolsOfBytes(data[1..]);
    assert data == [w.version] + data[1..];
    assert addr == addr[..pos] + [addr[pos]] + addr[pos + 1..];
  }

  /** Accepted are exactly the encodings with a prefix, within the length limit, in any mixture of cases. */
  lemma AcceptedIff(address: string)
    requires IsAscii(address)
    ensures Decode(address).Ok? <==>
            |address| <= 90
            && exists hrp: string, version: Symbol, program: seq<Byte> ::
                 hrp != "" && IsAscii(hrp) && Encode(hrp, version, program) == Ok(ToLower(address))
  {
    hide Decode, Encode, ToLower;
    if Decode(address).Ok? {
      var w := Decode(address).value;
      EncodeAfterDecode(address);
      AcceptedPrefix(address);
      AcceptedLength(address);
      assert Encode(w.hrp, w.version, w.program) == Ok(ToLower(address));
    }
    if |address| <= 90 {
      forall hrp: string, version: Symbol, program: seq<Byte>
        | hrp != "" && IsAscii(hrp) && Encode(hrp, version, program) == Ok(ToLower(address))
        ensures Decode(address).Ok?
      {
        PrefixIsLower(address, hrp, version, program);
        DecodeAfterEncode(hrp, version, program);
        SameDecoding(address);
      }
    }
  }

  lemma AcceptedPrefix(address: string)
    requires IsAscii(address) && Decode(address).Ok?
    ensures Decode(address).value.hrp != ""
  {
    hide Detect, IdAddress.ParseChars, IdAddress.ToBytes, ToLower;
  }

  lemma SameDecoding(address: string)
    requires IsAscii(address)
    ensures IsAscii(ToLower(address)) && Decode(ToLower(address)) == Decode(address)
  {
    hide DecodeSymbols, IdAddress.ParseChars, ToLower;
    ToLowerIdempotent(address);
    ToLowerAscii(address);
  }

  lemma PrefixIsLower(address: string, hrp: string, version: Symbol, program: seq<Byte>)
    requires IsAscii(hrp) && Encode(hrp, version, program) == Ok(ToLower(address))
    ensures ToLower(hrp) == hrp && |ToLower(address)| == |address|
  {
    hide ToLower, Create, IdAddress.HrpExpand, IdAddress.ToSymbols, IdAddress.Chars;
    var lower := ToLower(address);
    assert lower[..|hrp|] == hrp;
    ToLowerIdempotent(address);
    LowerPrefix(lower, |hrp|);
  }

  lemma LowerPrefix(s: string, n: nat)
    requires ToLower(s) == s && n <= |s|
    ensures ToLower(s[..n]) == s[..n]
  {
    assert s == s[..n] + s[n..];
    ToLowerConcat(s[..n], s[n..]);
  }

  /** Format and characters are checked first. */
  lemma DecodeRejects(address: string, head: string, body: string)
    requires IsAscii(address) && ToLower(address) == head + "1" + body && '1' !in body
    ensures Decode(address) == Err(BadFormat) <==> head == "" || |body| < 6 || |address| > 90
    ensures Decode(address) == Err(BadCharacter) <==>
            head != "" && |body| >= 6 && |address| <= 90 && exists c :: c in body && c !in "qpzry9x8gf2tvdw0s3jn54khce6mua7l"
  {
    hide ToLower, IdAddress.ParseChars, LastIndex, Detect, IdAddress.ToBytes;
    LastIndexOf(head, '1', body);
    var addr := ToLower(address);
    assert head + ['1'] + body == addr;
    assert addr[|head| + 1..] == body;
    IdAddress.ParsesIff(body);
  }

  lemma NoSeparatorRejected(address: string)
    requires IsAscii(address) && '1' !in ToLower(address)
    ensures Decode(address) == Err(BadFormat)
  {
    hide ToLower;
    NoLastFound(ToLower(address), '1');
  }

  /** After the prefix come the version and further symbols which, with the expanded prefix, leave the remainder 1
      for version 0 and 0x2bc830a3 for any other. */
  ghost predicate Carries(address: string, hrp: string, version: Symbol)
  {
    && IsAscii(hrp) && hrp + "1" <= address
    && match IdAddress.ParseChars(address[|hrp| + 1..])
       case None => false
       case Some(symbols) =>
         && symbols != [] && symbols[0] == version
         && Polymod(IdAddress.HrpExpand(hrp) + symbols) == if version == 0 then 1 else 0x2bc830a3
  }

  /** Every encoded address carries the constant of its version. */
  lemma EncodedRemainder(hrp: string, version: Symbol, program: seq<Byte>)
    requires IsAscii(hrp) && Encode(hrp, version, program).Ok?
    ensures Carries(Encode(hrp, version, program).value, hrp, version)
  {
    hide Polymod, Create, IdAddress.HrpExpand, IdAddress.Chars, IdAddress.ParseChars, IdAddress.ToSymbols;
    var data := [version] + IdAddress.ToSymbols(program);
    var head := IdAddress.HrpExpand(hrp) + data;
    var constant: bv30 := if version == 0 then 1 else 0x2bc830a3;
    var checksum := Create(head, constant);
    ChecksumUnique(head, checksum, constant);
    IdAddress.ParseOfChars(data + checksum);
    var address := Encode(hrp, version, program).value;
    assert address == hrp + "1" + IdAddress.Chars(data + checksum);
    assert address[|hrp| + 1..] == IdAddress.Chars(data + checksum);
    assert IdAddress.HrpExpand(hrp) + (data + checksum) == head + checksum;
  }

  /** So does every address that is accepted. */
  lemma AcceptedRemainder(address: string)
    requires IsAscii(address) && Decode(address).Ok?
    ensures var w := Decode(address).value;
            Carries(ToLower(address), w.hrp, w.version) && 2 <= |w.program| <= 40 && |address| <= 90
  {
    hide Encode, DecodeSymbols, Carries, ToLower;
    var w := Decode(address).value;
    EncodeAfterDecode(address);
    EncodedRemainder(w.hrp, w.version, w.program);
    AcceptedLength(address);
  }

  lemma AcceptedLength(address: string)
    requires IsAscii(address) && Decode(address).Ok?
    ensures 2 <= |Decode(address).value.program| <= 40 && |address| <= 90
  {
    hide Detect, IdAddress.ParseChars, IdAddress.ToBytes;
  }

  // ---- ID addresses and SegWit addresses ----

  datatype ConvertError = NotAnIdAddress(IdAddress.Error) | Unsupported | Bech32Error(Error)

  /** The SegWit arms of the conversion of an ID address to a Bitcoin address. */
  function ToSegWit(idAddr: string, testnet: bool): Result<string, ConvertError>
  {
    match IdAddress.Decode(idAddr)
    case Err(e) => Err(NotAnIdAddress(e))
    case Ok(info) =>
      var hrp := if testnet then "tb" else "bc";
      if info.version == 2 || info.version == 3 then Lift(Encode(hrp, 0, info.data))
      else if info.version == 5 then Lift(Encode(hrp, 1, info.data))
      else Err(Unsupported)
  }

  function Lift(r: Result<string, Error>): Result<string, ConvertError>
  {
    match r
    case Ok(s) => Ok(s)
    case Err(e) => Err(Bech32Error(e))
  }

  function FromSegWit(w: Witness): Result<string, ConvertError>
  {
    if w.hrp != "bc" && w.hrp != "tb" then Err(Unsupported)
    else if w.version == 0 && |w.program| == 20 then LiftId(IdAddress.Encode(2, w.program))
    else if w.version == 0 && |w.program| == 32 then LiftId(IdAddress.Encode(3, w.program))
    else if w.version == 1 && |w.program| == 32 then LiftId(IdAddress.Encode(5, w.program))
    else Err(Unsupported)
  }

  function LiftId(r: Result<string, IdAddress.Error>): Result<string, ConvertError>
  {
    match r
    case Ok(s) => Ok(s)
    case Err(e) => Err(NotAnIdAddress(e))
  }

  /** The conversion of a Base58Check payload to an ID address. */
  function FromLegacy(version: Byte, payload: seq<Byte>): Result<string, ConvertError>
  {
    if version in {0x00, 0x6f, 0x1e} then LiftId(IdAddress.Encode(0, payload))
    else if version in {0x05, 0xc4, 0x16} then LiftId(IdAddress.Encode(1, payload))
    else Err(Unsupported)
  }

  /** The conversion of a Bitcoin address to an ID address: Base58Check is tried first, then Bech32. `base58` is the
      answer of the Base58Check decoder. */
  function FromBitcoin(address: string, base58: string -> Option<(Byte, seq<Byte>)>): Result<string, ConvertError>
    requires IsAscii(address)
  {
    match base58(address)
    case Some((version, payload)) => FromLegacy(version, payload)
    case None =>
      match Decode(address)
      case Err(e) => Err(Unsupported)
      case Ok(w) => FromSegWit(w)
  }

  /** The address pays to `data`, which has version `version` among ID addresses: a key or script hash of one of the networks
      in Base58Check, or a witness program of 20 or 32 bytes. */
  ghost predicate PaysTo(address: string, base58: string -> Option<(Byte, seq<Byte>)>, version: Byte, data: seq<Byte>)
    requires IsAscii(address)
  {
    match base58(address)
    case Some((network, payload)) =>
      data == payload && ((version == 0 && network in {0, 111, 30}) || (version == 1 && network in {5, 196, 22}))
    case None =>
      exists w :: Decode(address) == Ok(w) && w.program == data && w.hrp in {"bc", "tb"}
                  && (version as int, w.version as int, |data|) in {(2, 0, 20), (3, 0, 32), (5, 1, 32)}
  }

  /** A Bitcoin address converts to the ID address of what it pays to, and no other address converts. */
  lemma ToIdAddressIff(address: string, base58: string -> Option<(Byte, seq<Byte>)>, idAddr: string)
    requires IsAscii(address)
    ensures FromBitcoin(address, base58) == Ok(idAddr) <==>
            exists version: Byte, data: seq<Byte> ::
              PaysTo(address, base58, version, data) && IdAddress.Encode(version, data) == Ok(idAddr)
  {
    hide Decode, IdAddress.Encode;
    if FromBitcoin(address, base58) == Ok(idAddr) {
      match base58(address)
      case Some((network, payload)) =>
        var version: Byte := if network in {0, 111, 30} then 0 else 1;
        assert PaysTo(address, base58, version, payload);
      case None =>
        var w := Decode(address).value;
        var version: Byte := if w.version == 1 then 5 else if |w.program| == 20 then 2 else 3;
        assert PaysTo(address, base58, version, w.program);
    }
  }

  /** An ID address with a witness program converts to its SegWit address, version 1 for Taproot and 0 for the others. */
  lemma ToSegWitIff(idAddr: string, testnet: bool, address: string)
    ensures ToSegWit(idAddr, testnet) == Ok(address) <==>
            && IdAddress.Decode(idAddr).Ok?
            && var info := IdAddress.Decode(idAddr).value;
               info.version in {2, 3, 5}
               && Encode(if testnet then "tb" else "bc", if info.version == 5 then 1 else 0, info.data) == Ok(address)
  {
    hide IdAddress.Decode, Encode;
  }

  /** A SegWit address made from an ID address leads back to it. */
  lemma SegWitDecodes(idAddr: string, testnet: bool)
    requires IsAscii(idAddr) && ToSegWit(idAddr, testnet).Ok?
    ensures IsAscii(ToSegWit(idAddr, testnet).value) && Decode(ToSegWit(idAddr, testnet).value).Ok?
    ensures FromSegWit(Decode(ToSegWit(idAddr, testnet).value).value) == Ok(ToLower(idAddr))
  {
    hide Encode, Decode, IdAddress.Encode, ToLower;
    var info := IdAddress.Decode(idAddr).value;
    IdAddress.EncodeAfterDecode(idAddr);
    MainAndTestNet(if testnet then "tb" else "bc", if info.version == 5 then 1 else 0, info.data);
  }

  /** A legacy payload never becomes the ID address of a SegWit address. */
  lemma LegacyIsNotSegWit(idAddr: string, testnet: bool, version: Byte, payload: seq<Byte>)
    requires IsAscii(idAddr) && ToSegWit(idAddr, testnet).Ok?
    ensures FromLegacy(version, payload) != Ok(ToLower(idAddr))
  {
    hide Encode, Decode, IdAddress.Encode, ToLower, IdAddress.Parse, IdAddress.Verified, IdAddress.ToBytes;
    var id := if version in {0x00, 0x6f, 0x1e} then 0 else 1;
    ToLowerIdempotent(idAddr);
    IdAddress.SameDecoding(idAddr);
    if IdAddress.Encode(id, payload).Ok? {
      IdAddress.DecodeAfterEncode(id, payload);
    }
  }

  /** An ID address survives the trip to a SegWit address of either network and back exactly when the SegWit
      address does not also pass for a Base58Check one, which is tried first. */
  lemma SegWitRoundTrip(idAddr: string, testnet: bool, base58: string -> Option<(Byte, seq<Byte>)>)
    requires IsAscii(idAddr) && ToSegWit(idAddr, testnet).Ok?
    ensures var address := ToSegWit(idAddr, testnet).value;
            IsAscii(address) && (FromBitcoin(address, base58) == Ok(ToLower(idAddr)) <==> base58(address) == None)
  {
    hide Decode, ToSegWit, FromSegWit, FromLegacy, ToLower;
    SegWitDecodes(idAddr, testnet);
    var address := ToSegWit(idAddr, testnet).value;
    if base58(address).Some? {
      LegacyIsNotSegWit(idAddr, testnet, base58(address).value.0, base58(address).value.1);
    }
  }
}
