/** Funding of a registry transaction: the fee is raised to the size of the signed transaction until
    it covers it. Amounts are 64-bit integers that wrap around; signing is an oracle that gives the
    size of the signed transaction for an attempt and its change amount. */
module RegistryFee {
  import opened Wrappers
  import Regroup

  const MAX: int := 0x7fff_ffff_ffff_ffff

  const ATTEMPTS: nat := 20

  const DEFAULT_DUST: int := 1

  type Int64 = x: int | -MAX - 1 <= x <= MAX

  /** `usable` says whether the transaction id and the script of the output parse. */
  datatype Utxo = Utxo(value: Int64, usable: bool)

  /** Size of the transaction signed in an attempt with a change amount; None when signing fails. */
  type Signer = (nat, int) -> Option<nat>

  datatype Request = Request(utxos: seq<Utxo>, feeRate: Int64, dustAmount: Int64, scriptsBuilt: bool)

  datatype Failure =
    | FeeRateNotPositive | NoUtxo | ValueNotPositive(index: nat) | Unusable(index: nat) | NoScript
    | Insufficient | SigningFailed | Exhausted

  datatype Funded = Funded(change: int, fee: int, size: nat, attempt: nat)

  function Wrap64(x: int): (r: int) { Regroup.Wrap64(x) }

  lemma WrapFormula(x: int)
    ensures Wrap64(x) == (x + MAX + 1) % (2 * MAX + 2) - MAX - 1
  {
    PowersOfTwo();
  }

  lemma WrapValue(x: int)
    ensures -MAX - 1 <= Wrap64(x) <= MAX
    ensures -MAX - 1 <= x <= MAX ==> Wrap64(x) == x
    ensures 0 < x - MAX <= 2 * MAX + 2 ==> Wrap64(x) == x - 2 * MAX - 2
    ensures (Wrap64(x) - x) % (2 * MAX + 2) == 0
  {
    hide Wrap64;
    WrapFormula(x);
  }

  lemma PowersOfTwo()
    ensures Regroup.Pow2(63) == MAX + 1 && Regroup.Pow2(64) == 2 * MAX + 2
  {
    Regroup.Sixty();
  }

  // ---- Totalling the inputs ----

  function Total(utxos: seq<Utxo>): int
  {
    if utxos == [] then 0 else Total(utxos[..|utxos| - 1]) + utxos[|utxos| - 1].value
  }

  predicate Good(u: Utxo) { u.value > 0 && u.usable }

  /** The first output that is refused decides the error. */
  predicate RefusedFor(utxos: seq<Utxo>, e: Failure)
  {
    && (e.ValueNotPositive? || e.Unusable?)
    && e.index < |utxos| && (forall i :: 0 <= i < e.index ==> Good(utxos[i]))
    && var u := utxos[e.index]; if e.ValueNotPositive? then u.value <= 0 else u.value > 0 && !u.usable
  }

  method SumInputs(utxos: seq<Utxo>) returns (r: Result<int, Failure>)
    ensures r.Ok? <==> forall i :: 0 <= i < |utxos| ==> Good(utxos[i])
    ensures r.Ok? ==> r.value == Wrap64(Total(utxos))
    ensures r.Err? ==> RefusedFor(utxos, r.error)
  {
    hide Wrap64;
    WrapValue(0);
    var inputValue := 0;
    for i := 0 to |utxos|
      invariant forall j :: 0 <= j < i ==> Good(utxos[j])
      invariant inputValue == Wrap64(Total(utxos[..i]))
    {
      if utxos[i].value <= 0 {
        return Err(ValueNotPositive(i));
      }
      if !utxos[i].usable {
        return Err(Unusable(i));
      }
      assert utxos[..i + 1][..i] == utxos[..i];
      WrapSum(Total(utxos[..i]), utxos[i].value);
      inputValue := Wrap64(inputValue + utxos[i].value);
    }
    assert utxos[..|utxos|] == utxos;
    return Ok(inputValue);
  }

  lemma WrapPeriodic(x: int, k: int)
    ensures Wrap64(x + k * (2 * MAX + 2)) == Wrap64(x)
  {
    hide Wrap64;
    WrapFormula(x);
    WrapFormula(x + k * (2 * MAX + 2));
  }

  lemma WrapSum(x: int, y: int)
    ensures Wrap64(Wrap64(x) + y) == Wrap64(x + y)
  {
    hide Wrap64;
    WrapFormula(x);
    var k := (x + MAX + 1) / (2 * MAX + 2);
    WrapPeriodic(x + y, -k);
  }

  // ---- The fee loop ----

  /** The loop from one attempt on, with the fee it requires. */
  function Attempt(input: int, dust: int, rate: int, sign: Signer, attempt: nat, required: int): Result<Funded, Failure>
    decreases ATTEMPTS - attempt
  {
    if attempt >= ATTEMPTS then Err(Exhausted)
    else
      var change := Wrap64(Wrap64(input - dust) - required);
      if change < dust then Err(Insufficient)
      else
        match sign(attempt, change)
        case None => Err(SigningFailed)
        case Some(size) =>
          var fee := Wrap64(Wrap64(input - dust) - change);
          var minFee := Wrap64(size * rate);
          if fee >= minFee then Ok(Funded(change, fee, size, attempt))
          else Attempt(input, dust, rate, sign, attempt + 1, Wrap64(required + Wrap64(minFee - fee)))
  }

  /** What one attempt whose change is too small comes to. */
  lemma AttemptInsufficient(input: int, dust: int, rate: int, sign: Signer, attempt: nat, required: int)
    requires attempt < ATTEMPTS && Wrap64(Wrap64(input - dust) - required) < dust
    ensures Attempt(input, dust, rate, sign, attempt, required) == Err(Insufficient)
  {
    hide Wrap64;
  }

  lemma AttemptNext(input: int, dust: int, rate: int, sign: Signer, attempt: nat, required: int)
    requires attempt < ATTEMPTS && dust <= Wrap64(Wrap64(input - dust) - required)
    ensures var change := Wrap64(Wrap64(input - dust) - required);
            var fee := Wrap64(Wrap64(input - dust) - change);
            Attempt(input, dust, rate, sign, attempt, required) ==
            if sign(attempt, change).None? then Err(SigningFailed)
            else
              var size := sign(attempt, change).value;
              var minFee := Wrap64(size * rate);
              if fee >= minFee then Ok(Funded(change, fee, size, attempt))
              else Attempt(input, dust, rate, sign, attempt + 1, Wrap64(required + Wrap64(minFee - fee)))
  {
    hide Wrap64;
  }

  function DustOf(req: Request): (d: int)
    ensures 1 <= d <= MAX
  {
    if req.dustAmount <= 0 then DEFAULT_DUST else req.dustAmount
  }

  /** The funding of a request whose inputs are all good. */
  function Fund(req: Request, sign: Signer): Result<Funded, Failure>
  {
    Attempt(Wrap64(Total(req.utxos)), DustOf(req), req.feeRate, sign, 0, 0)
  }

  predicate Fundable(req: Request)
  {
    req.feeRate > 0 && req.utxos != [] && (forall i :: 0 <= i < |req.utxos| ==> Good(req.utxos[i])) && req.scriptsBuilt
  }

  /** Every output has a positive value, a transaction id and a script. */
  ghost predicate AllGood(utxos: seq<Utxo>) { forall u <- utxos :: u.value > 0 && u.usable }

  lemma {:induction false} AttemptErrors(input: int, dust: int, rate: int, sign: Signer, attempt: nat, required: int)
    ensures var r := Attempt(input, dust, rate, sign, attempt, required);
            r.Err? ==> r.error in {Insufficient, SigningFailed, Exhausted}
    decreases ATTEMPTS - attempt
  {
    hide Wrap64;
    if attempt < ATTEMPTS {
      var change := Wrap64(Wrap64(input - dust) - required);
      if change >= dust && sign(attempt, change).Some? {
        var fee, minFee := Wrap64(Wrap64(input - dust) - change), Wrap64(sign(attempt, change).value * rate);
        AttemptErrors(input, dust, rate, sign, attempt + 1, Wrap64(required + Wrap64(minFee - fee)));
      }
    }
  }

  method BuildRegistryTx(req: Request, sign: Signer) returns (r: Result<Funded, Failure>)
    ensures Fundable(req) ==> r == Fund(req, sign)
    ensures r.Ok? ==> Fundable(req)
    ensures !Fundable(req) ==>
              if req.feeRate <= 0 then r == Err(FeeRateNotPositive)
              else if req.utxos == [] then r == Err(NoUtxo)
              else if exists i :: 0 <= i < |req.utxos| && !Good(req.utxos[i]) then r.Err? && RefusedFor(req.utxos, r.error)
              else r == Err(NoScript)
    ensures r == Err(FeeRateNotPositive) <==> req.feeRate <= 0
    ensures r == Err(NoUtxo) <==> req.feeRate > 0 && |req.utxos| == 0
    ensures forall i :: 0 <= i < |req.utxos| ==>
              (r == Err(ValueNotPositive(i)) <==> req.feeRate > 0 && req.utxos[i].value <= 0 && AllGood(req.utxos[..i]))
    ensures forall i :: 0 <= i < |req.utxos| ==>
              (r == Err(Unusable(i)) <==>
               req.feeRate > 0 && req.utxos[i].value > 0 && !req.utxos[i].usable && AllGood(req.utxos[..i]))
    ensures r == Err(NoScript) <==> req.feeRate > 0 && |req.utxos| > 0 && AllGood(req.utxos) && !req.scriptsBuilt
  {
    hide Wrap64, Total, Attempt;
    AttemptErrors(Wrap64(Total(req.utxos)), DustOf(req), req.feeRate, sign, 0, 0);
    if req.feeRate <= 0 {
      return Err(FeeRateNotPositive);
    }
    var dustAmount := req.dustAmount;
    if dustAmount <= 0 {
      dustAmount := DEFAULT_DUST;
    }
    if req.utxos == [] {
      return Err(NoUtxo);
    }
    var sum := SumInputs(req.utxos);
    if sum.Err? {
      assert !Good(req.utxos[sum.error.index]);
      return Err(sum.error);
    }
    var inputValue := sum.value;
    if !req.scriptsBuilt {
      return Err(NoScript);
    }
    var requiredFee := 0;
    var attempt := 0;
    while attempt < ATTEMPTS
      invariant 0 <= attempt <= ATTEMPTS
      invariant Fund(req, sign) == Attempt(inputValue, dustAmount, req.feeRate, sign, attempt, requiredFee)
    {
      var changeAmount := Wrap64(Wrap64(inputValue - dustAmount) - requiredFee);
      if changeAmount < dustAmount {
        AttemptInsufficient(inputValue, dustAmount, req.feeRate, sign, attempt, requiredFee);
        return Err(Insufficient);
      }
      AttemptNext(inputValue, dustAmount, req.feeRate, sign, attempt, requiredFee);
      var signed := sign(attempt, changeAmount);
      if signed.None? {
        return Err(SigningFailed);
      }
      var fee := Wrap64(Wrap64(inputValue - dustAmount) - changeAmount);
      var minFee := Wrap64(signed.value * req.feeRate);
      if fee >= minFee {
        return Ok(Funded(changeAmount, fee, signed.value, attempt));
      }
      requiredFee := Wrap64(requiredFee + Wrap64(minFee - fee));
      attempt := attempt + 1;
    }
    AttemptNotOver(inputValue, dustAmount, req.feeRate, sign, attempt, requiredFee);
    return Err(Exhausted);
  }

  // ---- Attempts in exact arithmetic ----

  /** The fee that the transaction of a size must pay, as it is computed. */
  function MinFee(size: nat, rate: int): (m: int)
    ensures m <= MAX
  {
    WrapValue(size * rate);
    Wrap64(size * rate)
  }

  /** What is left of the inputs after the owner output. */
  function Available(req: Request): int { Wrap64(Wrap64(Total(req.utxos)) - DustOf(req)) }

  /** One attempt: whatever the signed size, neither change nor fee wraps around, the fee paid is the fee
      required, and a failed attempt requires the minimum fee of the size it saw. */
  lemma AttemptStep(input: int, dust: int, rate: int, sign: Signer, attempt: nat, required: int)
    requires attempt < ATTEMPTS && 1 <= dust <= Wrap64(input - dust) && 0 <= required <= MAX
    ensures var change := Wrap64(input - dust) - required;
            Attempt(input, dust, rate, sign, attempt, required) ==
            if change < dust then Err(Insufficient)
            else if sign(attempt, change).None? then Err(SigningFailed)
            else
              var size := sign(attempt, change).value;
              if required >= MinFee(size, rate) then Ok(Funded(change, required, size, attempt))
              else Attempt(input, dust, rate, sign, attempt + 1, MinFee(size, rate))
  {
    hide Wrap64, Attempt;
    var d := Wrap64(input - dust);
    WrapValue(input - dust);
    var change := d - required;
    WrapValue(change);
    WrapValue(required);
    if change < dust {
      AttemptInsufficient(input, dust, rate, sign, attempt, required);
    } else {
      AttemptNext(input, dust, rate, sign, attempt, required);
      if sign(attempt, change).Some? {
        var size := sign(attempt, change).value;
        WrapValue(MinFee(size, rate) - required);
        WrapValue(MinFee(size, rate));
      }
    }
  }

  lemma AttemptNotOver(input: int, dust: int, rate: int, sign: Signer, attempt: nat, required: int)
    ensures attempt >= ATTEMPTS ==> Attempt(input, dust, rate, sign, attempt, required) == Err(Exhausted)
  {}

  /** Only a request whose first change covers the dust limit gets past the first attempt. */
  lemma FirstChange(input: int, dust: int, rate: int, sign: Signer)
    ensures Wrap64(input - dust) < dust ==> Attempt(input, dust, rate, sign, 0, 0) == Err(Insufficient)
    ensures Wrap64(input - dust) <= MAX
  {
    hide Wrap64, Attempt;
    WrapValue(input - dust);
    WrapValue(Wrap64(input - dust));
    if Wrap64(input - dust) < dust {
      AttemptInsufficient(input, dust, rate, sign, 0, 0);
    }
  }

  /** Some attempt was signed with this size. */
  ghost predicate Signs(sign: Signer, size: nat)
  {
    exists attempt, change :: sign(attempt, change) == Some(size)
  }

  // ---- What a success pays ----

  ghost predicate PaidFrom(f: Funded, available: int, dust: int, rate: int, sign: Signer, required: int)
  {
    && f.change + f.fee == available && dust <= f.change && required <= f.fee && MinFee(f.size, rate) <= f.fee
    && f.attempt < ATTEMPTS && sign(f.attempt, f.change) == Some(f.size)
    && (f.fee == required || exists size :: Signs(sign, size) && f.fee == MinFee(size, rate))
  }

  lemma {:induction false} AttemptPays(input: int, dust: int, rate: int, sign: Signer, attempt: nat, required: int)
    requires 1 <= dust <= Wrap64(input - dust) && 0 <= required <= MAX
    requires Attempt(input, dust, rate, sign, attempt, required).Ok?
    ensures PaidFrom(Attempt(input, dust, rate, sign, attempt, required).value, Wrap64(input - dust), dust, rate, sign, required)
    decreases ATTEMPTS - attempt
  {
    hide Wrap64, Attempt, MinFee;
    AttemptNotOver(input, dust, rate, sign, attempt, required);
    AttemptStep(input, dust, rate, sign, attempt, required);
    var size := sign(attempt, Wrap64(input - dust) - required).value;
    assert Signs(sign, size);
    if required < MinFee(size, rate) {
      AttemptPays(input, dust, rate, sign, attempt + 1, MinFee(size, rate));
    }
  }

  /** On every success, whatever the signer: change and fee make up exactly what is left after the owner output, change
      covers the dust limit, the fee is not negative, and the size is that of the signed transaction. The inputs
      equal owner output, change and fee exactly when what is left of them fits a machine integer. */
  lemma FundedExactly(req: Request, sign: Signer)
    requires Fundable(req) && Fund(req, sign).Ok?
    ensures var f := Fund(req, sign).value;
            && f.change + f.fee == Available(req) && f.change >= DustOf(req) && f.fee >= 0
            && sign(f.attempt, f.change) == Some(f.size)
            && (Total(req.utxos) == DustOf(req) + f.change + f.fee <==> Total(req.utxos) - DustOf(req) <= MAX)
  {
    hide Wrap64, Attempt, Total;
    var input, dust := Wrap64(Total(req.utxos)), DustOf(req);
    FirstChange(input, dust, req.feeRate, sign);
    AttemptPays(input, dust, req.feeRate, sign, 0, 0);
    WrapSum(Total(req.utxos), -dust);
    TotalPositive(req.utxos);
    WrapValue(Total(req.utxos) - dust);
  }

  lemma {:induction false} TotalPositive(utxos: seq<Utxo>)
    requires forall i :: 0 <= i < |utxos| ==> Good(utxos[i])
    ensures |utxos| <= Total(utxos)
  {
    if utxos != [] {
      TotalPositive(utxos[..|utxos| - 1]);
    }
  }

  /** Every signed size lies in a range. */
  ghost predicate SizesWithin(sign: Signer, low: nat, high: nat)
  {
    forall attempt, change :: sign(attempt, change).Some? ==> low <= sign(attempt, change).value <= high
  }

  /** The fee never exceeds the rate times the largest signed size. */
  lemma FeeAtMostLargest(req: Request, sign: Signer, low: nat, high: nat)
    requires Fundable(req) && SizesWithin(sign, low, high) && Fund(req, sign).Ok?
    ensures Fund(req, sign).value.fee <= high * req.feeRate
  {
    hide Wrap64, Attempt, Total, MinFee;
    var input, dust := Wrap64(Total(req.utxos)), DustOf(req);
    FirstChange(input, dust, req.feeRate, sign);
    AttemptPays(input, dust, req.feeRate, sign, 0, 0);
    NotNegative(high, req.feeRate);
    var f := Fund(req, sign).value;
    if f.fee != 0 {
      var size: nat :| Signs(sign, size) && f.fee == MinFee(size, req.feeRate);
      assert size <= high;
      LargerProduct(size, high, req.feeRate);
      MinFeeOf(size, req.feeRate);
    }
  }

  lemma NotNegative(x: nat, y: int)
    requires y >= 0
    ensures 0 <= x * y
  {}

  lemma LargerProduct(a: nat, b: nat, rate: int)
    requires a <= b && rate > 0
    ensures a * rate <= b * rate
  {}

  lemma MinFeeOf(size: nat, rate: int)
    requires rate > 0
    ensures size * rate <= MAX <==> MinFee(size, rate) == size * rate
    ensures MinFee(size, rate) <= size * rate && MinFee(size, rate) <= MAX
  {
    hide Wrap64;
    NotNegative(size, rate);
    WrapValue(size * rate);
  }

  // ---- When the fee covers the rate ----

  /** Every signing of the request with sizes in the range, if it is funded, pays its rate. */
  ghost predicate AlwaysPaysRate(req: Request, low: nat, high: nat)
  {
    forall sign :: SizesWithin(sign, low, high) && Fund(req, sign).Ok? ==>
      Fund(req, sign).value.size * req.feeRate <= Fund(req, sign).value.fee
  }

  /** A size whose fee overflows, into an amount that the request can pay. */
  predicate Cheated(req: Request, size: nat)
  {
    size * req.feeRate > MAX && MinFee(size, req.feeRate) <= Available(req) - DustOf(req)
  }

  lemma UnderpaidIsCheated(req: Request, sign: Signer)
    requires Fundable(req) && Fund(req, sign).Ok?
    requires Fund(req, sign).value.fee < Fund(req, sign).value.size * req.feeRate
    ensures Available(req) >= DustOf(req) && Cheated(req, Fund(req, sign).value.size)
  {
    hide Wrap64, Attempt, Total, MinFee;
    var input, dust := Wrap64(Total(req.utxos)), DustOf(req);
    FirstChange(input, dust, req.feeRate, sign);
    AttemptPays(input, dust, req.feeRate, sign, 0, 0);
    MinFeeOf(Fund(req, sign).value.size, req.feeRate);
  }

  /** The signer whose transactions all have one size. */
  function Constant(size: nat): Signer { (attempt, change) => Some(size) }

  lemma CheatedUnderpays(req: Request, size: nat)
    requires Fundable(req) && Available(req) >= DustOf(req) && Cheated(req, size)
    ensures Fund(req, Constant(size)).Ok?
    ensures Fund(req, Constant(size)).value.size == size && Fund(req, Constant(size)).value.fee < size * req.feeRate
  {
    hide Wrap64, Attempt, Total, MinFee;
    var input, dust := Wrap64(Total(req.utxos)), DustOf(req);
    FirstChange(input, dust, req.feeRate, Constant(size));
    AttemptStep(input, dust, req.feeRate, Constant(size), 0, 0);
    var m := MinFee(size, req.feeRate);
    MinFeeOf(size, req.feeRate);
    if m > 0 {
      AttemptStep(input, dust, req.feeRate, Constant(size), 1, m);
    }
  }

  /** A request pays its rate under every signer with sizes in a range exactly when it cannot be funded at all
      or no size of the range has a fee that overflows into an amount the request can pay. */
  lemma FeeCoversRateIff(req: Request, low: nat, high: nat)
    requires Fundable(req)
    ensures AlwaysPaysRate(req, low, high) <==>
            Available(req) < DustOf(req) || forall size :: low <= size <= high ==> !Cheated(req, size)
  {
    hide Wrap64, Attempt, Total, MinFee, Cheated, Fund, Available, Fundable;
    if !AlwaysPaysRate(req, low, high) {
      var sign :| SizesWithin(sign, low, high) && Fund(req, sign).Ok?
                  && Fund(req, sign).value.size * req.feeRate > Fund(req, sign).value.fee;
      UnderpaidIsCheated(req, sign);
      FundedSize(req, sign);
    }
    if Available(req) >= DustOf(req) {
      forall size | low <= size <= high && Cheated(req, size)
        ensures !AlwaysPaysRate(req, low, high)
      {
        CheatedUnderpays(req, size);
        assert SizesWithin(Constant(size), low, high);
      }
    }
  }

  lemma FundedSize(req: Request, sign: Signer)
    requires Fundable(req) && Fund(req, sign).Ok?
    ensures exists attempt, change :: sign(attempt, change) == Some(Fund(req, sign).value.size)
  {
    hide Wrap64, Attempt, Total, Available;
    FundedExactly(req, sign);
  }

  // ---- Termination of the loop ----

  /** The sizes of failed attempts are new each time, as each has a larger minimum fee than all before. */
  lemma {:induction false} FailedSizesDiffer(input: int, dust: int, rate: int, sign: Signer, attempt: nat, required: int,
                                             seen: set<nat>)
    returns (sizes: set<nat>)
    requires 1 <= dust <= Wrap64(input - dust) && 0 <= required <= MAX
    requires attempt <= ATTEMPTS && |seen| == attempt
    requires forall size <- seen :: Signs(sign, size) && MinFee(size, rate) <= required
    requires Attempt(input, dust, rate, sign, attempt, required) == Err(Exhausted)
    ensures |sizes| == ATTEMPTS && forall size <- sizes :: Signs(sign, size)
    decreases ATTEMPTS - attempt
  {
    hide Wrap64, Attempt, MinFee;
    if attempt == ATTEMPTS {
      sizes := seen;
    } else {
      AttemptStep(input, dust, rate, sign, attempt, required);
      var size := sign(attempt, Wrap64(input - dust) - required).value;
      assert Signs(sign, size);
      sizes := FailedSizesDiffer(input, dust, rate, sign, attempt + 1, MinFee(size, rate), seen + {size});
    }
  }

  /** The loop uses up its attempts only when the signer gives twenty different sizes. */
  lemma ExhaustedMeansTwentySizes(req: Request, sign: Signer) returns (sizes: set<nat>)
    requires Fundable(req) && Fund(req, sign) == Err(Exhausted)
    ensures |sizes| == ATTEMPTS && forall size <- sizes :: Signs(sign, size)
  {
    hide Wrap64, Attempt, Total;
    var input, dust := Wrap64(Total(req.utxos)), DustOf(req);
    FirstChange(input, dust, req.feeRate, sign);
    sizes := FailedSizesDiffer(input, dust, req.feeRate, sign, 0, 0, {});
  }

  lemma {:induction false} RangeSize(sizes: set<nat>, low: nat, count: nat)
    requires forall x <- sizes :: low <= x < low + count
    ensures |sizes| <= count
    decreases count
  {
    if count > 0 {
      var last := low + count - 1;
      RangeSize(sizes - {last}, low, count - 1);
    } else {
      assert sizes == {};
    }
  }

  /** The loop uses up its attempts only when signed sizes differ by nineteen bytes or more. */
  lemma NeverExhausted(req: Request, sign: Signer, low: nat, high: nat)
    requires Fundable(req) && SizesWithin(sign, low, high) && high - low <= 18
    ensures Fund(req, sign) != Err(Exhausted)
  {
    hide Fund, Fundable;
    if Fund(req, sign) == Err(Exhausted) {
      var sizes := ExhaustedMeansTwentySizes(req, sign);
      RangeSize(sizes, low, 19);
    }
  }

  // ---- The bounds cannot be dropped ----

  /** A signer whose sizes span nineteen bytes: each fee raised makes the transaction one byte larger. */
  function Creeping(available: int): Signer
  {
    (attempt, change) =>
      var required := available - change;
      if required < 100 then Some(100) else if required >= 119 then Some(119) else Some((required + 1) as nat)
  }

  lemma {:induction false} CreepingExhausts(available: int, attempt: nat)
    requires 1000 <= available <= MAX - 1 && 1 <= attempt <= ATTEMPTS
    ensures Attempt(available + 1, 1, 1, Creeping(available), attempt, 99 + attempt) == Err(Exhausted)
    decreases ATTEMPTS - attempt
  {
    hide Wrap64, Attempt;
    var sign := Creeping(available);
    AttemptNotOver(available + 1, 1, 1, sign, attempt, 99 + attempt);
    if attempt < ATTEMPTS {
      CreepingExhausts(available, attempt + 1);
      WrapValue(available);
      WrapValue(100 + attempt);
      AttemptStep(available + 1, 1, 1, sign, attempt, 99 + attempt);
    }
  }

  /** A span of nineteen bytes is enough to use up the attempts: eighteen is the best bound. */
  lemma NineteenBytesExhaust()
    ensures var req := Request([Utxo(5001, true)], 1, 0, true);
            Fundable(req) && SizesWithin(Creeping(5000), 100, 119) && Fund(req, Creeping(5000)) == Err(Exhausted)
  {
    hide Wrap64, Attempt;
    var req := Request([Utxo(5001, true)], 1, 0, true);
    assert Total(req.utxos) == 5001 by {
      assert req.utxos[..0] == [];
    }
    WrapValue(5001);
    WrapValue(5000);
    WrapValue(100);
    AttemptStep(5001, 1, 1, Creeping(5000), 0, 0);
    CreepingExhausts(5000, 1);
  }

  /** When the inputs overflow a machine integer, a request is funded that accounts for a fraction of
      them only. */
  lemma OverflowLosesInputs()
    ensures var req := Request([Utxo(MAX, true), Utxo(MAX, true), Utxo(1003, true)], 1, 1, true);
            var f := Funded(900, 100, 100, 1);
            Fundable(req) && Fund(req, (attempt, change) => Some(100)) == Ok(f) && Total(req.utxos) == 2 * MAX + 2 + 1001
  {
    hide Wrap64, Attempt;
    var req := Request([Utxo(MAX, true), Utxo(MAX, true), Utxo(1003, true)], 1, 1, true);
    var sign: Signer := (attempt, change) => Some(100);
    assert req.utxos[..2] == [Utxo(MAX, true), Utxo(MAX, true)];
    assert req.utxos[..2][..1] == [Utxo(MAX, true)];
    assert Total([Utxo(MAX, true)]) == MAX by {
      assert [Utxo(MAX, true)][..0] == [];
    }
    WrapValue(2 * MAX + 1003);
    WrapValue(1000);
    WrapValue(0);
    assert Total(req.utxos) == 2 * MAX + 1003;
    WrapValue(100);
    AttemptStep(1001, 1, 1, sign, 0, 0);
    AttemptStep(1001, 1, 1, sign, 1, 100);
  }

  /** When rate times size overflows, a request is funded without any fee. */
  lemma OverflowDropsFee()
    ensures var req := Request([Utxo(1000, true)], 0x4000_0000_0000_0000, 1, true);
            Fundable(req) && Fund(req, (attempt, change) => Some(400)) == Ok(Funded(999, 0, 400, 0))
  {
    hide Wrap64, Attempt;
    var req := Request([Utxo(1000, true)], 0x4000_0000_0000_0000, 1, true);
    assert req.utxos[..0] == [];
    WrapValue(1000);
    WrapValue(999);
    WrapValue(0);
    WrapValue(400 * 0x4000_0000_0000_0000);
    AttemptNext(1000, 1, req.feeRate, (attempt, change) => Some(400), 0, 0);
  }
}
