/** Mempool deduplication: pins of one transaction are delivered again only after the time-to-live has passed. */
module MempoolDedupe {
  import opened Wrappers
  import opened GoStrings

  datatype Pin = Pin(id: string, genesisTransaction: string)

  /** One polled batch; absent pins are skipped. */
  datatype Call = Call(chain: string, pins: seq<Option<Pin>>, txIds: seq<string>, now: int)

  // ---- The key of a pin ----

  predicate IsDigits(s: string) { forall i :: 0 <= i < |s| ==> '0' <= s[i] <= '9' }

  /** The transaction part of a pin id "tx:..." or "tx" + "i" + digits; empty when the id has neither form. */
  function TxIdFromPinId(pinId: string): string
  {
    match Index(pinId, ':')
    case Some(at) => if at > 0 then TrimSpace(pinId[..at]) else InscriptionTx(pinId)
    case None => InscriptionTx(pinId)
  }

  function InscriptionTx(pinId: string): string
  {
    match LastIndex(pinId, 'i')
    case None => ""
    case Some(at) =>
      if at == 0 || at == |pinId| - 1 || !IsDigits(pinId[at + 1..]) then "" else TrimSpace(pinId[..at])
  }

  function MatchingTxId(pinId: string, txIds: seq<string>): string
  {
    if txIds == [] then pinId
    else
      var tx := TrimSpace(txIds[0]);
      if tx != "" && (pinId == tx || tx + "i" <= pinId || tx + ":" <= pinId) then tx
      else MatchingTxId(pinId, txIds[1..])
  }

  function StableId(pin: Pin, txIds: seq<string>): string
  {
    var genesis := TrimSpace(pin.genesisTransaction);
    var pinId := TrimSpace(pin.id);
    if genesis != "" then genesis
    else if TxIdFromPinId(pinId) != "" then TxIdFromPinId(pinId)
    else MatchingTxId(pinId, txIds)
  }

  // ---- Specification of one call ----

  predicate HasKey(call: Call, i: nat)
    requires i < |call.pins|
  {
    call.pins[i].Some? && StableId(call.pins[i].value, call.txIds) != ""
  }

  function KeyAt(call: Call, i: nat): string
    requires i < |call.pins| && HasKey(call, i)
  {
    call.chain + ":" + StableId(call.pins[i].value, call.txIds)
  }

  predicate Within(ttl: int, now: int, then_: int) { ttl <= 0 || now - then_ <= ttl }

  predicate SeenWithin(seen: map<string, int>, ttl: int, now: int, key: string)
  {
    key in seen && Within(ttl, now, seen[key])
  }

  /** No earlier pin of the batch has the same key. */
  predicate FirstInCall(call: Call, i: nat)
    requires i < |call.pins| && HasKey(call, i)
  {
    forall h :: 0 <= h < i && HasKey(call, h) ==> KeyAt(call, h) != KeyAt(call, i)
  }

  /** Whether the `i`-th pin passes: it has no key, or it is the first of its key and not seen within the time-to-live. */
  predicate Passes(seen: map<string, int>, ttl: int, call: Call, i: nat)
    requires i < |call.pins|
  {
    call.pins[i].Some?
    && (!HasKey(call, i) || (FirstInCall(call, i) && !SeenWithin(seen, ttl, call.now, KeyAt(call, i))))
  }

  /** The passing pins among the first `n`, in order. */
  function Passed(seen: map<string, int>, ttl: int, call: Call, n: nat): seq<Pin>
    requires n <= |call.pins|
  {
    if n == 0 then []
    else Passed(seen, ttl, call, n - 1) + if Passes(seen, ttl, call, n - 1) then [call.pins[n - 1].value] else []
  }

  /** The keys delivered among the first `n` pins. */
  ghost function DeliveredKeys(seen: map<string, int>, ttl: int, call: Call, n: nat): set<string>
    requires n <= |call.pins|
  {
    set i | 0 <= i < n && HasKey(call, i) && Passes(seen, ttl, call, i) :: KeyAt(call, i)
  }

  function Evicted(seen: map<string, int>, ttl: int, now: int): map<string, int>
  {
    map key | key in seen && !(ttl > 0 && now - seen[key] > ttl) :: seen[key]
  }

  ghost function SeenAfterCall(seen: map<string, int>, ttl: int, call: Call): map<string, int>
  {
    Evicted(seen, ttl, call.now)
    + map key | key in DeliveredKeys(seen, ttl, call, |call.pins|) :: call.now
  }

  // ---- The method ----

  class Engine {
    const ttl: int
    var mempoolSeen: map<string, int>

    constructor (ttl: int)
      ensures this.ttl == ttl && mempoolSeen == map[]
    {
      this.ttl := ttl;
      mempoolSeen := map[];
    }

    method EvictSeen(now: int)
      modifies this
      ensures mempoolSeen == Evicted(old(mempoolSeen), ttl, now)
    {
      var keys := mempoolSeen.Keys;
      while keys != {}
        invariant keys <= mempoolSeen.Keys <= old(mempoolSeen).Keys
        invariant forall k :: k in mempoolSeen ==> mempoolSeen[k] == old(mempoolSeen)[k]
        invariant forall k :: k in old(mempoolSeen) && k !in keys ==>
                    (k in mempoolSeen <==> !(ttl > 0 && now - old(mempoolSeen)[k] > ttl))
        decreases |keys|
      {
        var key :| key in keys;
        keys := keys - {key};
        if ttl > 0 && now - mempoolSeen[key] > ttl {
          mempoolSeen := mempoolSeen - {key};
        }
      }
    }

    method FilterSeenMempoolPins(call: Call) returns (filtered: seq<Pin>)
      modifies this
      ensures filtered == Passed(old(mempoolSeen), ttl, call, |call.pins|)
      ensures mempoolSeen == SeenAfterCall(old(mempoolSeen), ttl, call)
    {
      hide StableId, HasKey, Passes, Passed, DeliveredKeys, Evicted;
      ghost var seen := mempoolSeen;
      EvictSeen(call.now);
      filtered := [];
      var newKeys: map<string, int> := map[];
      NothingYet(seen, ttl, call);
      for i := 0 to |call.pins|
        invariant filtered == Passed(seen, ttl, call, i)
        invariant newKeys.Keys == DeliveredKeys(seen, ttl, call, i)
        invariant forall k :: k in newKeys ==> newKeys[k] == call.now
        invariant mempoolSeen == Evicted(seen, ttl, call.now)
      {
        PinStep(seen, ttl, call, i);
        if call.pins[i].None? {
          continue;
        }
        var pin := call.pins[i].value;
        var stableId := StableId(pin, call.txIds);
        if stableId == "" {
          filtered := filtered + [pin];
          continue;
        }
        var key := call.chain + ":" + stableId;
        if key in mempoolSeen && (ttl <= 0 || call.now - mempoolSeen[key] <= ttl) {
          continue;
        }
        if key in newKeys {
          continue;
        }
        newKeys := newKeys[key := call.now];
        filtered := filtered + [pin];
      }
      mempoolSeen := mempoolSeen + newKeys;
    }
  }

  lemma NothingYet(seen: map<string, int>, ttl: int, call: Call)
    ensures Passed(seen, ttl, call, 0) == [] && DeliveredKeys(seen, ttl, call, 0) == {}
  {}

  /** What one round of the loop has to do. */
  lemma PinStep(seen: map<string, int>, ttl: int, call: Call, i: nat)
    requires i < |call.pins|
    ensures call.pins[i].None? ==>
              Passed(seen, ttl, call, i + 1) == Passed(seen, ttl, call, i)
              && DeliveredKeys(seen, ttl, call, i + 1) == DeliveredKeys(seen, ttl, call, i)
    ensures call.pins[i].Some? && StableId(call.pins[i].value, call.txIds) == "" ==>
              Passed(seen, ttl, call, i + 1) == Passed(seen, ttl, call, i) + [call.pins[i].value]
              && DeliveredKeys(seen, ttl, call, i + 1) == DeliveredKeys(seen, ttl, call, i)
    ensures call.pins[i].Some? && StableId(call.pins[i].value, call.txIds) != "" ==>
              var key := call.chain + ":" + StableId(call.pins[i].value, call.txIds);
              var kept := Evicted(seen, ttl, call.now);
              var pass := !(key in kept && (ttl <= 0 || call.now - kept[key] <= ttl))
                          && key !in DeliveredKeys(seen, ttl, call, i);
              && Passed(seen, ttl, call, i + 1) ==
                 Passed(seen, ttl, call, i) + (if pass then [call.pins[i].value] else [])
              && DeliveredKeys(seen, ttl, call, i + 1) == DeliveredKeys(seen, ttl, call, i) + if pass then {key} else {}
  {
    hide StableId;
    DeliveredStep(seen, ttl, call, i);
    if HasKey(call, i) {
      FirstMeansNotDelivered(seen, ttl, call, i);
    }
    hide DeliveredKeys, FirstInCall;
  }

  lemma DeliveredStep(seen: map<string, int>, ttl: int, call: Call, i: nat)
    requires i < |call.pins|
    ensures DeliveredKeys(seen, ttl, call, i + 1) == DeliveredKeys(seen, ttl, call, i) +
            if HasKey(call, i) && Passes(seen, ttl, call, i) then {KeyAt(call, i)} else {}
  {
    hide StableId, Passes;
  }

  /** For a key not seen within the time-to-live, "first in the batch" and "not delivered yet" coincide. */
  lemma FirstMeansNotDelivered(seen: map<string, int>, ttl: int, call: Call, i: nat)
    requires i < |call.pins| && HasKey(call, i)
    ensures !SeenWithin(seen, ttl, call.now, KeyAt(call, i)) ==>
              (FirstInCall(call, i) <==> KeyAt(call, i) !in DeliveredKeys(seen, ttl, call, i))
  {
    hide StableId;
    if !SeenWithin(seen, ttl, call.now, KeyAt(call, i)) && !FirstInCall(call, i) {
      var h := FirstOccurrence(call, i);
      assert Passes(seen, ttl, call, h);
    }
  }

  lemma FirstOccurrence(call: Call, i: nat) returns (h: nat)
    requires i < |call.pins| && HasKey(call, i) && !FirstInCall(call, i)
    ensures h < i && HasKey(call, h) && KeyAt(call, h) == KeyAt(call, i) && FirstInCall(call, h)
    decreases i
  {
    hide StableId;
    h :| 0 <= h < i && HasKey(call, h) && KeyAt(call, h) == KeyAt(call, i);
    if !FirstInCall(call, h) {
      h := FirstOccurrence(call, h);
    }
  }

  // ---- Runs ----

  ghost function SeenBefore(ttl: int, calls: seq<Call>, j: nat): map<string, int>
    requires j <= |calls|
  {
    if j == 0 then map[] else SeenAfterCall(SeenBefore(ttl, calls, j - 1), ttl, calls[j - 1])
  }

  /** Call `j` of the run delivers a pin with this key. */
  ghost predicate Delivers(ttl: int, calls: seq<Call>, j: nat, key: string)
    requires j < |calls|
  {
    key in DeliveredKeys(SeenBefore(ttl, calls, j), ttl, calls[j], |calls[j].pins|)
  }

  ghost predicate Appears(call: Call, key: string)
  {
    exists i :: 0 <= i < |call.pins| && HasKey(call, i) && KeyAt(call, i) == key
  }

  ghost predicate ClockRuns(calls: seq<Call>)
  {
    forall i, j :: 0 <= i <= j < |calls| ==> calls[i].now <= calls[j].now
  }

  /** Every remembered key was delivered at the time remembered. */
  ghost predicate Known(ttl: int, calls: seq<Call>, j: nat)
    requires j <= |calls|
  {
    forall key :: key in SeenBefore(ttl, calls, j) ==> DeliveredAt(ttl, calls, j, key, SeenBefore(ttl, calls, j)[key])
  }

  ghost predicate DeliveredAt(ttl: int, calls: seq<Call>, j: nat, key: string, at: int)
    requires j <= |calls|
  {
    exists i :: 0 <= i < j && Delivers(ttl, calls, i, key) && calls[i].now == at
  }

  /** Every delivery is remembered, by itself or a later one, or is older than the time-to-live. */
  ghost predicate Kept(ttl: int, calls: seq<Call>, j: nat)
    requires j <= |calls|
  {
    forall i, key :: 0 <= i < j && Delivers(ttl, calls, i, key) ==> KeptOrOld(ttl, calls, j, i, key)
  }

  ghost predicate KeptOrOld(ttl: int, calls: seq<Call>, j: nat, i: nat, key: string)
    requires i < j <= |calls|
  {
    || (key in SeenBefore(ttl, calls, j) && SeenBefore(ttl, calls, j)[key] >= calls[i].now)
    || (ttl > 0 && calls[j - 1].now - calls[i].now > ttl)
  }

  lemma SeenStep(ttl: int, calls: seq<Call>, j: nat, key: string)
    requires 1 <= j <= |calls|
    ensures var before, seen, now := SeenBefore(ttl, calls, j - 1), SeenBefore(ttl, calls, j), calls[j - 1].now;
            && (key in seen <==>
                  Delivers(ttl, calls, j - 1, key) || (key in before && !(ttl > 0 && now - before[key] > ttl)))
            && (key in seen ==> seen[key] == if Delivers(ttl, calls, j - 1, key) then now else before[key])
  {
    hide DeliveredKeys;
  }

  lemma KnownStep(ttl: int, calls: seq<Call>, j: nat, key: string)
    requires 1 <= j <= |calls| && Known(ttl, calls, j - 1) && key in SeenBefore(ttl, calls, j)
    ensures DeliveredAt(ttl, calls, j, key, SeenBefore(ttl, calls, j)[key])
  {
    hide Delivers, SeenBefore;
    SeenStep(ttl, calls, j, key);
    if !Delivers(ttl, calls, j - 1, key) {
      var i :| 0 <= i < j - 1 && Delivers(ttl, calls, i, key)
               && calls[i].now == SeenBefore(ttl, calls, j - 1)[key];
      assert 0 <= i < j && Delivers(ttl, calls, i, key);
    }
  }

  lemma KeptStep(ttl: int, calls: seq<Call>, j: nat, i: nat, key: string)
    requires 1 <= j <= |calls| && Kept(ttl, calls, j - 1) && ClockRuns(calls)
    requires i < j && Delivers(ttl, calls, i, key)
    ensures KeptOrOld(ttl, calls, j, i, key)
  {
    hide Delivers, SeenBefore;
    SeenStep(ttl, calls, j, key);
    assert i < j - 1 ==> KeptOrOld(ttl, calls, j - 1, i, key);
    assert calls[i].now <= calls[j - 1].now;
    assert j >= 2 ==> calls[j - 2].now <= calls[j - 1].now;
  }

  lemma NothingSeen(ttl: int, calls: seq<Call>)
    ensures SeenBefore(ttl, calls, 0) == map[]
  {}

  lemma {:induction false} RunKnows(ttl: int, calls: seq<Call>, j: nat)
    requires j <= |calls|
    ensures Known(ttl, calls, j)
  {
    hide SeenBefore, DeliveredAt;
    if j == 0 {
      NothingSeen(ttl, calls);
    } else {
      RunKnows(ttl, calls, j - 1);
      forall key | key in SeenBefore(ttl, calls, j)
        ensures DeliveredAt(ttl, calls, j, key, SeenBefore(ttl, calls, j)[key])
      {
        KnownStep(ttl, calls, j, key);
      }
    }
  }

  lemma {:induction false} RunKeeps(ttl: int, calls: seq<Call>, j: nat)
    requires j <= |calls| && ClockRuns(calls)
    ensures Kept(ttl, calls, j)
  {
    hide Delivers, KeptOrOld;
    if j > 0 {
      RunKeeps(ttl, calls, j - 1);
      forall i, key | 0 <= i < j && Delivers(ttl, calls, i, key)
        ensures KeptOrOld(ttl, calls, j, i, key)
      {
        KeptStep(ttl, calls, j, i, key);
      }
    }
  }

  /** A key is remembered within the time-to-live exactly when some earlier call delivered it that recently. */
  lemma SeenWithinMeansDelivered(ttl: int, calls: seq<Call>, j: nat, key: string)
    requires j < |calls| && ClockRuns(calls)
    ensures SeenWithin(SeenBefore(ttl, calls, j), ttl, calls[j].now, key)
       <==> exists i :: 0 <= i < j && Delivers(ttl, calls, i, key) && Within(ttl, calls[j].now, calls[i].now)
  {
    hide Delivers, SeenBefore;
    RunKnows(ttl, calls, j);
    RunKeeps(ttl, calls, j);
    forall i | 0 <= i < j && Delivers(ttl, calls, i, key) && Within(ttl, calls[j].now, calls[i].now)
      ensures SeenWithin(SeenBefore(ttl, calls, j), ttl, calls[j].now, key)
    {
      assert KeptOrOld(ttl, calls, j, i, key);
      assert calls[j - 1].now <= calls[j].now;
    }
    if SeenWithin(SeenBefore(ttl, calls, j), ttl, calls[j].now, key) {
      assert DeliveredAt(ttl, calls, j, key, SeenBefore(ttl, calls, j)[key]);
    }
  }

  /** A pin passes exactly when it has no key, or is the first of its key in its batch and no earlier call
      delivered that key within the time-to-live. */
  lemma PassesIff(ttl: int, calls: seq<Call>, j: nat, i: nat)
    requires j < |calls| && i < |calls[j].pins| && calls[j].pins[i].Some? && ClockRuns(calls)
    ensures Passes(SeenBefore(ttl, calls, j), ttl, calls[j], i) <==>
            !HasKey(calls[j], i)
            || (FirstInCall(calls[j], i)
                && forall h :: 0 <= h < j && Delivers(ttl, calls, h, KeyAt(calls[j], i)) ==>
                     !Within(ttl, calls[j].now, calls[h].now))
  {
    hide Delivers, SeenBefore, StableId, FirstInCall, Within;
    if HasKey(calls[j], i) {
      SeenWithinMeansDelivered(ttl, calls, j, KeyAt(calls[j], i));
    }
  }

  /** A call delivers a key exactly when the key appears in it and no earlier call delivered it within the
      time-to-live; with a non-positive time-to-live a key is delivered once for good. */
  lemma DeliversIff(ttl: int, calls: seq<Call>, j: nat, key: string)
    requires j < |calls| && ClockRuns(calls)
    ensures Delivers(ttl, calls, j, key) <==>
            Appears(calls[j], key)
            && forall h :: 0 <= h < j && Delivers(ttl, calls, h, key) ==> !Within(ttl, calls[j].now, calls[h].now)
  {
    hide SeenBefore, StableId, Within;
    SeenWithinMeansDelivered(ttl, calls, j, key);
    var seen := SeenBefore(ttl, calls, j);
    if Appears(calls[j], key) && !SeenWithin(seen, ttl, calls[j].now, key) {
      var i :| 0 <= i < |calls[j].pins| && HasKey(calls[j], i) && KeyAt(calls[j], i) == key;
      var h: nat := i;
      if !FirstInCall(calls[j], i) {
        h := FirstOccurrence(calls[j], i);
      }
      assert Passes(seen, ttl, calls[j], h);
    }
  }

  /** Two deliveries of one key are more than the time-to-live apart. */
  lemma DeliveriesApart(ttl: int, calls: seq<Call>, i: nat, j: nat, key: string)
    requires ttl > 0 && i < j < |calls| && ClockRuns(calls)
    requires Delivers(ttl, calls, i, key) && Delivers(ttl, calls, j, key)
    ensures calls[j].now - calls[i].now > ttl
  {
    hide Delivers;
    DeliversIff(ttl, calls, j, key);
  }

  // ---- Output is a subsequence ----

  ghost predicate Subsequence(a: seq<Pin>, b: seq<Option<Pin>>)
  {
    a == [] || (b != [] && (Subsequence(a, b[..|b| - 1])
                            || (b[|b| - 1] == Some(a[|a| - 1]) && Subsequence(a[..|a| - 1], b[..|b| - 1]))))
  }

  lemma SubsequenceGrows(a: seq<Pin>, b: seq<Option<Pin>>)
    requires b != [] && Subsequence(a, b[..|b| - 1])
    ensures Subsequence(a, b)
  {}

  lemma {:induction false} PassedIsSubsequence(seen: map<string, int>, ttl: int, call: Call, n: nat)
    requires n <= |call.pins|
    ensures Subsequence(Passed(seen, ttl, call, n), call.pins[..n])
  {
    hide HasKey, FirstInCall, SeenWithin;
    if n > 0 {
      PassedIsSubsequence(seen, ttl, call, n - 1);
      assert call.pins[..n][..n - 1] == call.pins[..n - 1];
      var before, after := Passed(seen, ttl, call, n - 1), Passed(seen, ttl, call, n);
      if Passes(seen, ttl, call, n - 1) {
        assert after[..|after| - 1] == before;
      } else {
        assert after == before;
        SubsequenceGrows(before, call.pins[..n]);
      }
    }
  }

  // ---- Keys of one transaction ----

  lemma TrimShrinks(s: string)
    requires s != "" && IsSpace(s[0])
    ensures |TrimSpace(s)| < |s|
  {}

  lemma TrimmedEnds(s: string)
    requires TrimSpace(s) == s && s != ""
    ensures !IsSpace(s[0])
  {
    if IsSpace(s[0]) {
      TrimShrinks(s);
    }
  }

  lemma TrimKeeps(s: string)
    requires s != "" && !IsSpace(s[0]) && !IsSpace(s[|s| - 1])
    ensures TrimSpace(s) == s
  {}

  lemma NoEarlierI(tx: string, digits: string)
    requires IsDigits(digits)
    ensures LastIndex(tx + "i" + digits, 'i') == Some(|tx|)
  {
    assert tx + ['i'] + digits == tx + "i" + digits;
    LastIndexOf(tx, 'i', digits);
  }

  /** All inscription pins of one transaction share the transaction id as their key part. */
  lemma InscriptionsShareKey(pin: Pin, txIds: seq<string>, tx: string, digits: string)
    requires TrimSpace(pin.genesisTransaction) == ""
    requires tx != "" && TrimSpace(tx) == tx && ':' !in tx && digits != "" && IsDigits(digits)
    requires pin.id == tx + "i" + digits
    ensures StableId(pin, txIds) == tx
  {
    hide TrimSpace, LastIndex, Index;
    var id := pin.id;
    TrimmedEnds(tx);
    assert id[0] == tx[0] && id[|id| - 1] == digits[|digits| - 1];
    TrimKeeps(id);
    NoEarlierI(tx, digits);
    NoColon(tx, digits);
    assert id[..|tx|] == tx && id[|tx| + 1..] == digits;
  }

  lemma NoColon(tx: string, digits: string)
    requires ':' !in tx && IsDigits(digits)
    ensures Index(tx + "i" + digits, ':').None?
  {
    var id := tx + "i" + digits;
    assert forall k :: 0 <= k < |id| ==> id[k] != ':';
  }

  // ---- The key of any pin ----

  ghost predicate ColonParts(id: string, tx: string, rest: string) { tx != "" && ':' !in tx && id == tx + ":" + rest }

  ghost predicate InscriptionParts(id: string, tx: string, digits: string)
  {
    && tx != "" && digits != "" && id == tx + "i" + digits
    && forall k :: 0 <= k < |digits| ==> 48 <= digits[k] as int <= 57
  }

  ghost predicate NamesTransaction(id: string)
  {
    (exists tx, rest :: ColonParts(id, tx, rest)) || exists tx, digits :: InscriptionParts(id, tx, digits)
  }

  /** `tx` is the id, or the id goes on after it with an "i" or a colon. */
  ghost predicate Matches(id: string, tx: string)
  {
    tx != "" && (id == tx || (exists rest :: id == tx + "i" + rest) || exists rest :: id == tx + ":" + rest)
  }

  lemma ColonPartsIff(id: string, tx: string, rest: string)
    ensures ColonParts(id, tx, rest) <==>
            var at := Index(id, ':'); at.Some? && at.value > 0 && tx == id[..at.value] && rest == id[at.value + 1..]
  {
    if ColonParts(id, tx, rest) {
      assert id[..|tx|] == tx && id[|tx|] == ':' && id[|tx| + 1..] == rest;
      FirstIndex(id, |tx|, ':');
    }
    var at := Index(id, ':');
    if at.Some? {
      assert id == id[..at.value] + ":" + id[at.value + 1..];
    }
  }

  lemma InscriptionPartsIff(id: string, tx: string, digits: string)
    ensures InscriptionParts(id, tx, digits) <==>
            var at := LastIndex(id, 'i');
            at.Some? && at.value > 0 && tx == id[..at.value] && digits == id[at.value + 1..] && digits != "" && IsDigits(digits)
  {
    assert forall k :: 0 <= k < |digits| ==> (48 <= digits[k] as int <= 57 <==> '0' <= digits[k] <= '9');
    if InscriptionParts(id, tx, digits) {
      NoEarlierI(tx, digits);
      assert id[..|tx|] == tx && id[|tx| + 1..] == digits;
    }
    var at := LastIndex(id, 'i');
    if at.Some? {
      assert id == id[..at.value] + "i" + id[at.value + 1..];
    }
  }

  lemma BeginsBare(s: string, n: nat)
    requires TrimSpace(s) == s && 0 < n <= |s|
    ensures TrimSpace(s[..n]) != ""
  {
    TrimmedEnds(s);
    TrimSpaceTrims(s[..n]);
    assert Blank(s[..n][0]) == IsSpace(s[0]);
  }

  /** Which transaction an id names: the part before its first colon, or else before its last "i" and digits. */
  lemma TransactionRead(id: string)
    requires TrimSpace(id) == id
    ensures forall tx, rest :: ColonParts(id, tx, rest) ==> TxIdFromPinId(id) == TrimSpace(tx) != ""
    ensures (forall tx, rest :: !ColonParts(id, tx, rest)) ==>
              forall tx, digits :: InscriptionParts(id, tx, digits) ==> TxIdFromPinId(id) == TrimSpace(tx) != ""
    ensures !NamesTransaction(id) ==> TxIdFromPinId(id) == ""
  {
    hide TrimSpace, Index, LastIndex, IsDigits, ColonParts, InscriptionParts;
    forall tx, rest
      ensures ColonParts(id, tx, rest) <==>
              var at := Index(id, ':'); at.Some? && at.value > 0 && tx == id[..at.value] && rest == id[at.value + 1..]
    {
      ColonPartsIff(id, tx, rest);
    }
    forall tx, digits
      ensures InscriptionParts(id, tx, digits) <==>
              var at := LastIndex(id, 'i');
              at.Some? && at.value > 0 && tx == id[..at.value] && digits == id[at.value + 1..] && digits != "" && IsDigits(digits)
    {
      InscriptionPartsIff(id, tx, digits);
    }
    var colon, last := Index(id, ':'), LastIndex(id, 'i');
    if colon.Some? && colon.value > 0 {
      BeginsBare(id, colon.value);
      assert ColonParts(id, id[..colon.value], id[colon.value + 1..]);
    }
    if last.Some? && last.value > 0 {
      BeginsBare(id, last.value);
      var tail := id[last.value + 1..];
      assert (last.value < |id| - 1) == (tail != "");
      assert tail != "" && IsDigits(tail) ==> InscriptionParts(id, id[..last.value], tail);
    }
  }

  lemma MatchesIff(id: string, tx: string)
    ensures Matches(id, tx) <==> tx != "" && (id == tx || tx + "i" <= id || tx + ":" <= id)
  {
    if tx + "i" <= id {
      assert id == tx + "i" + id[|tx| + 1..];
    }
    if tx + ":" <= id {
      assert id == tx + ":" + id[|tx| + 1..];
    }
  }

  /** An id that names no transaction has the first transaction of the batch that matches it, or itself. */
  lemma {:induction false} FirstMatch(id: string, txIds: seq<string>)
    ensures forall j :: 0 <= j < |txIds| && Matches(id, TrimSpace(txIds[j]))
                        && (forall i :: 0 <= i < j ==> !Matches(id, TrimSpace(txIds[i]))) ==>
              MatchingTxId(id, txIds) == TrimSpace(txIds[j])
    ensures (forall j :: 0 <= j < |txIds| ==> !Matches(id, TrimSpace(txIds[j]))) ==> MatchingTxId(id, txIds) == id
  {
    hide TrimSpace, Matches;
    if txIds != [] {
      MatchesIff(id, TrimSpace(txIds[0]));
      var rest := txIds[1..];
      FirstMatch(id, rest);
      forall j | 0 <= j < |txIds| && Matches(id, TrimSpace(txIds[j])) && forall i :: 0 <= i < j ==> !Matches(id, TrimSpace(txIds[i]))
        ensures MatchingTxId(id, txIds) == TrimSpace(txIds[j])
      {
        if j > 0 {
          assert txIds[0] == txIds[0] && !Matches(id, TrimSpace(txIds[0]));
          assert rest[j - 1] == txIds[j];
          assert forall i :: 0 <= i < j - 1 ==> rest[i] == txIds[i + 1];
        }
      }
      if forall j :: 0 <= j < |txIds| ==> !Matches(id, TrimSpace(txIds[j])) {
        assert forall j :: 0 <= j < |rest| ==> rest[j] == txIds[j + 1];
      }
    }
  }

  /** The key of a pin: its genesis transaction; or else the transaction its id names; or else the first transaction of the
      batch that its id matches; or else its id. */
  lemma KeyRead(pin: Pin, txIds: seq<string>)
    ensures TrimSpace(pin.genesisTransaction) != "" ==> StableId(pin, txIds) == TrimSpace(pin.genesisTransaction)
    ensures TrimSpace(pin.genesisTransaction) == "" ==>
              var id, k := TrimSpace(pin.id), StableId(pin, txIds);
              && (forall tx, rest :: ColonParts(id, tx, rest) ==> k == TrimSpace(tx))
              && ((forall tx, rest :: !ColonParts(id, tx, rest)) ==>
                    forall tx, digits :: InscriptionParts(id, tx, digits) ==> k == TrimSpace(tx))
              && (!NamesTransaction(id) ==>
                    && (forall j :: 0 <= j < |txIds| && Matches(id, TrimSpace(txIds[j]))
                                    && (forall i :: 0 <= i < j ==> !Matches(id, TrimSpace(txIds[i]))) ==>
                          k == TrimSpace(txIds[j]))
                    && ((forall j :: 0 <= j < |txIds| ==> !Matches(id, TrimSpace(txIds[j]))) ==> k == id))
  {
    hide TrimSpace, TxIdFromPinId, MatchingTxId, ColonParts, InscriptionParts, Matches, NamesTransaction;
    TrimSpaceIdempotent(pin.id);
    TransactionRead(TrimSpace(pin.id));
    FirstMatch(TrimSpace(pin.id), txIds);
  }

  /** The `i`-th pin of the batch is an inscription of transaction `tx`. */
  ghost predicate InscriptionOf(call: Call, i: nat, tx: string)
    requires i < |call.pins|
  {
    && call.pins[i].Some? && TrimSpace(call.pins[i].value.genesisTransaction) == ""
    && tx != "" && TrimSpace(tx) == tx && ':' !in tx
    && exists digits :: digits != "" && IsDigits(digits) && call.pins[i].value.id == tx + "i" + digits
  }

  lemma InscriptionKey(call: Call, i: nat, tx: string)
    requires i < |call.pins| && InscriptionOf(call, i, tx)
    ensures call.pins[i].Some? && HasKey(call, i) && KeyAt(call, i) == call.chain + ":" + tx
  {
    hide TrimSpace, StableId, IsDigits;
    var digits :| digits != "" && IsDigits(digits) && call.pins[i].value.id == tx + "i" + digits;
    InscriptionsShareKey(call.pins[i].value, call.txIds, tx, digits);
  }

  lemma OneFirst(call: Call, i: nat, k: nat)
    requires i < |call.pins| && k < |call.pins| && i != k
    requires HasKey(call, i) && HasKey(call, k) && KeyAt(call, i) == KeyAt(call, k)
    ensures !FirstInCall(call, i) || !FirstInCall(call, k)
  {}

  /** Once an inscription of a transaction has passed, every other one of that transaction is dropped: those of its own
      batch, and those of later batches within the time-to-live. */
  lemma SiblingsDropped(ttl: int, calls: seq<Call>, j: nat, i: nat, l: nat, k: nat, tx: string)
    requires j <= l < |calls| && i < |calls[j].pins| && k < |calls[l].pins| && ClockRuns(calls)
    requires InscriptionOf(calls[j], i, tx) && InscriptionOf(calls[l], k, tx) && calls[j].chain == calls[l].chain
    requires Passes(SeenBefore(ttl, calls, j), ttl, calls[j], i)
    requires if l == j then k != i else Within(ttl, calls[l].now, calls[j].now)
    ensures !Passes(SeenBefore(ttl, calls, l), ttl, calls[l], k)
  {
    hide InscriptionOf, SeenBefore, HasKey, Within;
    InscriptionKey(calls[j], i, tx);
    InscriptionKey(calls[l], k, tx);
    if l == j {
      OneFirst(calls[j], i, k);
    } else {
      hide Passes;
      assert Delivers(ttl, calls, j, KeyAt(calls[l], k)) by {
        assert i < |calls[j].pins| && KeyAt(calls[j], i) == KeyAt(calls[l], k);
      }
      PassesIff(ttl, calls, l, k);
    }
  }

  /** Two inscriptions of one transaction in one batch. */
  function Siblings(now: int): Call
  {
    Call("btc", [Some(Pin("ti0", "")), Some(Pin("ti1", ""))], ["t"], now)
  }

  lemma SiblingsAreInscriptions(now: int)
    ensures InscriptionOf(Siblings(now), 0, "t") && InscriptionOf(Siblings(now), 1, "t")
  {
    hide TrimSpace;
    TrimKeeps("t");
    BlankStays();
    assert IsDigits("0") && IsDigits("1") && "ti0" == "t" + "i" + "0" && "ti1" == "t" + "i" + "1" && |"t"| == 1;
  }

  lemma BlankStays()
    ensures TrimSpace("") == ""
  {}

  /** Polled once and again, the first of them passes once, the second never while the time-to-live lasts. */
  lemma SecondInscriptionLost(ttl: int, now: int, later: int)
    requires now <= later && Within(ttl, later, now)
    ensures var calls := [Siblings(now), Siblings(later)];
            && Passed(SeenBefore(ttl, calls, 0), ttl, calls[0], 2) == [Pin("ti0", "")]
            && Passed(SeenBefore(ttl, calls, 1), ttl, calls[1], 2) == []
  {
    hide InscriptionOf, HasKey, Within, StableId;
    var calls := [Siblings(now), Siblings(later)];
    SiblingsAreInscriptions(now);
    SiblingsAreInscriptions(later);
    NothingSeen(ttl, calls);
    InscriptionKey(calls[0], 0, "t");
    assert Passes(SeenBefore(ttl, calls, 0), ttl, calls[0], 0);
    SiblingsDropped(ttl, calls, 0, 0, 0, 1, "t");
    SiblingsDropped(ttl, calls, 0, 0, 1, 0, "t");
    SiblingsDropped(ttl, calls, 0, 0, 1, 1, "t");
    TwoPins(SeenBefore(ttl, calls, 0), ttl, calls[0]);
    TwoPins(SeenBefore(ttl, calls, 1), ttl, calls[1]);
  }

  lemma TwoPins(seen: map<string, int>, ttl: int, call: Call)
    requires |call.pins| == 2
    ensures Passed(seen, ttl, call, 2) ==
            (if Passes(seen, ttl, call, 0) then [call.pins[0].value] else [])
            + if Passes(seen, ttl, call, 1) then [call.pins[1].value] else []
  {
    hide StableId, HasKey, SeenWithin;
    NothingYet(seen, ttl, call);
    assert Passed(seen, ttl, call, 1) ==
           Passed(seen, ttl, call, 0) + if Passes(seen, ttl, call, 0) then [call.pins[0].value] else [];
    assert Passed(seen, ttl, call, 1) == if Passes(seen, ttl, call, 0) then [call.pins[0].value] else [];
  }
}
