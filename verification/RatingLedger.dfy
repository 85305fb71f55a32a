/** The rating ledger: each aggregate is the total of the stored rating pins resolved to its service. */
module RatingLedger {
  import opened SkillService
  import opened SkillHistory

  // ---- Totals over the stored rating pins ----

  predicate CountsFor(r: RatingPin, k: Key) { r.chain == k.chain && r.source == k.pin }

  /** Sum of the rates of the rating pins that count for `k`. */
  ghost function TotalRate(rs: set<RatingPin>, k: Key): int
    decreases |rs|
  {
    if rs == {} then 0
    else
      var r :| r in rs;
      (if CountsFor(r, k) then r.rate else 0) + TotalRate(rs - {r}, k)
  }

  ghost function Counted(rs: set<RatingPin>, k: Key): set<RatingPin>
  {
    set r | r in rs && CountsFor(r, k)
  }

  lemma {:induction false} TotalWithout(rs: set<RatingPin>, x: RatingPin, k: Key)
    requires x in rs
    ensures TotalRate(rs, k) == (if CountsFor(x, k) then x.rate else 0) + TotalRate(rs - {x}, k)
    decreases |rs|
  {
    hide CountsFor;
    var r :| r in rs && TotalRate(rs, k) == (if CountsFor(r, k) then r.rate else 0) + TotalRate(rs - {r}, k);
    if r != x {
      TotalWithout(rs - {r}, x, k);
      TotalWithout(rs - {x}, r, k);
      assert rs - {r} - {x} == rs - {x} - {r};
    }
  }

  lemma TotalWith(rs: set<RatingPin>, x: RatingPin, k: Key)
    requires x !in rs
    ensures TotalRate(rs + {x}, k) == TotalRate(rs, k) + (if CountsFor(x, k) then x.rate else 0)
    ensures |Counted(rs + {x}, k)| == |Counted(rs, k)| + (if CountsFor(x, k) then 1 else 0)
  {
    hide CountsFor;
    TotalWithout(rs + {x}, x, k);
    assert rs + {x} - {x} == rs;
    if CountsFor(x, k) {
      assert Counted(rs + {x}, k) == Counted(rs, k) + {x};
    } else {
      assert Counted(rs + {x}, k) == Counted(rs, k);
    }
  }

  // ---- Conservation ----

  /** The stored rating pins are keyed by themselves and carry a rate in range. */
  ghost predicate GoodRatings(s: State)
  {
    forall p :: p in s.ratings ==>
      && s.ratings[p].chain == p.chain && s.ratings[p].pinId == p.pin && p.chain != "" && 1 <= s.ratings[p].rate <= 5
  }

  ghost predicate Balanced(s: State, k: Key)
  {
    var rs := s.ratings.Values;
    if k in s.aggregates
    then s.aggregates[k] == Aggregate(k.chain, k.pin, TotalRate(rs, k), |Counted(rs, k)|) && k.pin != ""
         && |Counted(rs, k)| >= 1
    else k.pin != "" ==> TotalRate(rs, k) == 0 && |Counted(rs, k)| == 0
  }

  ghost predicate Ledger(s: State)
  {
    GoodRatings(s) && forall k :: Balanced(s, k)
  }

  lemma NewRatingValue(s: State, p: Key, x: RatingPin)
    requires GoodRatings(s) && p !in s.ratings && x.chain == p.chain && x.pinId == p.pin
    ensures x !in s.ratings.Values && s.ratings[p := x].Values == s.ratings.Values + {x}
  {
    var m := s.ratings[p := x];
    assert p in m.Keys;
    forall v
      ensures v in m.Values <==> v in s.ratings.Values + {x}
    {
      if v in m.Values {
        var q :| q in m && m[q] == v;
      }
      if v in s.ratings.Values {
        var q :| q in s.ratings && s.ratings[q] == v;
        assert q in m && m[q] == v;
      }
      if v == x {
        assert m[p] == x;
      }
    }
  }

  /** What an accepted rating pin writes: itself, and its rate to the aggregate it is resolved to. */
  ghost predicate RatingWritten(s: State, s': State, p: Key, x: RatingPin)
  {
    && s'.ratings == s.ratings[p := x] && x.chain == p.chain != "" && x.pinId == p.pin && 1 <= x.rate <= 5
    && s'.aggregates == if x.source == "" then s.aggregates else Bump(s.aggregates, x.chain, x.source, x.rate)
  }

  lemma RatingIsWritten(s: State, pin: Pin) returns (x: RatingPin)
    requires pin.id != "" && pin.chainName != "" && RateSummary(pin).Some? && Key(pin.chainName, pin.id) !in s.ratings
    ensures RatingWritten(s, ProcessRating(s, pin), Key(pin.chainName, pin.id), x)
    ensures x.source == RatedSource(s, pin.chainName, RateSummary(pin).value.serviceId)
    ensures x.rate == RateSummary(pin).value.rate
  {
    hide ProviderOf, RateSummary, RatedSource, Bump;
    x := NewRating(pin, RateSummary(pin).value, RatedSource(s, pin.chainName, RateSummary(pin).value.serviceId));
  }

  lemma BalanceStep(s: State, s': State, p: Key, x: RatingPin, k: Key)
    requires GoodRatings(s) && p !in s.ratings && RatingWritten(s, s', p, x) && Balanced(s, k)
    ensures Balanced(s', k)
  {
    hide TotalRate, Counted;
    NewRatingValue(s, p, x);
    TotalWith(s.ratings.Values, x, k);
  }

  lemma RatingKeepsLedger(s: State, pin: Pin)
    requires Ledger(s)
    ensures Ledger(ProcessRating(s, pin))
  {
    hide RateSummary, Balanced;
    var s' := ProcessRating(s, pin);
    if s' != s {
      hide ProcessRating;
      var x := RatingIsWritten(s, pin);
      forall k
        ensures Balanced(s', k)
      {
        BalanceStep(s, s', Key(pin.chainName, pin.id), x, k);
      }
    }
  }

  lemma ProcessKeepsLedger(s: State, h: History, cat: Catalogue, pin: Pin)
    requires Inv(s, h, cat) && Ledger(s)
    ensures Ledger(Process(s, pin))
  {
    hide Ledger, Inv, Operation, ProtocolPath, IsServiceDelivery, IndexKeys, ServiceSummary, ProviderOf, Process,
         ProcessService, ProcessRating;
    if Accepted(s, pin).Some? {
      AcceptedIsProcessed(s, pin);
      if Operation(pin) != CREATE {
        var k := VersionIsWritten(s, h, cat, pin);
      }
      LedgerFrame(s, Process(s, pin));
    } else if ProtocolPath(pin.path) != PATH_RATE {
      NotAccepted(s, pin);
    } else {
      RatingProcessed(s, pin);
      RatingKeepsLedger(s, pin);
    }
  }

  lemma LedgerFrame(s: State, s': State)
    requires Ledger(s) && s'.ratings == s.ratings && s'.aggregates == s.aggregates
    ensures Ledger(s')
  {
    forall k
      ensures Balanced(s', k)
    {
      assert Balanced(s, k);
    }
  }

  lemma EmptyLedger()
    ensures Ledger(EMPTY)
  {
    forall k
      ensures Balanced(EMPTY, k)
    {
      assert EMPTY.ratings.Values == {};
      assert Counted({}, k) == {};
    }
  }

  /** In every reachable store each aggregate is the exact total and number of the rating pins resolved to it. */
  lemma {:induction false} Conservation(pins: seq<Pin>, cat: Catalogue)
    requires AllWellNamed(pins, cat)
    ensures Ledger(Run(EMPTY, pins))
  {
    hide Process, HistoryOf, WellNamed, Ledger;
    if pins == [] {
      EmptyLedger();
    } else {
      var n := |pins| - 1;
      Conservation(pins[..n], cat);
      ReachableStates(pins[..n], cat);
      ProcessKeepsLedger(Run(EMPTY, pins[..n]), HistoryOf(pins[..n]), cat, pins[n]);
    }
  }

  lemma {:induction false} TotalBounds(rs: set<RatingPin>, k: Key)
    requires forall r :: r in rs ==> 1 <= r.rate <= 5
    ensures |Counted(rs, k)| <= TotalRate(rs, k) <= 5 * |Counted(rs, k)|
    decreases |rs|
  {
    hide CountsFor;
    if rs == {} {
      assert Counted(rs, k) == {};
    } else {
      var r :| r in rs;
      TotalBounds(rs - {r}, k);
      TotalWith(rs - {r}, r, k);
      assert rs - {r} + {r} == rs;
    }
  }

  /** The average of every reachable aggregate lies between one and five. */
  lemma AverageInRange(pins: seq<Pin>, cat: Catalogue, k: Key)
    requires AllWellNamed(pins, cat) && k in Run(EMPTY, pins).aggregates
    ensures var a := Run(EMPTY, pins).aggregates[k]; 1 <= a.count <= a.sum <= 5 * a.count
  {
    hide Run;
    var s := Run(EMPTY, pins);
    Conservation(pins, cat);
    assert Balanced(s, k);
    forall r | r in s.ratings.Values
      ensures 1 <= r.rate <= 5
    {
      var p :| p in s.ratings && s.ratings[p] == r;
    }
    TotalBounds(s.ratings.Values, k);
  }

  // ---- Replays and normalisation ----

  /** A rating pin that is stored, counted or not, has no effect when delivered again. */
  lemma {:induction false} RatingReplay(s: State, pin: Pin)
    requires Key(pin.chainName, pin.id) in s.ratings
    ensures ProcessRating(s, pin) == s
  {}

  /** Any accepted version of a service resolves to its source. */
  lemma RatedResolves(s: State, h: History, cat: Catalogue, serviceId: string, k: Key)
    requires Inv(s, h, cat) && k in h && serviceId in h[k] && serviceId != ""
    ensures RatedSource(s, k.chain, serviceId) == k.pin && k.pin != ""
  {
    var i :| 0 <= i < |h[k]| && h[k][i] == serviceId;
    PathResolves(s, h, cat, k, i);
    assert GoodService(s, h, k, cat);
  }

  /** The ledger after a rating of `k`: that aggregate grows by one rating, the others stay. */
  ghost predicate Bumped(s: State, s': State, k: Key, rate: int)
  {
    var sum := if k in s.aggregates then s.aggregates[k].sum else 0;
    var count := if k in s.aggregates then s.aggregates[k].count else 0;
    s'.aggregates == s.aggregates[k := Aggregate(k.chain, k.pin, sum + rate, count + 1)]
  }

  /** A rating that names any accepted version of a service counts for that service, once. */
  lemma RatingNormalised(s: State, h: History, cat: Catalogue, pin: Pin, k: Key)
    requires Inv(s, h, cat) && Ledger(s)
    requires pin.id != "" && pin.chainName != "" && RateSummary(pin).Some? && Key(pin.chainName, pin.id) !in s.ratings
    requires k in h && k.chain == pin.chainName && RateSummary(pin).value.serviceId in h[k]
    requires RateSummary(pin).value.serviceId != ""
    ensures ProcessRating(s, pin).ratings[Key(pin.chainName, pin.id)].source == k.pin
    ensures Bumped(s, ProcessRating(s, pin), k, RateSummary(pin).value.rate)
  {
    hide ProcessRating, RateSummary, RatedSource, Inv, TotalRate, Counted;
    RatedResolves(s, h, cat, RateSummary(pin).value.serviceId, k);
    assert Balanced(s, k);
    var x := RatingIsWritten(s, pin);
  }
}
