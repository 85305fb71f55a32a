/** When a stored rating counts: exactly when the service it names was known at the delivery that stored it. */
module RatingTiming {
  import opened Wrappers
  import opened GoStrings
  import opened SkillService
  import opened SkillExamples
  import opened SkillHistory
  import opened RatingLedger

  /** The pin is an accepted version of some service. */
  ghost predicate Known(h: History, chain: string, pin: string)
  {
    exists k :: k in h && k.chain == chain && pin in h[k]
  }

  lemma ResolvesIffKnown(s: State, h: History, cat: Catalogue, chain: string, pin: string)
    requires Inv(s, h, cat) && chain != "" && pin != ""
    ensures RatedSource(s, chain, pin) != "" <==> Known(h, chain, pin)
  {
    if Known(h, chain, pin) {
      var k :| k in h && k.chain == chain && pin in h[k];
      RatedResolves(s, h, cat, pin, k);
    }
    if LoadByAnyPin(s, chain, pin).Some? {
      if Key(chain, pin) in s.sources {
        assert GoodMapping(s, h, Key(chain, pin));
      } else {
        assert GoodService(s, h, Key(chain, pin), cat);
        assert h[Key(chain, pin)][0] == pin;
      }
    }
  }

  // ---- Ratings over a run ----

  /** What a new rating pin `x`, stored under `p`, takes from the delivery. */
  ghost predicate NewRatingOf(s: State, pin: Pin, p: Key, x: RatingPin)
  {
    && p == Key(pin.chainName, pin.id) && p.chain != "" && RateSummary(pin).Some?
    && x.serviceId == RateSummary(pin).value.serviceId && x.serviceId != ""
    && x.source == RatedSource(s, p.chain, x.serviceId) && AsDecoded(x, pin)
  }

  /** The rating says what the body of its pin was decoded to: one to five for a service. */
  ghost predicate AsDecoded(x: RatingPin, pin: Pin)
  {
    && x.pinId == pin.id && x.chain == pin.chainName && x.timestamp == pin.timestamp
    && pin.contentBody != "" && pin.rating.Some? && 1 <= x.rate <= 5
    && pin.rating.value == RatingSummary(x.serviceId, x.paidTx, x.rate, x.comment)
  }

  lemma RatingStep(s: State, pin: Pin, p: Key)
    ensures p in s.ratings ==> p in ProcessRating(s, pin).ratings && ProcessRating(s, pin).ratings[p] == s.ratings[p]
    ensures p !in s.ratings && p in ProcessRating(s, pin).ratings ==> NewRatingOf(s, pin, p, ProcessRating(s, pin).ratings[p])
  {
    hide RatedSource, ProviderOf, Bump;
    assert TrimSpace("") == "";
  }

  /** A delivery keeps every stored rating and resolves a new one against the services known then. */
  lemma RatingsStep(s: State, h: History, cat: Catalogue, pin: Pin, p: Key)
    requires Inv(s, h, cat)
    ensures p in s.ratings ==> p in Process(s, pin).ratings && Process(s, pin).ratings[p] == s.ratings[p]
    ensures p !in s.ratings && p in Process(s, pin).ratings ==> NewRatingOf(s, pin, p, Process(s, pin).ratings[p])
  {
    hide Inv, Operation, ProtocolPath, IsServiceDelivery, IndexKeys, ServiceSummary, ProviderOf, Process, ProcessService,
         ProcessRating, NewRatingOf;
    if Accepted(s, pin).Some? {
      AcceptedIsProcessed(s, pin);
      if Operation(pin) != CREATE {
        var k := VersionIsWritten(s, h, cat, pin);
      }
    } else if ProtocolPath(pin.path) != PATH_RATE {
      NotAccepted(s, pin);
    } else {
      RatingProcessed(s, pin);
      RatingStep(s, pin, p);
    }
  }

  /** The `i`-th delivery stores rating pin `p`. */
  predicate StoredAt(pins: seq<Pin>, i: nat, p: Key)
    requires i < |pins|
  {
    p !in Run(EMPTY, pins[..i]).ratings && p in Run(EMPTY, pins[..i + 1]).ratings
  }

  /** The rating counts for the aggregate of some service. */
  ghost predicate Counts(s: State, p: Key)
    requires p in s.ratings
  {
    exists k :: k in s.aggregates && CountsFor(s.ratings[p], k)
  }

  lemma CountsIffResolved(s: State, p: Key)
    requires Ledger(s) && p in s.ratings
    ensures Counts(s, p) <==> s.ratings[p].source != ""
  {
    var r := s.ratings[p];
    var k := Key(r.chain, r.source);
    assert Balanced(s, k);
    assert r in s.ratings.Values;
    assert r in Counted(s.ratings.Values, k);
    forall l | l in s.aggregates && CountsFor(r, l)
      ensures r.source != ""
    {
      assert Balanced(s, l);
    }
  }

  lemma RunStep(pins: seq<Pin>, i: nat)
    requires i < |pins|
    ensures Run(EMPTY, pins[..i + 1]) == Process(Run(EMPTY, pins[..i]), pins[i])
  {
    hide Process;
    assert pins[..i + 1][..i] == pins[..i];
  }

  /** Over any continuation of a run a stored rating stays as it is. */
  lemma {:induction false} RatingsStay(pins: seq<Pin>, cat: Catalogue, i: nat, p: Key)
    requires AllWellNamed(pins, cat) && i <= |pins| && p in Run(EMPTY, pins[..i]).ratings
    ensures p in Run(EMPTY, pins).ratings && Run(EMPTY, pins).ratings[p] == Run(EMPTY, pins[..i]).ratings[p]
    decreases |pins|
  {
    hide Process, WellNamed, HistoryOf, Inv;
    if i == |pins| {
      assert pins[..i] == pins;
    } else {
      var n := |pins| - 1;
      assert pins[..n][..i] == pins[..i];
      RatingsStay(pins[..n], cat, i, p);
      ReachableStates(pins[..n], cat);
      RatingsStep(Run(EMPTY, pins[..n]), HistoryOf(pins[..n]), cat, pins[n], p);
      assert pins[..|pins|] == pins;
      RunStep(pins, n);
    }
  }

  lemma {:induction false} StoredSometime(pins: seq<Pin>, cat: Catalogue, p: Key) returns (i: nat)
    requires AllWellNamed(pins, cat) && p in Run(EMPTY, pins).ratings
    ensures i < |pins| && StoredAt(pins, i, p)
    decreases |pins|
  {
    hide Process, WellNamed;
    var n := |pins| - 1;
    if p in Run(EMPTY, pins[..n]).ratings {
      i := StoredSometime(pins[..n], cat, p);
      assert pins[..n][..i] == pins[..i] && pins[..n][..i + 1] == pins[..i + 1];
    } else {
      i := n;
      assert pins[..n + 1] == pins;
    }
  }

  /** The delivery that stored a rating decides: the rating counts, now and after any further deliveries, exactly when
      the pin it names was an accepted version of a service by then. */
  lemma CountedIff(pins: seq<Pin>, cat: Catalogue, i: nat, p: Key)
    requires AllWellNamed(pins, cat) && i < |pins| && StoredAt(pins, i, p)
    ensures p in Run(EMPTY, pins).ratings
    ensures Counts(Run(EMPTY, pins), p) <==> Known(HistoryOf(pins[..i]), p.chain, Run(EMPTY, pins).ratings[p].serviceId)
  {
    hide Process, WellNamed, HistoryOf, Inv, Run, Ledger, RatedSource, Known, Counts;
    RatingsStay(pins, cat, i + 1, p);
    ReachableStates(pins[..i], cat);
    RatingsStep(Run(EMPTY, pins[..i]), HistoryOf(pins[..i]), cat, pins[i], p);
    RunStep(pins, i);
    Conservation(pins, cat);
    CountsIffResolved(Run(EMPTY, pins), p);
    ResolvesIffKnown(Run(EMPTY, pins[..i]), HistoryOf(pins[..i]), cat, p.chain, Run(EMPTY, pins).ratings[p].serviceId);
  }

  /** A stored rating is, now and after any further deliveries, what the delivery that stored it was decoded to. */
  lemma StoredAsDecoded(pins: seq<Pin>, cat: Catalogue, i: nat, p: Key)
    requires AllWellNamed(pins, cat) && i < |pins| && StoredAt(pins, i, p)
    ensures p in Run(EMPTY, pins).ratings && AsDecoded(Run(EMPTY, pins).ratings[p], pins[i])
  {
    hide Process, WellNamed, HistoryOf, Inv, Run, RatedSource, AsDecoded, RateSummary;
    RatingsStay(pins, cat, i + 1, p);
    ReachableStates(pins[..i], cat);
    RatingsStep(Run(EMPTY, pins[..i]), HistoryOf(pins[..i]), cat, pins[i], p);
    RunStep(pins, i);
  }

  /** Every stored rating was stored by one delivery, so the condition above applies to it. */
  lemma EveryRatingDecided(pins: seq<Pin>, cat: Catalogue, p: Key)
    requires AllWellNamed(pins, cat) && p in Run(EMPTY, pins).ratings
    ensures exists i :: 0 <= i < |pins| && StoredAt(pins, i, p)
                        && (Counts(Run(EMPTY, pins), p)
                            <==> Known(HistoryOf(pins[..i]), p.chain, Run(EMPTY, pins).ratings[p].serviceId))
  {
    hide Run, HistoryOf, Known, Counts, StoredAt, WellNamed;
    var i := StoredSometime(pins, cat, p);
    CountedIff(pins, cat, i, p);
  }

  // ---- A rating that comes too early ----

  function EarlyRating(): Pin
  {
    ExamplePin("r", PATH_RATE, "create", "", None, Some(RatingSummary("s", "", 5, "")), 1)
  }

  function LateService(): Pin { ExamplePin("s", PATH_SERVICE, "create", "", Some(EXAMPLE_SUMMARY), None, 1) }

  /** The rating arrives, then its service, then the rating again: it is stored and the service is known, but it
      never counts. */
  lemma EarlyRatingLost()
    ensures var s := Run(EMPTY, [EarlyRating(), LateService(), EarlyRating()]);
            Key("btc", "r") in s.ratings && s.ratings[Key("btc", "r")].serviceId == "s" && Key("btc", "s") in s.services
            && s.aggregates == map[]
  {
    hide TrimSpace, ToLower, ProtocolPath, IndexKeys, ProviderOf;
    Paths();
    var a, b := EarlyRating(), LateService();
    assert [a, b, a][..2] == [a, b] && [a, b][..1] == [a] && [a][..0] == [];
    var s1 := Process(EMPTY, a);
    assert Run(EMPTY, [a]) == s1;
    assert s1.ratings.Keys == {Key("btc", "r")} && s1.aggregates == map[] && s1.services == map[];
    var s2 := Process(s1, b);
    assert Run(EMPTY, [a, b]) == s2;
    assert s2.ratings == s1.ratings && s2.aggregates == map[] && Key("btc", "s") in s2.services;
    RatingReplay(s2, a);
  }
}
