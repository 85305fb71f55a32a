/** Convergence for several version chains at once: mempool and blocks mix the deliveries of the chains in any way, each
    chain for itself following a schedule; the store at the end depends on the chains only. */
module PublishedInterleaving {
  import opened PublishedContent
  import opened PublishedInvariants
  import opened PublishedConvergence

  datatype Chain = Chain(twins: seq<Twin>, name: string, protocol: string)

  function RecordOf(ch: Chain): RecordKey
    requires ch.twins != []
  {
    RecordKey(ch.name, ch.protocol, ch.twins[0].confirmed.id)
  }

  function PinAt(ch: Chain, k: nat): PinKey
    requires k < |ch.twins|
  {
    PinKey(ch.name, ch.twins[k].confirmed.id)
  }

  function PinsOf(ch: Chain): set<PinKey>
  {
    set k | 0 <= k < |ch.twins| :: PinAt(ch, k)
  }

  /** Version chains that share no pin. */
  ghost predicate SeparateChains(cs: seq<Chain>, cat: Catalogue)
  {
    && (forall i :: 0 <= i < |cs| ==> VersionChain(cs[i].twins, cs[i].name, cs[i].protocol, cat))
    && (forall i, j :: 0 <= i < |cs| && 0 <= j < |cs| && i != j ==> PinsOf(cs[i]) !! PinsOf(cs[j]))
  }

  // ---- Mixed schedules ----

  /** The next delivery of one of the chains. */
  datatype Turn = Turn(chain: nat, isMempool: bool)

  /** The turns of one chain. */
  function Restricted(turns: seq<Turn>, i: nat): Schedule
  {
    if turns == [] then []
    else
      var n := |turns| - 1;
      Restricted(turns[..n], i) + if turns[n].chain == i then [turns[n].isMempool] else []
  }

  function Reached(turns: seq<Turn>, i: nat): (p: Progress)
    ensures p.confirmed <= p.delivered
  {
    After(Restricted(turns, i))
  }

  function Next(p: Progress, isMempool: bool): Progress
  {
    if isMempool then Progress(p.delivered + 1, p.confirmed)
    else Progress(if p.confirmed == p.delivered then p.delivered + 1 else p.delivered, p.confirmed + 1)
  }

  lemma ReachedStep(turns: seq<Turn>, i: nat)
    requires turns != []
    ensures var n := |turns| - 1;
            Reached(turns, i) ==
            if turns[n].chain == i then Next(Reached(turns[..n], i), turns[n].isMempool) else Reached(turns[..n], i)
  {
    var front := Restricted(turns[..|turns| - 1], i);
    assert (front + [turns[|turns| - 1].isMempool])[..|front|] == front && front + [] == front;
  }

  /** Each turn is that of a chain with a pin left for it. */
  ghost predicate Fits(cs: seq<Chain>, turns: seq<Turn>)
  {
    && (forall t <- turns :: t.chain < |cs|)
    && (forall i :: 0 <= i < |cs| ==> Reached(turns, i).delivered <= |cs[i].twins|)
  }

  lemma FitsFront(cs: seq<Chain>, turns: seq<Turn>)
    requires turns != [] && Fits(cs, turns)
    ensures var n := |turns| - 1; var t := turns[n];
            && Fits(cs, turns[..n]) && t.chain < |cs|
            && Next(Reached(turns[..n], t.chain), t.isMempool).delivered <= |cs[t.chain].twins|
            && Reached(turns, t.chain) == Next(Reached(turns[..n], t.chain), t.isMempool)
  {
    hide Reached;
    var n := |turns| - 1;
    assert turns[n] in turns;
    assert forall t <- turns[..n] :: t in turns;
    forall i | 0 <= i < |cs|
      ensures Reached(turns[..n], i).delivered <= |cs[i].twins|
    {
      ReachedStep(turns, i);
    }
    ReachedStep(turns, turns[n].chain);
  }

  /** The delivery a chain makes next. */
  function Delivered(ch: Chain, p: Progress, isMempool: bool): Delivery
    requires p.confirmed <= p.delivered && Next(p, isMempool).delivered <= |ch.twins|
  {
    if isMempool then Delivery(ch.twins[p.delivered].mempool, true) else Delivery(ch.twins[p.confirmed].confirmed, false)
  }

  /** The deliveries of all turns. */
  ghost function Deliveries(cs: seq<Chain>, turns: seq<Turn>): seq<Delivery>
    requires Fits(cs, turns)
  {
    if turns == [] then []
    else
      FitsFront(cs, turns);
      var n := |turns| - 1;
      var t := turns[n];
      Deliveries(cs, turns[..n]) + [Delivered(cs[t.chain], Reached(turns[..n], t.chain), t.isMempool)]
  }

  // ---- One chain in a shared store ----

  /** The store holds the chain as it is at the point `p` of its schedule. */
  ghost predicate Stands(s: State, ch: Chain, p: Progress)
    requires ch.twins != [] && p.confirmed <= p.delivered <= |ch.twins|
  {
    && (p.delivered == 0 ==> RecordOf(ch) !in s.records)
    && (p.delivered > 0 ==>
          RecordOf(ch) in s.records && Shape(s.records[RecordOf(ch)], ch.twins, ch.name, ch.protocol, p.delivered, p.confirmed))
    && (forall k :: 0 <= k < p.delivered ==> Mapped(s, ch.name, ch.twins[k].confirmed.id, ch.twins[0].confirmed.id))
    && (forall k :: p.delivered <= k < |ch.twins| ==> PinAt(ch, k) !in s.sources)
  }

  ghost predicate SameRecord(s: State, s': State, key: RecordKey)
  {
    (key in s.records <==> key in s'.records) && (key in s.records ==> s.records[key] == s'.records[key])
  }

  ghost predicate SameSource(s: State, s': State, p: PinKey)
  {
    (p in s.sources <==> p in s'.sources) && (p in s.sources ==> s.sources[p] == s'.sources[p])
  }

  /** Nothing but the chain's record and mappings differs. */
  ghost predicate OnlyChain(s: State, s': State, ch: Chain)
    requires ch.twins != []
  {
    && (forall key :: key != RecordOf(ch) ==> SameRecord(s, s', key))
    && (forall p :: p !in PinsOf(ch) ==> SameSource(s, s', p))
  }

  lemma {:induction false} SourcesAfterAre(base: map<PinKey, string>, twins: seq<Twin>, chain: string, m: nat, p: PinKey)
    requires m <= |twins|
    ensures var all := SourcesAfter(base, twins, chain, m);
            if exists k :: 0 <= k < m && p == PinKey(chain, twins[k].confirmed.id)
            then p in all && all[p] == twins[0].confirmed.id
            else (p in all <==> p in base) && (p in base ==> all[p] == base[p])
  {
    if m > 0 {
      SourcesAfterAre(base, twins, chain, m - 1, p);
      assert p == PinKey(chain, twins[m - 1].confirmed.id)
             || forall k :: 0 <= k < m && p == PinKey(chain, twins[k].confirmed.id) ==> k < m - 1;
    }
  }

  /** The store without the chain. */
  function Without(s: State, ch: Chain): State
    requires ch.twins != []
  {
    State(s.records - {RecordOf(ch)}, s.sources - PinsOf(ch), {})
  }

  lemma PinIn(ch: Chain, k: nat)
    requires k < |ch.twins|
    ensures PinAt(ch, k) in PinsOf(ch)
  {}

  /** A chain that stands in the store is the rest of the store with the chain added. */
  lemma StandsIsAt(s: State, ch: Chain, cat: Catalogue, p: Progress)
    requires ch.twins != [] && p.confirmed <= p.delivered <= |ch.twins| && p.delivered >= 1
    requires Stands(s, ch, p) && Inv(s, cat)
    ensures At(Without(s, ch), s, ch.twins, ch.name, ch.protocol, cat, p.delivered, p.confirmed)
  {
    hide Shape, Inv, SourcesAfter;
    var base := Without(s, ch);
    var all := SourcesAfter(base.sources, ch.twins, ch.name, p.delivered);
    forall pin: PinKey
      ensures pin in s.sources <==> pin in all
      ensures pin in all ==> s.sources[pin] == all[pin]
    {
      SourcesAfterAre(base.sources, ch.twins, ch.name, p.delivered, pin);
      if k: nat :| k < p.delivered && pin == PinKey(ch.name, ch.twins[k].confirmed.id) {
        assert Mapped(s, ch.name, ch.twins[k].confirmed.id, ch.twins[0].confirmed.id);
      } else if pin in PinsOf(ch) {
        var k: nat :| k < |ch.twins| && pin == PinAt(ch, k);
        assert k >= p.delivered;
      }
    }
    assert s.sources == all;
    var k := RecordOf(ch);
    assert s.records == base.records[k := s.records[k]];
  }

  /** The mappings of a chain's first pins, added to a store without them. */
  lemma AddedMappings(base: State, s: State, ch: Chain, m: nat)
    requires ch.twins != [] && m <= |ch.twins| && s.sources == SourcesAfter(base.sources, ch.twins, ch.name, m)
    requires forall j, k :: 0 <= j < k < |ch.twins| ==> ch.twins[j].confirmed.id != ch.twins[k].confirmed.id
    requires forall k :: 0 <= k < |ch.twins| ==> PinAt(ch, k) !in base.sources
    ensures forall k :: 0 <= k < m ==> Mapped(s, ch.name, ch.twins[k].confirmed.id, ch.twins[0].confirmed.id)
    ensures forall k :: m <= k < |ch.twins| ==> PinAt(ch, k) !in s.sources
    ensures forall p :: p !in PinsOf(ch) ==> SameSource(base, s, p)
  {
    hide SourcesAfter;
    forall p | p !in PinsOf(ch)
      ensures SameSource(base, s, p)
    {
      SourcesAfterAre(base.sources, ch.twins, ch.name, m, p);
      if k: nat :| k < m && p == PinKey(ch.name, ch.twins[k].confirmed.id) {
        PinIn(ch, k);
      }
    }
    forall k: nat | k < |ch.twins|
      ensures k < m ==> Mapped(s, ch.name, ch.twins[k].confirmed.id, ch.twins[0].confirmed.id)
      ensures k >= m ==> PinAt(ch, k) !in s.sources
    {
      SourcesAfterAre(base.sources, ch.twins, ch.name, m, PinAt(ch, k));
    }
  }

  /** What `At` says of the chain and of the rest of the store. */
  lemma AtIsStands(base: State, s: State, ch: Chain, cat: Catalogue, p: Progress)
    requires VersionChain(ch.twins, ch.name, ch.protocol, cat) && p.confirmed <= p.delivered <= |ch.twins| && p.delivered >= 1
    requires At(base, s, ch.twins, ch.name, ch.protocol, cat, p.delivered, p.confirmed)
    requires forall k :: 0 <= k < |ch.twins| ==> PinAt(ch, k) !in base.sources
    ensures Stands(s, ch, p) && OnlyChain(base, s, ch) && Inv(s, cat)
  {
    hide Shape, Inv, SourcesAfter, WellNamed, SamePin, IsVersion, IsPublishedProtocol, ProtocolPath;
    AddedMappings(base, s, ch, p.delivered);
  }

  /** A turn moves its chain one step and leaves the rest of the store alone. */
  lemma TurnStep(s: State, ch: Chain, cat: Catalogue, p: Progress, isMempool: bool)
    requires VersionChain(ch.twins, ch.name, ch.protocol, cat) && Inv(s, cat)
    requires p.confirmed <= p.delivered && Next(p, isMempool).delivered <= |ch.twins|
    requires Stands(s, ch, p)
    ensures var d := Delivered(ch, p, isMempool); var s' := Process(s, d.pin, d.isMempool);
            Stands(s', ch, Next(p, isMempool)) && OnlyChain(s, s', ch) && Inv(s', cat)
  {
    hide VersionChain, Inv, Process, Shape, SourcesAfter, At;
    ChainFacts(ch.twins, ch.name, ch.protocol, cat);
    var base := Without(s, ch);
    var d := Delivered(ch, p, isMempool);
    var s' := Process(s, d.pin, d.isMempool);
    if p.delivered == 0 {
      assert Untouched(s, ch.twins, ch.name) by {
        assert forall k :: 0 <= k < |ch.twins| ==> PinAt(ch, k) == PinKey(ch.name, ch.twins[k].confirmed.id);
      }
      FirstDelivery(s, ch.twins, ch.name, ch.protocol, cat, isMempool);
      AtIsStands(s, s', ch, cat, Next(p, isMempool));
    } else {
      StandsIsAt(s, ch, cat, p);
      DeliveredNext(base, s, ch.twins, ch.name, ch.protocol, cat, p.delivered, p.confirmed, isMempool);
      NoneLeft(s, ch);
      AtIsStands(base, s', ch, cat, Next(p, isMempool));
      OnlyChainAdded(s, s', ch);
    }
  }

  lemma NoneLeft(s: State, ch: Chain)
    requires ch.twins != []
    ensures forall k :: 0 <= k < |ch.twins| ==> PinAt(ch, k) !in Without(s, ch).sources
  {
    forall k | 0 <= k < |ch.twins|
      ensures PinAt(ch, k) !in Without(s, ch).sources
    {
      PinIn(ch, k);
    }
  }

  lemma OnlyChainAdded(s: State, s': State, ch: Chain)
    requires ch.twins != [] && OnlyChain(Without(s, ch), s', ch)
    ensures OnlyChain(s, s', ch)
  {
    var base := Without(s, ch);
    forall key | key != RecordOf(ch)
      ensures SameRecord(s, s', key)
    {
      assert SameRecord(base, s', key);
    }
    forall p | p !in PinsOf(ch)
      ensures SameSource(s, s', p)
    {
      assert SameSource(base, s', p);
    }
  }

  /** A chain stands as it did when only a chain that shares no pin with it has moved. */
  lemma OtherStands(s: State, s': State, ch: Chain, moved: Chain, p: Progress)
    requires ch.twins != [] && moved.twins != [] && p.confirmed <= p.delivered <= |ch.twins|
    requires PinsOf(ch) !! PinsOf(moved) && OnlyChain(s, s', moved) && Stands(s, ch, p)
    ensures Stands(s', ch, p)
  {
    hide Shape;
    PinIn(ch, 0);
    PinIn(moved, 0);
    assert RecordOf(ch) != RecordOf(moved);
    assert SameRecord(s, s', RecordOf(ch));
    forall k: nat | k < |ch.twins|
      ensures PinAt(ch, k) == PinKey(ch.name, ch.twins[k].confirmed.id) && SameSource(s, s', PinAt(ch, k))
    {
      PinIn(ch, k);
    }
  }

  // ---- All chains ----

  /** A store that holds none of the pins. */
  ghost predicate NoneDelivered(s: State, cs: seq<Chain>)
  {
    forall ch, p :: ch in cs && p in PinsOf(ch) ==> p !in s.sources
  }

  ghost predicate AnyRecord(cs: seq<Chain>, key: RecordKey)
  {
    exists ch :: ch in cs && ch.twins != [] && key == RecordOf(ch)
  }

  ghost predicate AnyPin(cs: seq<Chain>, p: PinKey)
  {
    exists ch :: ch in cs && p in PinsOf(ch)
  }

  /** Nothing but the records and mappings of the chains differs. */
  ghost predicate OnlyChains(s: State, s': State, cs: seq<Chain>)
  {
    && (forall key :: !AnyRecord(cs, key) ==> SameRecord(s, s', key))
    && (forall p :: !AnyPin(cs, p) ==> SameSource(s, s', p))
  }

  ghost predicate StandsIn(s: State, cs: seq<Chain>, turns: seq<Turn>, i: nat)
    requires i < |cs| && Fits(cs, turns)
  {
    cs[i].twins != [] && Stands(s, cs[i], Reached(turns, i))
  }

  lemma ChainStart(s: State, ch: Chain, cat: Catalogue)
    requires VersionChain(ch.twins, ch.name, ch.protocol, cat) && Inv(s, cat) && forall p <- PinsOf(ch) :: p !in s.sources
    ensures Stands(s, ch, Progress(0, 0))
  {
    hide Inv, WellNamed, SamePin, IsVersion, IsPublishedProtocol, ProtocolPath;
    forall k: nat | k < |ch.twins|
      ensures PinAt(ch, k) == PinKey(ch.name, ch.twins[k].confirmed.id) && PinAt(ch, k) !in s.sources
    {
      PinIn(ch, k);
    }
    NotStored(s, ch.twins, ch.name, ch.protocol, cat);
  }

  lemma Moved(s0: State, s: State, s': State, cs: seq<Chain>, i: nat)
    requires i < |cs| && cs[i].twins != [] && OnlyChains(s0, s, cs) && OnlyChain(s, s', cs[i])
    ensures OnlyChains(s0, s', cs)
  {
    assert cs[i] in cs;
    forall key | !AnyRecord(cs, key)
      ensures SameRecord(s0, s', key)
    {
      assert SameRecord(s0, s, key) && key != RecordOf(cs[i]) && SameRecord(s, s', key);
    }
    forall p | !AnyPin(cs, p)
      ensures SameSource(s0, s', p)
    {
      assert SameSource(s0, s, p) && p !in PinsOf(cs[i]) && SameSource(s, s', p);
    }
  }

  lemma RunOneMore(s: State, deliveries: seq<Delivery>, d: Delivery)
    ensures Run(s, deliveries + [d]) == Process(Run(s, deliveries), d.pin, d.isMempool)
  {
    assert (deliveries + [d])[..|deliveries|] == deliveries;
  }

  lemma FitsAt(cs: seq<Chain>, turns: seq<Turn>, i: nat)
    requires i < |cs| && Fits(cs, turns)
    ensures Reached(turns, i).delivered <= |cs[i].twins|
  {}

  /** At every point of every mixed run the store is the starting store with each chain in its shape. */
  lemma {:induction false} InterleavedShape(s0: State, cs: seq<Chain>, cat: Catalogue, turns: seq<Turn>)
    requires SeparateChains(cs, cat) && Inv(s0, cat) && NoneDelivered(s0, cs) && Fits(cs, turns)
    ensures var s := Run(s0, Deliveries(cs, turns));
            Inv(s, cat) && OnlyChains(s0, s, cs) && forall i :: 0 <= i < |cs| ==> StandsIn(s, cs, turns, i)
  {
    hide VersionChain, Inv, Process, Stands, OnlyChain, OnlyChains, Fits, Reached;
    if turns == [] {
      NothingYet(s0, cs, cat);
    } else {
      var n := |turns| - 1;
      var t := turns[n];
      FitsFront(cs, turns);
      InterleavedShape(s0, cs, cat, turns[..n]);
      var s, p := Run(s0, Deliveries(cs, turns[..n])), Reached(turns[..n], t.chain);
      var d := Delivered(cs[t.chain], p, t.isMempool);
      var s' := Process(s, d.pin, d.isMempool);
      RunOneMore(s0, Deliveries(cs, turns[..n]), d);
      assert StandsIn(s, cs, turns[..n], t.chain);
      TurnStep(s, cs[t.chain], cat, p, t.isMempool);
      Moved(s0, s, s', cs, t.chain);
      forall i | 0 <= i < |cs|
        ensures StandsIn(s', cs, turns, i)
      {
        ReachedStep(turns, i);
        assert StandsIn(s, cs, turns[..n], i);
        if i != t.chain {
          FitsAt(cs, turns[..n], i);
          OtherStands(s, s', cs[i], cs[t.chain], Reached(turns[..n], i));
        }
      }
    }
  }

  lemma NothingYet(s0: State, cs: seq<Chain>, cat: Catalogue)
    requires SeparateChains(cs, cat) && Inv(s0, cat) && NoneDelivered(s0, cs) && Fits(cs, [])
    ensures Run(s0, Deliveries(cs, [])) == s0 && OnlyChains(s0, s0, cs)
    ensures forall i :: 0 <= i < |cs| ==> StandsIn(s0, cs, [], i)
  {
    hide Inv, VersionChain, Stands;
    forall i | 0 <= i < |cs|
      ensures StandsIn(s0, cs, [], i)
    {
      assert cs[i] in cs;
      ChainFacts(cs[i].twins, cs[i].name, cs[i].protocol, cat);
      ChainStart(s0, cs[i], cat);
    }
  }

  /** Every pin of every chain is delivered and confirmed. */
  ghost predicate Complete(cs: seq<Chain>, turns: seq<Turn>)
  {
    forall i :: 0 <= i < |cs| ==> Reached(turns, i) == Progress(|cs[i].twins|, |cs[i].twins|)
  }

  /** A complete chain leaves nothing open. */
  lemma SameChain(s: State, t: State, ch: Chain, cat: Catalogue)
    requires ch.twins != []
    requires var p := Progress(|ch.twins|, |ch.twins|); Stands(s, ch, p) && Stands(t, ch, p)
    ensures SameRecord(s, t, RecordOf(ch)) && forall p <- PinsOf(ch) :: SameSource(s, t, p)
  {
    hide Shape;
    ShapeUnique(s.records[RecordOf(ch)], t.records[RecordOf(ch)], ch.twins, ch.name, ch.protocol, |ch.twins|);
    forall p | p in PinsOf(ch)
      ensures SameSource(s, t, p)
    {
      var k: nat :| k < |ch.twins| && p == PinAt(ch, k);
      assert Mapped(s, ch.name, ch.twins[k].confirmed.id, ch.twins[0].confirmed.id);
      assert Mapped(t, ch.name, ch.twins[k].confirmed.id, ch.twins[0].confirmed.id);
    }
  }

  /** Stores that agree outside the chains and hold each chain complete are equal. */
  lemma SameStore(s0: State, s: State, t: State, cs: seq<Chain>, cat: Catalogue)
    requires Inv(s, cat) && Inv(t, cat) && OnlyChains(s0, s, cs) && OnlyChains(s0, t, cs)
    requires forall ch <- cs :: ch.twins != []
                                && var p := Progress(|ch.twins|, |ch.twins|); Stands(s, ch, p) && Stands(t, ch, p)
    ensures s == t
  {
    hide Lineage, Stands, IndexImage;
    forall key
      ensures SameRecord(s, t, key)
    {
      if AnyRecord(cs, key) {
        var ch :| ch in cs && ch.twins != [] && key == RecordOf(ch);
        SameChain(s, t, ch, cat);
      } else {
        assert SameRecord(s0, s, key) && SameRecord(s0, t, key);
      }
    }
    forall p
      ensures SameSource(s, t, p)
    {
      if AnyPin(cs, p) {
        var ch :| ch in cs && p in PinsOf(ch);
        SameChain(s, t, ch, cat);
      } else {
        assert SameSource(s0, s, p) && SameSource(s0, t, p);
      }
    }
    EqualMaps(s, t);
  }

  lemma EqualMaps(s: State, t: State)
    requires (forall key :: SameRecord(s, t, key)) && forall p :: SameSource(s, t, p)
    ensures s.records == t.records && s.sources == t.sources
  {
    forall key
      ensures (key in s.records <==> key in t.records) && (key in s.records ==> s.records[key] == t.records[key])
    {
      assert SameRecord(s, t, key);
    }
    forall p
      ensures (p in s.sources <==> p in t.sources) && (p in s.sources ==> s.sources[p] == t.sources[p])
    {
      assert SameSource(s, t, p);
    }
  }

  /** Any two runs that confirm all chains, mixing their deliveries in whatever way, end in the same store. */
  lemma InterleavingsConverge(s0: State, cs: seq<Chain>, cat: Catalogue, a: seq<Turn>, b: seq<Turn>)
    requires SeparateChains(cs, cat) && Inv(s0, cat) && NoneDelivered(s0, cs)
    requires Fits(cs, a) && Complete(cs, a) && Fits(cs, b) && Complete(cs, b)
    ensures Run(s0, Deliveries(cs, a)) == Run(s0, Deliveries(cs, b))
  {
    hide VersionChain, Inv, Stands, OnlyChains, Run, Deliveries, Reached, Fits;
    var s, t := Run(s0, Deliveries(cs, a)), Run(s0, Deliveries(cs, b));
    InterleavedShape(s0, cs, cat, a);
    InterleavedShape(s0, cs, cat, b);
    forall ch | ch in cs
      ensures ch.twins != [] && var p := Progress(|ch.twins|, |ch.twins|); Stands(s, ch, p) && Stands(t, ch, p)
    {
      var i :| 0 <= i < |cs| && cs[i] == ch;
      assert StandsIn(s, cs, a, i) && StandsIn(t, cs, b, i);
    }
    SameStore(s0, s, t, cs, cat);
  }
}
