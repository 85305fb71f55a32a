/** When a record of published content is hidden: exactly when a revoke reached it while no different pending
    head was kept. So a revoke that blocks bring before a version already pending is lost. */
module PublishedVisibility {
  import opened Wrappers
  import opened GoStrings
  import opened KeyEncoding
  import opened PublishedContent
  import opened PublishedInvariants

  /** The record a modify or revoke reaches. */
  function Reached(s: State, pin: Pin): Option<Record>
  {
    if pin.id == "" || pin.chainName == "" || !IsPublishedProtocol(ProtocolPath(pin.path)) || TargetPinId(pin) == "" then None
    else LoadByAnyPin(s, pin.chainName, ProtocolPath(pin.path), TargetPinId(pin))
  }

  /** A revoke reaches record `k` while no different pending head is kept. */
  predicate Hides(s: State, pin: Pin, isMempool: bool, k: RecordKey)
  {
    Operation(pin) == REVOKE && Reached(s, pin).Some? && KeyOf(Reached(s, pin).value) == k
    && !KeepsPendingHead(Reached(s, pin).value, pin, isMempool)
  }

  lemma ReachedIsStored(s: State, pin: Pin, cat: Catalogue)
    requires Inv(s, cat) && Reached(s, pin).Some?
    ensures var r := Reached(s, pin).value;
            && KeyOf(r) in s.records && s.records[KeyOf(r)] == r && (r.hidden <==> r.operation == REVOKE)
            && r.chainName != "" && r.protocolPath != "" && r.sourcePinId != ""
  {
    hide TrimSpace, Plain, TargetPinId, ProtocolPath, SourceOf;
    var protocol := ProtocolPath(pin.path);
    var k := RecordKey(pin.chainName, protocol, SourceOf(s.sources, pin.chainName, TargetPinId(pin)));
    assert GoodRecord(s, k, s.records[k], cat);
    ProtocolNotEmpty(protocol);
  }

  lemma NextHidden(previous: Record, pin: Pin, protocol: string, isMempool: bool)
    requires previous.hidden <==> previous.operation == REVOKE
    requires Operation(pin) == MODIFY || Operation(pin) == REVOKE
    ensures NextVersion(previous, pin, protocol, isMempool).hidden <==>
            previous.hidden || (Operation(pin) == REVOKE && !KeepsPendingHead(previous, pin, isMempool))
  {
    hide TrimSpace, ToLower, Operation, PublisherOf, PayloadOf;
    OperationsDiffer();
  }

  lemma OperationsDiffer()
    ensures CREATE != MODIFY && CREATE != REVOKE && MODIFY != REVOKE
  {
    assert CREATE[0] == 'c' && MODIFY[0] == 'm' && REVOKE[0] == 'r';
  }

  lemma NextKey(previous: Record, pin: Pin, protocol: string, isMempool: bool)
    requires Operation(pin) == MODIFY || Operation(pin) == REVOKE
    requires previous.protocolPath == protocol && previous.chainName == ToLower(TrimSpace(pin.chainName))
    ensures KeyOf(NextVersion(previous, pin, protocol, isMempool)) == KeyOf(previous)
  {
    hide TrimSpace, ToLower, Operation, PublisherOf, PayloadOf;
  }

  lemma VersionHides(s: State, pin: Pin, isMempool: bool, cat: Catalogue, k: RecordKey)
    requires Inv(s, cat) && WellNamed(pin, cat) && (Operation(pin) == MODIFY || Operation(pin) == REVOKE)
    requires k in Process(s, pin, isMempool).records
    ensures Process(s, pin, isMempool).records[k].hidden <==>
            (k in s.records && s.records[k].hidden) || Hides(s, pin, isMempool, k)
  {
    hide TrimSpace, ToLower, Operation, Inv, TargetPinId, ProtocolPath, SourceOf, NextVersion, IdentityKeys, MapPin,
         IsPublishedProtocol, KeepsPendingHead, PlainPublisher, PublisherOf;
    OperationsDiffer();
    if Reached(s, pin).Some? {
      ReachedIsStored(s, pin, cat);
      var previous := Reached(s, pin).value;
      NextHidden(previous, pin, ProtocolPath(pin.path), isMempool);
      ReachedKey(s, pin, cat);
      NextKey(previous, pin, ProtocolPath(pin.path), isMempool);
    }
  }

  lemma ReachedKey(s: State, pin: Pin, cat: Catalogue)
    requires Inv(s, cat) && Reached(s, pin).Some?
    ensures Reached(s, pin).value.chainName == pin.chainName && Reached(s, pin).value.protocolPath == ProtocolPath(pin.path)
  {
    hide TrimSpace, Plain, TargetPinId, ProtocolPath, SourceOf, IsPublishedProtocol;
    var protocol := ProtocolPath(pin.path);
    var k := RecordKey(pin.chainName, protocol, SourceOf(s.sources, pin.chainName, TargetPinId(pin)));
    assert GoodRecord(s, k, s.records[k], cat);
  }

  lemma CreatedVisible(pin: Pin, protocol: string, isMempool: bool, existing: Record)
    requires Operation(pin) == CREATE
    ensures !NewRecord(pin, protocol, pin.id, isMempool).hidden
    ensures existing.currentPinId != "" && (existing.currentPinId == pin.id ==> existing.operation == CREATE)
            && (existing.hidden <==> existing.operation == REVOKE) && existing.sourcePinId == pin.id && existing.isMempool ==>
              MergePending(existing, NewRecord(pin, protocol, pin.id, false), pin.id).hidden == existing.hidden
  {
    hide TrimSpace, ToLower, Operation, PublisherOf, PayloadOf;
    OperationsDiffer();
  }

  lemma CreateHidesNothing(s: State, pin: Pin, isMempool: bool, cat: Catalogue, k: RecordKey)
    requires Inv(s, cat) && WellNamed(pin, cat) && Operation(pin) == CREATE
    requires k in Process(s, pin, isMempool).records
    ensures Process(s, pin, isMempool).records[k].hidden <==> k in s.records && s.records[k].hidden
  {
    hide TrimSpace, ToLower, Operation, ProtocolPath, IdentityKeys, MapPin, IsPublishedProtocol, Plain, GoodMapping;
    OperationsDiffer();
    var protocol := ProtocolPath(pin.path);
    var source := RecordKey(pin.chainName, protocol, pin.id);
    assert source in s.records ==> GoodRecord(s, source, s.records[source], cat);
    CreatedKey(pin, protocol, isMempool);
    if source in s.records {
      CreatedVisible(pin, protocol, isMempool, s.records[source]);
      MergedKey(s.records[source], NewRecord(pin, protocol, pin.id, isMempool), pin.id);
    } else {
      CreatedVisible(pin, protocol, isMempool, NewRecord(pin, protocol, pin.id, isMempool));
    }
    hide NewRecord, MergePending, GoodRecord, Inv;
  }

  lemma CreatedKey(pin: Pin, protocol: string, isMempool: bool)
    ensures KeyOf(NewRecord(pin, protocol, pin.id, isMempool)) == RecordKey(ToLower(TrimSpace(pin.chainName)), protocol, pin.id)
  {
    hide TrimSpace, ToLower, Operation, PublisherOf, PayloadOf;
  }

  lemma MergedKey(previous: Record, candidate: Record, id: string)
    ensures KeyOf(MergePending(previous, candidate, id)) == KeyOf(candidate)
  {}

  /** One delivery hides a record exactly when it was hidden or the delivery is a revoke that hides it. */
  lemma HiddenStep(s: State, pin: Pin, isMempool: bool, cat: Catalogue, k: RecordKey)
    requires Inv(s, cat) && WellNamed(pin, cat) && k in Process(s, pin, isMempool).records
    ensures Process(s, pin, isMempool).records[k].hidden <==>
            (k in s.records && s.records[k].hidden) || Hides(s, pin, isMempool, k)
  {
    hide Inv, WellNamed, ProcessCreate, ProcessVersion, Operation, ProtocolPath, IsPublishedProtocol, Reached, KeepsPendingHead;
    OperationsDiffer();
    if Operation(pin) == CREATE {
      CreateHidesNothing(s, pin, isMempool, cat, k);
    } else if Operation(pin) == MODIFY || Operation(pin) == REVOKE {
      VersionHides(s, pin, isMempool, cat, k);
    }
  }

  /** The `i`-th delivery of a run hides record `k`. */
  predicate HiddenBy(deliveries: seq<Delivery>, i: nat, k: RecordKey)
    requires i < |deliveries|
  {
    Hides(Run(EMPTY, deliveries[..i]), deliveries[i].pin, deliveries[i].isMempool, k)
  }

  /** In every reachable state a record is hidden exactly when some revoke reached it while it kept no different
      pending head. */
  lemma {:induction false} HiddenIff(deliveries: seq<Delivery>, cat: Catalogue, k: RecordKey)
    requires AllWellNamed(deliveries, cat) && k in Run(EMPTY, deliveries).records
    ensures Run(EMPTY, deliveries).records[k].hidden <==> exists i :: 0 <= i < |deliveries| && HiddenBy(deliveries, i, k)
  {
    hide Process, WellNamed, Hides, Inv;
    if deliveries != [] {
      var n := |deliveries| - 1;
      var before := deliveries[..n];
      ReachableStates(before, cat);
      HiddenStep(Run(EMPTY, before), deliveries[n].pin, deliveries[n].isMempool, cat, k);
      LastOrEarlier(deliveries, k);
      if k in Run(EMPTY, before).records {
        HiddenIff(before, cat, k);
      } else {
        NotYetHidden(before, cat, k);
      }
    }
  }

  lemma LastOrEarlier(deliveries: seq<Delivery>, k: RecordKey)
    requires deliveries != []
    ensures var n := |deliveries| - 1;
            var before, last := deliveries[..n], deliveries[n];
            (exists i :: 0 <= i < |deliveries| && HiddenBy(deliveries, i, k)) <==>
            (exists i :: 0 <= i < |before| && HiddenBy(before, i, k)) || Hides(Run(EMPTY, before), last.pin, last.isMempool, k)
  {
    hide Hides, Run;
    SameDeliveries(deliveries, k);
    var n := |deliveries| - 1;
    var before, last := deliveries[..n], deliveries[n];
    assert HiddenBy(deliveries, n, k) == Hides(Run(EMPTY, before), last.pin, last.isMempool, k);
    hide HiddenBy;
    if i :| 0 <= i < |before| && HiddenBy(before, i, k) {
      assert HiddenBy(deliveries, i, k);
    }
    if i :| 0 <= i < |deliveries| && HiddenBy(deliveries, i, k) {
      assert i < n ==> HiddenBy(before, i, k);
    }
  }

  lemma SameDeliveries(deliveries: seq<Delivery>, k: RecordKey)
    requires deliveries != []
    ensures var before := deliveries[..|deliveries| - 1];
            forall i :: 0 <= i < |before| ==> HiddenBy(before, i, k) == HiddenBy(deliveries, i, k)
  {
    hide Hides, Run;
    var before := deliveries[..|deliveries| - 1];
    forall i | 0 <= i < |before|
      ensures HiddenBy(before, i, k) == HiddenBy(deliveries, i, k)
    {
      assert before[..i] == deliveries[..i];
    }
  }

  /** Records are never deleted, so what has no record was never hidden. */
  lemma {:induction false} NotYetHidden(deliveries: seq<Delivery>, cat: Catalogue, k: RecordKey)
    requires AllWellNamed(deliveries, cat) && k !in Run(EMPTY, deliveries).records
    ensures forall i :: 0 <= i < |deliveries| ==> !HiddenBy(deliveries, i, k)
  {
    hide Process, WellNamed, Hides, Inv;
    if deliveries != [] {
      var n := |deliveries| - 1;
      ReachableStates(deliveries[..n], cat);
      RecordsStay(Run(EMPTY, deliveries[..n]), deliveries[n].pin, deliveries[n].isMempool);
      NotYetHidden(deliveries[..n], cat, k);
      SameDeliveries(deliveries, k);
      HidesStored(Run(EMPTY, deliveries[..n]), deliveries[n].pin, deliveries[n].isMempool, cat, k);
    }
  }

  lemma HidesStored(s: State, pin: Pin, isMempool: bool, cat: Catalogue, k: RecordKey)
    requires Inv(s, cat)
    ensures Hides(s, pin, isMempool, k) ==> k in s.records
  {
    hide Inv, Reached, KeepsPendingHead, Operation;
    if Hides(s, pin, isMempool, k) {
      ReachedIsStored(s, pin, cat);
    }
  }

  lemma RecordsStay(s: State, pin: Pin, isMempool: bool)
    ensures s.records.Keys <= Process(s, pin, isMempool).records.Keys
  {
    hide TrimSpace, ToLower, Operation, ProtocolPath, IdentityKeys, MapPin, NewRecord, NextVersion, MergePending,
         IsPublishedProtocol, TargetPinId, SourceOf;
  }

  // ---- A revoke that is lost ----

  /** A create `a`, a modify `b` and a revoke `c` of it, of one chain and protocol. */
  predicate Race(a: Pin, b: Pin, c: Pin, chain: string, protocol: string)
  {
    && chain != "" && IsPublishedProtocol(protocol) && ToLower(TrimSpace(chain)) == chain
    && a.id != "" && b.id != "" && c.id != "" && a.id != b.id && a.id != c.id && b.id != c.id && TrimSpace(a.id) == a.id
    && a.chainName == chain && b.chainName == chain && c.chainName == chain
    && ProtocolPath(a.path) == protocol && ProtocolPath(b.path) == protocol && ProtocolPath(c.path) == protocol
    && Operation(a) == CREATE && Operation(b) == MODIFY && Operation(c) == REVOKE
    && TargetPinId(b) == a.id && TargetPinId(c) == a.id
  }

  /** The store holds one record, that of create `a`, mapped to itself. */
  predicate Only(s: State, a: Pin, chain: string, protocol: string, r: Record)
  {
    && s.records == map[RecordKey(chain, protocol, a.id) := r]
    && PinKey(chain, a.id) in s.sources && s.sources[PinKey(chain, a.id)] == a.id
  }

  lemma RaceCreate(a: Pin, b: Pin, c: Pin, chain: string, protocol: string, isMempool: bool)
    requires Race(a, b, c, chain, protocol)
    ensures Only(Process(EMPTY, a, isMempool), a, chain, protocol, NewRecord(a, protocol, a.id, isMempool))
  {
    hide TrimSpace, ToLower, Operation, ProtocolPath, IdentityKeys, PublisherOf, PayloadOf, TargetPinId;
    ProtocolNotEmpty(protocol);
  }

  lemma RaceReplay(s: State, a: Pin, b: Pin, c: Pin, chain: string, protocol: string, r: Record)
    requires Race(a, b, c, chain, protocol) && Only(s, a, chain, protocol, r) && r.isMempool && r.currentPinId != ""
    requires r.sourcePinId == a.id
    ensures Only(Process(s, a, false), a, chain, protocol, MergePending(r, NewRecord(a, protocol, a.id, false), a.id))
  {
    hide TrimSpace, ToLower, Operation, ProtocolPath, IdentityKeys, PublisherOf, PayloadOf, TargetPinId;
    ProtocolNotEmpty(protocol);
  }

  lemma RaceReaches(s: State, a: Pin, b: Pin, c: Pin, chain: string, protocol: string, r: Record, v: Pin)
    requires Race(a, b, c, chain, protocol) && (v == b || v == c) && Only(s, a, chain, protocol, r)
    ensures SourceOf(s.sources, chain, a.id) == a.id
    ensures LoadByAnyPin(s, chain, protocol, TargetPinId(v)) == Some(r)
  {
    hide TrimSpace, ToLower, Operation, ProtocolPath, TargetPinId, IsPublishedProtocol;
  }

  lemma RaceDispatch(s: State, a: Pin, b: Pin, c: Pin, chain: string, protocol: string, r: Record, v: Pin, isMempool: bool)
    requires Race(a, b, c, chain, protocol) && (v == b || v == c) && Only(s, a, chain, protocol, r)
    ensures Process(s, v, isMempool) == SaveVersion(s, NextVersion(r, v, protocol, isMempool), r, v)
  {
    hide TrimSpace, ToLower, Operation, ProtocolPath, TargetPinId, SourceOf, LoadByAnyPin, NextVersion, SaveVersion,
         IsPublishedProtocol, Only;
    OperationsDiffer();
    RaceReaches(s, a, b, c, chain, protocol, r, v);
  }

  lemma RaceNext(a: Pin, b: Pin, c: Pin, chain: string, protocol: string, r: Record, v: Pin, isMempool: bool)
    requires Race(a, b, c, chain, protocol) && (v == b || v == c) && KeyOf(r) == RecordKey(chain, protocol, a.id)
    ensures var next := NextVersion(r, v, protocol, isMempool);
            KeyOf(next) == KeyOf(r) && (next.currentPinId == v.id || next.currentPinId == r.currentPinId)
  {
    hide TrimSpace, ToLower, Operation, ProtocolPath, TargetPinId, PublisherOf, PayloadOf, IsPublishedProtocol;
  }

  lemma RaceVersion(s: State, a: Pin, b: Pin, c: Pin, chain: string, protocol: string, r: Record, v: Pin, isMempool: bool)
    requires Race(a, b, c, chain, protocol) && (v == b || v == c) && Only(s, a, chain, protocol, r)
    requires KeyOf(r) == RecordKey(chain, protocol, a.id) && (r.currentPinId == a.id || r.currentPinId == b.id || r.currentPinId == c.id)
    ensures var next := NextVersion(r, v, protocol, isMempool);
            && Only(Process(s, v, isMempool), a, chain, protocol, next)
            && KeyOf(next) == KeyOf(r)
            && (next.currentPinId == v.id || next.currentPinId == r.currentPinId)
  {
    hide TrimSpace, ToLower, Operation, ProtocolPath, IdentityKeys, TargetPinId, Process, NextVersion;
    ProtocolNotEmpty(protocol);
    RaceDispatch(s, a, b, c, chain, protocol, r, v, isMempool);
    RaceNext(a, b, c, chain, protocol, r, v, isMempool);
  }

  /** The mempool shows create and modify before blocks bring create, revoke and modify: the record ends
      visible and confirmed. Blocks alone end with a hidden record. */
  lemma RevokeLost(a: Pin, b: Pin, c: Pin, chain: string, protocol: string)
    requires Race(a, b, c, chain, protocol)
    ensures var k := RecordKey(chain, protocol, a.id);
            var withMempool := Run(EMPTY, [Delivery(a, true), Delivery(b, true),
                                           Delivery(a, false), Delivery(c, false), Delivery(b, false)]);
            var blocksOnly := Run(EMPTY, [Delivery(a, false), Delivery(c, false), Delivery(b, false)]);
            && k in withMempool.records && !withMempool.records[k].hidden && !withMempool.records[k].isMempool
            && k in blocksOnly.records && blocksOnly.records[k].hidden && !blocksOnly.records[k].isMempool
  {
    hide Process, TrimSpace, ToLower, Operation, ProtocolPath, PublisherOf, PayloadOf, TargetPinId, Race;
    RaceMempool(a, b, c, chain, protocol);
    RaceBlocks(a, b, c, chain, protocol);
    RunFive(Delivery(a, true), Delivery(b, true), Delivery(a, false), Delivery(c, false), Delivery(b, false));
    RunThree(Delivery(a, false), Delivery(c, false), Delivery(b, false));
  }

  lemma RunThree(d1: Delivery, d2: Delivery, d3: Delivery)
    ensures Run(EMPTY, [d1, d2, d3]) ==
            Process(Process(Process(EMPTY, d1.pin, d1.isMempool), d2.pin, d2.isMempool), d3.pin, d3.isMempool)
  {
    hide Process;
    assert [d1, d2, d3][..2] == [d1, d2] && [d1, d2][..1] == [d1] && [d1][..0] == [];
    assert Run(EMPTY, [d1]) == Process(Run(EMPTY, []), d1.pin, d1.isMempool);
    assert Run(EMPTY, [d1, d2]) == Process(Run(EMPTY, [d1]), d2.pin, d2.isMempool);
  }

  lemma RunFive(d1: Delivery, d2: Delivery, d3: Delivery, d4: Delivery, d5: Delivery)
    ensures Run(EMPTY, [d1, d2, d3, d4, d5]) ==
            Process(Process(Run(EMPTY, [d1, d2, d3]), d4.pin, d4.isMempool), d5.pin, d5.isMempool)
    ensures Run(EMPTY, [d1, d2, d3]) ==
            Process(Process(Process(EMPTY, d1.pin, d1.isMempool), d2.pin, d2.isMempool), d3.pin, d3.isMempool)
  {
    hide Process;
    RunThree(d1, d2, d3);
    assert [d1, d2, d3, d4, d5][..4] == [d1, d2, d3, d4] && [d1, d2, d3, d4][..3] == [d1, d2, d3];
    assert Run(EMPTY, [d1, d2, d3, d4]) == Process(Run(EMPTY, [d1, d2, d3]), d4.pin, d4.isMempool);
  }

  lemma RaceBlocks(a: Pin, b: Pin, c: Pin, chain: string, protocol: string)
    requires Race(a, b, c, chain, protocol)
    ensures var s := Process(Process(Process(EMPTY, a, false), c, false), b, false);
            var k := RecordKey(chain, protocol, a.id);
            k in s.records && s.records[k].hidden && !s.records[k].isMempool
  {
    hide Process, TrimSpace, ToLower, Operation, ProtocolPath, PublisherOf, PayloadOf, TargetPinId;
    OperationsDiffer();
    var r1 := NewRecord(a, protocol, a.id, false);
    RaceCreate(a, b, c, chain, protocol, false);
    var s1 := Process(EMPTY, a, false);
    RaceVersion(s1, a, b, c, chain, protocol, r1, c, false);
    var r2 := NextVersion(r1, c, protocol, false);
    assert r2.hidden && r2.operation == REVOKE;
    RaceVersion(Process(s1, c, false), a, b, c, chain, protocol, r2, b, false);
  }

  lemma RaceMempool(a: Pin, b: Pin, c: Pin, chain: string, protocol: string)
    requires Race(a, b, c, chain, protocol)
    ensures var s := Process(Process(Process(EMPTY, a, true), b, true), a, false);
            var t := Process(Process(s, c, false), b, false);
            var k := RecordKey(chain, protocol, a.id);
            k in t.records && !t.records[k].hidden && !t.records[k].isMempool
  {
    hide Process, TrimSpace, ToLower, Operation, ProtocolPath, PublisherOf, PayloadOf, TargetPinId;
    OperationsDiffer();
    var r1 := NewRecord(a, protocol, a.id, true);
    RaceCreate(a, b, c, chain, protocol, true);
    var s1 := Process(EMPTY, a, true);
    RaceVersion(s1, a, b, c, chain, protocol, r1, b, true);
    var r2, s2 := NextVersion(r1, b, protocol, true), Process(s1, b, true);
    assert r2.currentPinId == b.id && r2.isMempool && !r2.hidden && r2.operation == MODIFY;
    RaceReplay(s2, a, b, c, chain, protocol, r2);
    var r3, s3 := MergePending(r2, NewRecord(a, protocol, a.id, false), a.id), Process(s2, a, false);
    assert r3.currentPinId == b.id && r3.isMempool && !r3.hidden && r3.operation == MODIFY;
    RaceVersion(s3, a, b, c, chain, protocol, r3, c, false);
    var r4, s4 := NextVersion(r3, c, protocol, false), Process(s3, c, false);
    assert r4.currentPinId == b.id && r4.isMempool && !r4.hidden && r4.operation == MODIFY;
    RaceVersion(s4, a, b, c, chain, protocol, r4, b, false);
  }

  // ---- Such pins exist ----

  function ExamplePin(id: string, operation: string, originalId: string): Pin
  {
    Pin(id, "btc", PATH_SIMPLE_BUZZ, operation, originalId, "", "hello", "", None, "", "", "", "", "", "", 1, 1, "")
  }

  lemma PathLetters()
    ensures '@' !in PATH_SIMPLE_BUZZ && ToLower(PATH_SIMPLE_BUZZ) == PATH_SIMPLE_BUZZ
    ensures PATH_SIMPLE_BUZZ[0] == '/' && PATH_SIMPLE_BUZZ[|PATH_SIMPLE_BUZZ| - 1] == 'z'
  {}

  lemma PlainPath()
    ensures ProtocolPath(PATH_SIMPLE_BUZZ) == PATH_SIMPLE_BUZZ && TargetFromPath(PATH_SIMPLE_BUZZ) == ""
  {
    hide TrimSpace, TrimRight, ToLower, Index;
    PathLetters();
    NothingToTrim(PATH_SIMPLE_BUZZ);
    NothingToCut(PATH_SIMPLE_BUZZ);
    NoneFound(PATH_SIMPLE_BUZZ, '@');
  }

  lemma ExampleOperations()
    ensures ToLower(TrimSpace("create")) == CREATE && ToLower(TrimSpace("modify")) == MODIFY && ToLower(TrimSpace("revoke")) == REVOKE
    ensures ToLower(TrimSpace("btc")) == "btc" && TrimSpace("a") == "a" && TrimPrefix("a", "@") == "a"
  {
    assert TrimSpace("create") == "create" && TrimSpace("modify") == "modify" && TrimSpace("revoke") == "revoke";
    assert TrimSpace("btc") == "btc" && TrimSpace("a") == "a";
  }

  /** Such a race can be received: create "a", modify "b" and revoke "c" of it. */
  lemma RaceReceivable()
    ensures var a, b, c := ExamplePin("a", "create", ""), ExamplePin("b", "modify", "a"), ExamplePin("c", "revoke", "a");
            Race(a, b, c, "btc", PATH_SIMPLE_BUZZ)
            && WellNamed(a, ExampleCatalogue()) && WellNamed(b, ExampleCatalogue()) && WellNamed(c, ExampleCatalogue())
  {
    hide TrimSpace, ToLower, ProtocolPath, TargetFromPath, TrimPrefix;
    PlainPath();
    ExampleOperations();
    NothingToTrim("b");
    NothingToTrim("c");
    OperationsDiffer();
    assert "a"[0] != "b"[0] && "a"[0] != "c"[0] && "b"[0] != "c"[0];
    NoPublisher("a", "create", "");
    NoPublisher("b", "modify", "a");
    NoPublisher("c", "revoke", "a");
  }

  function ExampleCatalogue(): Catalogue
  {
    Catalogue({PinKey("btc", "a")}, map[PinKey("btc", "b") := "a", PinKey("btc", "c") := "a"])
  }

  lemma NoPublisher(id: string, operation: string, originalId: string)
    ensures PublisherOf(ExamplePin(id, operation, originalId)) == Publisher("", "", "")
  {}
}
