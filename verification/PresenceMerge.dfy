/** Merging presence observations into one entry per identity and type: what an entry says about its
    observations, that no observation is lost, and when the order of arrival does not matter. */
module PresenceMerge {
  import opened Federation
  import opened KeyEncoding
  import opened Sorting

  /** An entry as one node reported it. */
  datatype Observation = Observation(item: OnlineEntry, nodeId: string)

  datatype Aggregate = Aggregate(metaId: string, kind: string, connectedAt: int, lastSeenAt: int,
                                 sources: set<string>, count: nat)

  const SEPARATOR: char := 0 as char

  function KeyOf(metaId: string, kind: string): string { metaId + [SEPARATOR] + kind }

  function Key(o: Observation): string { KeyOf(o.item.metaId, o.item.kind) }

  function NodeName(nodeId: string): string { if nodeId == "" then DEFAULT_LOCAL_NODE else nodeId }

  // ---- Adding one observation ----

  function Earlier(a: int, b: int): int { if b != 0 && (a == 0 || b < a) then b else a }

  function Later(a: int, b: int): int { if b > a then b else a }

  function First(o: Observation): Aggregate
  {
    Aggregate(o.item.metaId, o.item.kind, o.item.connectedAt, o.item.lastSeenAt, {NodeName(o.nodeId)}, 1)
  }

  function Merge(a: Aggregate, o: Observation): Aggregate
  {
    a.(connectedAt := Earlier(a.connectedAt, o.item.connectedAt), lastSeenAt := Later(a.lastSeenAt, o.item.lastSeenAt),
       sources := a.sources + {NodeName(o.nodeId)}, count := a.count + 1)
  }

  function AddTo(entries: map<string, Aggregate>, o: Observation): map<string, Aggregate>
  {
    entries[Key(o) := if Key(o) in entries then Merge(entries[Key(o)], o) else First(o)]
  }

  function Fold(obs: seq<Observation>): map<string, Aggregate>
  {
    if obs == [] then map[] else AddTo(Fold(obs[..|obs| - 1]), obs[|obs| - 1])
  }

  lemma FoldSnoc(obs: seq<Observation>, o: Observation)
    ensures Fold(obs + [o]) == AddTo(Fold(obs), o)
  {
    assert (obs + [o])[..|obs|] == obs;
  }

  method AddObservation(entries: map<string, Aggregate>, item: OnlineEntry, nodeId: string)
    returns (r: map<string, Aggregate>)
    ensures r == AddTo(entries, Observation(item, nodeId))
  {
    var source := nodeId;
    if source == "" {
      source := DEFAULT_LOCAL_NODE;
    }
    var key := item.metaId + [SEPARATOR] + item.kind;
    if key !in entries {
      return entries[key := Aggregate(item.metaId, item.kind, item.connectedAt, item.lastSeenAt, {source}, 1)];
    }
    var aggregated := entries[key];
    if item.connectedAt != 0 && (aggregated.connectedAt == 0 || item.connectedAt < aggregated.connectedAt) {
      aggregated := aggregated.(connectedAt := item.connectedAt);
    }
    if item.lastSeenAt > aggregated.lastSeenAt {
      aggregated := aggregated.(lastSeenAt := item.lastSeenAt);
    }
    aggregated := aggregated.(sources := aggregated.sources + {source}, count := aggregated.count + 1);
    return entries[key := aggregated];
  }

  // ---- What an aggregate says ----

  predicate HasKey(obs: seq<Observation>, key: string)
  {
    exists i :: 0 <= i < |obs| && Key(obs[i]) == key
  }

  function Count(obs: seq<Observation>, key: string): nat
  {
    if obs == [] then 0 else Count(obs[..|obs| - 1], key) + if Key(obs[|obs| - 1]) == key then 1 else 0
  }

  ghost function Reporters(obs: seq<Observation>, key: string): set<string>
  {
    set i | 0 <= i < |obs| && Key(obs[i]) == key :: NodeName(obs[i].nodeId)
  }

  ghost predicate IsLatest(t: int, obs: seq<Observation>, key: string)
  {
    && (exists i :: 0 <= i < |obs| && Key(obs[i]) == key && obs[i].item.lastSeenAt == t)
    && (forall i :: 0 <= i < |obs| && Key(obs[i]) == key ==> obs[i].item.lastSeenAt <= t)
  }

  /** The earliest connection time that is known, zero when none is. */
  ghost predicate IsEarliest(t: int, obs: seq<Observation>, key: string)
  {
    && (exists i :: 0 <= i < |obs| && Key(obs[i]) == key && obs[i].item.connectedAt == t)
    && (forall i :: 0 <= i < |obs| && Key(obs[i]) == key && obs[i].item.connectedAt != 0 ==>
          t != 0 && t <= obs[i].item.connectedAt)
  }

  ghost predicate NamedByFirst(a: Aggregate, obs: seq<Observation>, key: string)
  {
    exists i :: 0 <= i < |obs| && Key(obs[i]) == key && (forall j :: 0 <= j < i ==> Key(obs[j]) != key)
                && a.metaId == obs[i].item.metaId && a.kind == obs[i].item.kind
  }

  ghost predicate Summarises(a: Aggregate, obs: seq<Observation>, key: string)
  {
    && a.count == Count(obs, key) && a.sources == Reporters(obs, key)
    && IsLatest(a.lastSeenAt, obs, key) && IsEarliest(a.connectedAt, obs, key)
    && NamedByFirst(a, obs, key) && KeyOf(a.metaId, a.kind) == key
  }

  lemma {:induction false} NoneCounted(obs: seq<Observation>, key: string)
    requires !HasKey(obs, key)
    ensures Count(obs, key) == 0 && Reporters(obs, key) == {}
  {
    if obs != [] {
      var front := obs[..|obs| - 1];
      assert Key(obs[|obs| - 1]) != key;
      assert forall i :: 0 <= i < |front| ==> front[i] == obs[i];
      NoneCounted(front, key);
    }
  }

  /** The aggregate kept under a key summarises the observations with that key. */
  lemma {:induction false} FoldSummarises(obs: seq<Observation>, key: string)
    ensures key in Fold(obs) <==> HasKey(obs, key)
    ensures key in Fold(obs) ==> Summarises(Fold(obs)[key], obs, key)
  {
    hide KeyOf;
    if obs != [] {
      var front, o := obs[..|obs| - 1], obs[|obs| - 1];
      FoldSummarises(front, key);
      assert obs == front + [o];
      if key in Fold(obs) {
        if key in Fold(front) {
          SummaryExtends(Fold(front)[key], front, o, key);
        } else {
          SummaryStarts(front, o, key);
        }
      }
      assert HasKey(obs, key) <==> HasKey(front, key) || Key(o) == key by {
        assert obs[|obs| - 1] == o;
        assert forall i :: 0 <= i < |front| ==> front[i] == obs[i];
      }
    }
  }

  lemma SummaryStarts(front: seq<Observation>, o: Observation, key: string)
    requires !HasKey(front, key) && Key(o) == key
    ensures Summarises(First(o), front + [o], key)
  {
    hide KeyOf, Count, Reporters, HasKey;
    NoneCounted(front, key);
    CountExtends(front, o, key);
    ReportersExtend(front, o, key);
    OnlyLast(front, o, key);
    var obs := front + [o];
    assert obs[|front|] == o;
  }

  lemma OnlyLast(front: seq<Observation>, o: Observation, key: string)
    requires !HasKey(front, key)
    ensures forall i :: 0 <= i < |front| ==> Key((front + [o])[i]) != key
  {
    hide KeyOf;
    forall i | 0 <= i < |front|
      ensures Key((front + [o])[i]) != key
    {
      assert (front + [o])[i] == front[i];
    }
  }

  lemma CountExtends(front: seq<Observation>, o: Observation, key: string)
    ensures Count(front + [o], key) == Count(front, key) + if Key(o) == key then 1 else 0
  {
    assert (front + [o])[..|front|] == front;
  }

  lemma SummaryExtends(a: Aggregate, front: seq<Observation>, o: Observation, key: string)
    requires Summarises(a, front, key)
    ensures Summarises(if Key(o) == key then Merge(a, o) else a, front + [o], key)
  {
    hide KeyOf, Count, Reporters, IsLatest, IsEarliest, NamedByFirst;
    CountExtends(front, o, key);
    ReportersExtend(front, o, key);
    LatestExtends(a.lastSeenAt, front, o, key);
    EarliestExtends(a.connectedAt, front, o, key);
    NameStays(a, front, o, key);
  }

  lemma NameStays(a: Aggregate, front: seq<Observation>, o: Observation, key: string)
    requires NamedByFirst(a, front, key)
    ensures NamedByFirst(if Key(o) == key then Merge(a, o) else a, front + [o], key)
  {
    hide KeyOf;
    var i :| 0 <= i < |front| && Key(front[i]) == key && (forall j :: 0 <= j < i ==> Key(front[j]) != key)
             && a.metaId == front[i].item.metaId && a.kind == front[i].item.kind;
    assert forall j :: 0 <= j <= i ==> (front + [o])[j] == front[j];
  }

  lemma ReportersExtend(front: seq<Observation>, o: Observation, key: string)
    ensures Reporters(front + [o], key) == Reporters(front, key) + if Key(o) == key then {NodeName(o.nodeId)} else {}
  {
    hide KeyOf, NodeName;
    var obs := front + [o];
    assert obs[|front|] == o;
    forall i | 0 <= i < |front|
      ensures obs[i] == front[i]
    {}
    forall x | x in Reporters(front, key)
      ensures x in Reporters(obs, key)
    {
      var i :| 0 <= i < |front| && Key(front[i]) == key && NodeName(front[i].nodeId) == x;
      assert Key(obs[i]) == key && NodeName(obs[i].nodeId) == x;
    }
  }

  lemma LatestExtends(t: int, front: seq<Observation>, o: Observation, key: string)
    requires IsLatest(t, front, key)
    ensures IsLatest(if Key(o) == key then Later(t, o.item.lastSeenAt) else t, front + [o], key)
  {
    hide KeyOf;
    var obs := front + [o];
    assert obs[|front|] == o;
    var i :| 0 <= i < |front| && Key(front[i]) == key && front[i].item.lastSeenAt == t;
    assert obs[i] == front[i];
  }

  lemma EarliestExtends(t: int, front: seq<Observation>, o: Observation, key: string)
    requires IsEarliest(t, front, key)
    ensures IsEarliest(if Key(o) == key then Earlier(t, o.item.connectedAt) else t, front + [o], key)
  {
    hide KeyOf;
    var obs := front + [o];
    assert obs[|front|] == o;
    var i :| 0 <= i < |front| && Key(front[i]) == key && front[i].item.connectedAt == t;
    assert obs[i] == front[i];
  }

  // ---- The list of items ----

  /** The list entry of an aggregate. */
  ghost function ItemOf(a: Aggregate): OnlineEntry
  {
    OnlineEntry(a.metaId, a.kind, a.connectedAt, a.lastSeenAt, a.count, SortedList(a.sources))
  }

  ghost function ItemsOf(entries: map<string, Aggregate>): set<OnlineEntry>
  {
    set key | key in entries :: ItemOf(entries[key])
  }

  /** Most recently seen first, then by identity and type. */
  predicate Before(a: OnlineEntry, b: OnlineEntry)
  {
    a.lastSeenAt > b.lastSeenAt
    || (a.lastSeenAt == b.lastSeenAt
        && (Less(a.metaId, b.metaId) || (a.metaId == b.metaId && Less(a.kind, b.kind))))
  }

  lemma BeforeOrder()
    ensures StrictOrder(Before)
  {
    hide Less;
    forall x: OnlineEntry
      ensures !Before(x, x)
    {
      LessIrreflexive(x.metaId);
      LessIrreflexive(x.kind);
    }
    forall x: OnlineEntry, y: OnlineEntry, z: OnlineEntry | Before(x, y) && Before(y, z)
      ensures Before(x, z)
    {
      if Less(x.metaId, y.metaId) && Less(y.metaId, z.metaId) {
        LessTransitive(x.metaId, y.metaId, z.metaId);
      }
      if Less(x.kind, y.kind) && Less(y.kind, z.kind) {
        LessTransitive(x.kind, y.kind, z.kind);
      }
    }
  }

  /** Entries are stored under the key of the identity and type they name. */
  ghost predicate WellKeyed(entries: map<string, Aggregate>)
  {
    forall key :: key in entries ==> KeyOf(entries[key].metaId, entries[key].kind) == key
  }

  lemma FoldWellKeyed(obs: seq<Observation>)
    ensures WellKeyed(Fold(obs))
  {
    hide KeyOf, Fold;
    forall key | key in Fold(obs)
      ensures KeyOf(Fold(obs)[key].metaId, Fold(obs)[key].kind) == key
    {
      FoldSummarises(obs, key);
    }
  }

  lemma ItemsComparable(entries: map<string, Aggregate>)
    requires WellKeyed(entries)
    ensures Comparable(Before, ItemsOf(entries))
  {
    hide Less, KeyOf, SortedList;
    forall x, y | x in ItemsOf(entries) && y in ItemsOf(entries) && x != y
      ensures Before(x, y) || Before(y, x)
    {
      LessTotal(x.metaId, y.metaId);
      LessTotal(x.kind, y.kind);
      assert KeyOf(x.metaId, x.kind) != KeyOf(y.metaId, y.kind);
    }
  }

  /** `items` is the merged list of the observations. */
  ghost predicate IsMerged(obs: seq<Observation>, items: seq<OnlineEntry>)
  {
    Sorted(Before, items) && Lists(items, ItemsOf(Fold(obs)))
  }

  lemma MergedExists(obs: seq<Observation>) returns (items: seq<OnlineEntry>)
    ensures IsMerged(obs, items)
  {
    hide Fold, Before, StrictOrder, Comparable;
    BeforeOrder();
    FoldWellKeyed(obs);
    ItemsComparable(Fold(obs));
    items := SortedExists(Before, ItemsOf(Fold(obs)));
  }

  /** The observations determine the list. */
  lemma MergedUnique(obs: seq<Observation>, a: seq<OnlineEntry>, b: seq<OnlineEntry>)
    requires IsMerged(obs, a) && IsMerged(obs, b)
    ensures a == b
  {
    hide Fold, Before, StrictOrder;
    BeforeOrder();
    SortedUnique(Before, a, b);
  }

  // ---- The merge as it runs ----

  function Reported(items: seq<OnlineEntry>, nodeId: string): seq<Observation>
  {
    seq(|items|, i requires 0 <= i < |items| => Observation(items[i], nodeId))
  }

  function FromSnapshots(snapshots: seq<Snapshot>): seq<Observation>
  {
    if snapshots == [] then []
    else FromSnapshots(snapshots[..|snapshots| - 1])
         + Reported(snapshots[|snapshots| - 1].items, snapshots[|snapshots| - 1].nodeId)
  }

  /** Local entries first, then the items of each snapshot. */
  function Observations(local: seq<OnlineEntry>, snapshots: seq<Snapshot>, localNodeId: string): seq<Observation>
  {
    Reported(local, NodeName(localNodeId)) + FromSnapshots(snapshots)
  }

  ghost function MetaIds(obs: seq<Observation>): set<string>
  {
    set i | 0 <= i < |obs| :: obs[i].item.metaId
  }

  /** The entries, identities and number of the observations read so far. */
  ghost predicate ReadSoFar(obs: seq<Observation>, entries: map<string, Aggregate>, metaIds: set<string>, total: nat)
  {
    entries == Fold(obs) && metaIds == MetaIds(obs) && total == |obs|
  }

  lemma ReadOneMore(obs: seq<Observation>, o: Observation)
    ensures ReadSoFar(obs + [o], AddTo(Fold(obs), o), MetaIds(obs) + {o.item.metaId}, |obs| + 1)
  {
    hide AddTo, Fold, MetaIds;
    FoldSnoc(obs, o);
    MetaIdsGrow(obs, o);
  }

  lemma MetaIdsGrow(obs: seq<Observation>, o: Observation)
    ensures MetaIds(obs + [o]) == MetaIds(obs) + {o.item.metaId}
  {
    var more := obs + [o];
    assert more[|obs|] == o;
    forall x | x in MetaIds(obs)
      ensures x in MetaIds(more)
    {
      var i :| 0 <= i < |obs| && obs[i].item.metaId == x;
      assert more[i] == obs[i];
    }
  }

  method ReadItems(items: seq<OnlineEntry>, nodeId: string, ghost before: seq<Observation>,
                   entries: map<string, Aggregate>, metaIds: set<string>, total: nat)
    returns (entries': map<string, Aggregate>, metaIds': set<string>, total': nat)
    requires ReadSoFar(before, entries, metaIds, total)
    ensures ReadSoFar(before + Reported(items, nodeId), entries', metaIds', total')
  {
    hide AddTo, Fold, MetaIds;
    entries', metaIds', total' := entries, metaIds, total;
    assert before + Reported(items[..0], nodeId) == before;
    for i := 0 to |items|
      invariant ReadSoFar(before + Reported(items[..i], nodeId), entries', metaIds', total')
    {
      ghost var sofar := before + Reported(items[..i], nodeId);
      ReadOneMore(sofar, Observation(items[i], nodeId));
      assert sofar + [Observation(items[i], nodeId)] == before + Reported(items[..i + 1], nodeId);
      total' := total' + 1;
      metaIds' := metaIds' + {items[i].metaId};
      entries' := AddObservation(entries', items[i], nodeId);
    }
    assert items[..|items|] == items;
  }

  method AggregatePresence(local: seq<OnlineEntry>, snapshots: seq<Snapshot>, localNodeId: string)
    returns (items: seq<OnlineEntry>, totalConnections: nat, uniqueMetaIds: nat)
    ensures IsMerged(Observations(local, snapshots, localNodeId), items)
    ensures totalConnections == |Observations(local, snapshots, localNodeId)|
    ensures uniqueMetaIds == |MetaIds(Observations(local, snapshots, localNodeId))|
  {
    hide AddTo, Fold, MetaIds, Before, StrictOrder;
    var self := localNodeId;
    if self == "" {
      self := DEFAULT_LOCAL_NODE;
    }
    NothingRead();
    var entries, metaIds, total := ReadItems(local, self, [], map[], {}, 0);
    ghost var first := Reported(local, self);
    assert [] + first == first;
    assert first + FromSnapshots([]) == first;
    for i := 0 to |snapshots|
      invariant ReadSoFar(first + FromSnapshots(snapshots[..i]), entries, metaIds, total)
    {
      ghost var before := first + FromSnapshots(snapshots[..i]);
      entries, metaIds, total := ReadItems(snapshots[i].items, snapshots[i].nodeId, before, entries, metaIds, total);
      assert snapshots[..i + 1][..i] == snapshots[..i];
      assert before + Reported(snapshots[i].items, snapshots[i].nodeId) == first + FromSnapshots(snapshots[..i + 1]);
    }
    assert snapshots[..|snapshots|] == snapshots;
    FoldWellKeyed(Observations(local, snapshots, localNodeId));
    items := SortedItems(entries);
    totalConnections := total;
    uniqueMetaIds := |metaIds|;
  }

  lemma NothingRead()
    ensures ReadSoFar([], map[], {}, 0)
  {}

  method SortedItems(entries: map<string, Aggregate>) returns (items: seq<OnlineEntry>)
    requires WellKeyed(entries)
    ensures Sorted(Before, items) && Lists(items, ItemsOf(entries))
  {
    hide Before, StrictOrder, Comparable, WellKeyed;
    var unsorted: set<OnlineEntry> := {};
    var keys := entries.Keys;
    while keys != {}
      invariant keys <= entries.Keys
      invariant unsorted == set key | key in entries && key !in keys :: ItemOf(entries[key])
      decreases keys
    {
      var key :| key in keys;
      keys := keys - {key};
      var a := entries[key];
      var ids := SortStrings(a.sources);
      SameList(ids, a.sources);
      unsorted := unsorted + {OnlineEntry(a.metaId, a.kind, a.connectedAt, a.lastSeenAt, a.count, ids)};
    }
    assert unsorted == ItemsOf(entries);
    BeforeOrder();
    ItemsComparable(entries);
    items := SortSet(Before, unsorted);
  }

  // ---- One item per identity and type, none lost ----

  /** Observations with one key name one identity and type. */
  predicate CollisionFree(obs: seq<Observation>)
  {
    forall i, j :: 0 <= i < |obs| && 0 <= j < |obs| && Key(obs[i]) == Key(obs[j]) ==>
      obs[i].item.metaId == obs[j].item.metaId && obs[i].item.kind == obs[j].item.kind
  }

  /** Identities without the separator never collide. */
  lemma PlainIdentities(obs: seq<Observation>)
    requires forall i :: 0 <= i < |obs| ==> SEPARATOR !in obs[i].item.metaId
    ensures CollisionFree(obs)
  {
    forall i, j | 0 <= i < |obs| && 0 <= j < |obs| && Key(obs[i]) == Key(obs[j])
      ensures obs[i].item.metaId == obs[j].item.metaId && obs[i].item.kind == obs[j].item.kind
    {
      SeparatorSplits(obs[i].item.metaId, obs[i].item.kind, obs[j].item.metaId, obs[j].item.kind);
    }
  }

  lemma SeparatorSplits(a: string, x: string, b: string, y: string)
    requires SEPARATOR !in a && SEPARATOR !in b && KeyOf(a, x) == KeyOf(b, y)
    ensures a == b && x == y
  {
    NoSeparatorBefore(a, x, |b|);
    NoSeparatorBefore(b, y, |a|);
    var k := KeyOf(a, x);
    assert k[|a|] == KeyOf(b, y)[|a|] && k[|b|] == KeyOf(b, y)[|b|];
    assert a == k[..|a|] && b == k[..|b|] && x == k[|a| + 1..] && y == k[|b| + 1..];
  }

  lemma NoSeparatorBefore(a: string, x: string, i: nat)
    requires SEPARATOR !in a
    ensures i < |a| ==> KeyOf(a, x)[i] != SEPARATOR
    ensures KeyOf(a, x)[|a|] == SEPARATOR
  {}

  lemma ItemHasEntry(obs: seq<Observation>, item: OnlineEntry)
    requires item in ItemsOf(Fold(obs))
    ensures var key := KeyOf(item.metaId, item.kind);
            key in Fold(obs) && item == ItemOf(Fold(obs)[key]) && Summarises(Fold(obs)[key], obs, key)
  {
    hide KeyOf, Fold, SortedList, Summarises;
    var key :| key in Fold(obs) && item == ItemOf(Fold(obs)[key]);
    FoldWellKeyed(obs);
    FoldSummarises(obs, key);
  }

  lemma EntryHasItem(obs: seq<Observation>, key: string)
    requires key in Fold(obs)
    ensures ItemOf(Fold(obs)[key]) in ItemsOf(Fold(obs))
  {}

  predicate Reports(o: Observation, metaId: string, kind: string) { o.item.metaId == metaId && o.item.kind == kind }

  /** What an item of the merged list says: the earliest known connection and the latest sighting of its
      identity and type, the number of observations, and the sorted names of their reporters. */
  lemma {:induction false} ItemMeaning(obs: seq<Observation>, items: seq<OnlineEntry>, k: nat)
    requires CollisionFree(obs) && IsMerged(obs, items) && k < |items|
    ensures var x := items[k];
            && (forall i :: 0 <= i < |obs| && Reports(obs[i], x.metaId, x.kind) ==>
                  obs[i].item.lastSeenAt <= x.lastSeenAt
                  && (obs[i].item.connectedAt != 0 ==> x.connectedAt != 0 && x.connectedAt <= obs[i].item.connectedAt)
                  && NodeName(obs[i].nodeId) in x.sourceNodeIds)
            && (exists i :: 0 <= i < |obs| && Reports(obs[i], x.metaId, x.kind) && obs[i].item.lastSeenAt == x.lastSeenAt)
            && (exists i :: 0 <= i < |obs| && Reports(obs[i], x.metaId, x.kind) && obs[i].item.connectedAt == x.connectedAt)
            && (forall n <- x.sourceNodeIds ::
                  exists i :: 0 <= i < |obs| && Reports(obs[i], x.metaId, x.kind) && NodeName(obs[i].nodeId) == n)
            && x.sources == Count(obs, KeyOf(x.metaId, x.kind)) && Sorted(Less, x.sourceNodeIds)
  {
    hide Fold, KeyOf, Less, NodeName, Before;
    var x := items[k];
    assert x in items;
    ItemHasEntry(obs, x);
    var key := KeyOf(x.metaId, x.kind);
    KeyMeansReports(obs, x.metaId, x.kind);
    assert forall n :: n in x.sourceNodeIds <==> n in Reporters(obs, key);
  }

  lemma KeyMeansReports(obs: seq<Observation>, metaId: string, kind: string)
    requires CollisionFree(obs) && KeyOf(metaId, kind) in Fold(obs)
    requires Fold(obs)[KeyOf(metaId, kind)].metaId == metaId && Fold(obs)[KeyOf(metaId, kind)].kind == kind
    ensures forall i :: 0 <= i < |obs| ==> (Key(obs[i]) == KeyOf(metaId, kind) <==> Reports(obs[i], metaId, kind))
  {
    hide KeyOf, Fold;
    var key := KeyOf(metaId, kind);
    FoldSummarises(obs, key);
    var a := Fold(obs)[key];
    var h :| 0 <= h < |obs| && Key(obs[h]) == key && (forall j :: 0 <= j < h ==> Key(obs[j]) != key)
             && a.metaId == obs[h].item.metaId && a.kind == obs[h].item.kind;
  }

  ghost predicate HasItem(items: seq<OnlineEntry>, metaId: string, kind: string)
  {
    exists k :: 0 <= k < |items| && items[k].metaId == metaId && items[k].kind == kind
  }

  /** The order of the list: latest sighting first, then by identity, then by type. */
  lemma ItemOrder(obs: seq<Observation>, items: seq<OnlineEntry>, i: nat, j: nat)
    requires IsMerged(obs, items) && i < j < |items|
    ensures items[i].lastSeenAt >= items[j].lastSeenAt
    ensures items[i].lastSeenAt == items[j].lastSeenAt ==> items[i].metaId == items[j].metaId || Less(items[i].metaId, items[j].metaId)
    ensures items[i].lastSeenAt == items[j].lastSeenAt && items[i].metaId == items[j].metaId ==> Less(items[i].kind, items[j].kind)
  {
    hide Less, ItemsOf, Fold;
    LessIrreflexive(items[i].metaId);
  }

  /** A node without a name reports as "local". */
  lemma NodeNames(nodeId: string)
    ensures NodeName("") == "local" && (nodeId != "" ==> NodeName(nodeId) == nodeId)
  {}

  /** Every observed identity and type has exactly one item. */
  lemma OneItemEach(obs: seq<Observation>, items: seq<OnlineEntry>)
    requires CollisionFree(obs) && IsMerged(obs, items)
    ensures forall i :: 0 <= i < |obs| ==> HasItem(items, obs[i].item.metaId, obs[i].item.kind)
    ensures forall k, l :: 0 <= k < l < |items| ==> items[k].metaId != items[l].metaId || items[k].kind != items[l].kind
  {
    hide Fold, KeyOf, Less, Before, CollisionFree;
    forall i | 0 <= i < |obs|
      ensures HasItem(items, obs[i].item.metaId, obs[i].item.kind)
    {
      var key := Key(obs[i]);
      FoldSummarises(obs, key);
      var item := ItemOf(Fold(obs)[key]);
      EntryHasItem(obs, key);
      assert item in items;
      SameKeySameName(obs, i, key);
    }
    ItemsDistinct(obs, items);
    forall k, l | 0 <= k < l < |items|
      ensures items[k].metaId != items[l].metaId || items[k].kind != items[l].kind
    {
      assert KeyOf(items[k].metaId, items[k].kind) != KeyOf(items[l].metaId, items[l].kind);
    }
  }

  /** Each observation is counted in the item of its key, under its reporter's name. */
  lemma ObservationCounted(obs: seq<Observation>, items: seq<OnlineEntry>, i: nat) returns (item: OnlineEntry)
    requires IsMerged(obs, items) && i < |obs|
    ensures item in items && KeyOf(item.metaId, item.kind) == Key(obs[i])
    ensures NodeName(obs[i].nodeId) in item.sourceNodeIds
  {
    hide Fold, KeyOf, Less, Before, NodeName;
    var key := Key(obs[i]);
    FoldSummarises(obs, key);
    EntryHasItem(obs, key);
    item := ItemOf(Fold(obs)[key]);
    assert NodeName(obs[i].nodeId) in Reporters(obs, key);
  }

  lemma SameKeySameName(obs: seq<Observation>, i: nat, key: string)
    requires CollisionFree(obs) && i < |obs| && Key(obs[i]) == key && key in Fold(obs)
    ensures Reports(obs[i], Fold(obs)[key].metaId, Fold(obs)[key].kind)
  {
    hide Fold, KeyOf;
    FoldSummarises(obs, key);
  }

  lemma ItemsDistinct(obs: seq<Observation>, items: seq<OnlineEntry>)
    requires IsMerged(obs, items)
    ensures forall k, l :: 0 <= k < l < |items| ==> KeyOf(items[k].metaId, items[k].kind) != KeyOf(items[l].metaId, items[l].kind)
  {
    hide Fold, KeyOf, Before, StrictOrder, SortedList, ItemOf, ItemsOf, Summarises;
    BeforeOrder();
    forall k, l | 0 <= k < l < |items|
      ensures KeyOf(items[k].metaId, items[k].kind) != KeyOf(items[l].metaId, items[l].kind)
    {
      assert items[k] in items && items[l] in items;
      ItemHasEntry(obs, items[k]);
      ItemHasEntry(obs, items[l]);
      assert Before(items[k], items[l]);
      NotBeforeItself(items[k], items[l]);
    }
  }

  lemma NotBeforeItself(a: OnlineEntry, b: OnlineEntry)
    requires Before(a, b)
    ensures a != b
  {
    hide Less;
    LessIrreflexive(a.metaId);
    LessIrreflexive(a.kind);
  }

  // ---- Conservation ----

  function SumSources(items: seq<OnlineEntry>): int
  {
    if items == [] then 0 else items[0].sources + SumSources(items[1..])
  }

  function SumCounts(keys: seq<string>, obs: seq<Observation>): nat
  {
    if keys == [] then 0 else Count(obs, keys[0]) + SumCounts(keys[1..], obs)
  }

  predicate Distinct(keys: seq<string>) { forall i, j :: 0 <= i < j < |keys| ==> keys[i] != keys[j] }

  lemma {:induction false} OneCountGrows(keys: seq<string>, obs: seq<Observation>, o: Observation)
    requires Distinct(keys)
    ensures SumCounts(keys, obs + [o]) == SumCounts(keys, obs) + if Key(o) in keys then 1 else 0
  {
    hide Key;
    if keys != [] {
      assert (obs + [o])[..|obs|] == obs;
      OneCountGrows(keys[1..], obs, o);
      assert keys == [keys[0]] + keys[1..];
    }
  }

  lemma {:induction false} CountsOfNothing(keys: seq<string>)
    ensures SumCounts(keys, []) == 0
  {
    if keys != [] {
      CountsOfNothing(keys[1..]);
    }
  }

  lemma {:induction false} CountsCoverAll(keys: seq<string>, obs: seq<Observation>)
    requires Distinct(keys) && forall i :: 0 <= i < |obs| ==> Key(obs[i]) in keys
    ensures SumCounts(keys, obs) == |obs|
  {
    hide Key, SumCounts;
    if obs == [] {
      CountsOfNothing(keys);
    } else {
      var front := obs[..|obs| - 1];
      assert forall i :: 0 <= i < |front| ==> front[i] == obs[i];
      CountsCoverAll(keys, front);
      OneCountGrows(keys, front, obs[|obs| - 1]);
      assert obs == front + [obs[|obs| - 1]];
    }
  }

  function KeysOf(items: seq<OnlineEntry>): (keys: seq<string>)
    ensures |keys| == |items|
  {
    seq(|items|, i requires 0 <= i < |items| => KeyOf(items[i].metaId, items[i].kind))
  }

  lemma {:induction false} SourcesAreCounts(items: seq<OnlineEntry>, obs: seq<Observation>)
    requires forall k :: 0 <= k < |items| ==> items[k].sources == Count(obs, KeyOf(items[k].metaId, items[k].kind))
    ensures SumSources(items) == SumCounts(KeysOf(items), obs)
  {
    hide KeyOf, Count;
    if items != [] {
      SourcesAreCounts(items[1..], obs);
      assert KeysOf(items)[1..] == KeysOf(items[1..]);
    }
  }

  /** The sources of the items add up to the number of observations, whatever their keys. */
  lemma SourcesSumToConnections(obs: seq<Observation>, items: seq<OnlineEntry>)
    requires IsMerged(obs, items)
    ensures SumSources(items) == |obs|
  {
    hide Fold, KeyOf, Before, Count, SumCounts, SumSources;
    ItemsDistinct(obs, items);
    var keys := KeysOf(items);
    forall k | 0 <= k < |items|
      ensures items[k].sources == Count(obs, KeyOf(items[k].metaId, items[k].kind))
    {
      assert items[k] in items;
      ItemHasEntry(obs, items[k]);
    }
    SourcesAreCounts(items, obs);
    forall i | 0 <= i < |obs|
      ensures Key(obs[i]) in keys
    {
      var key := Key(obs[i]);
      FoldSummarises(obs, key);
      EntryHasItem(obs, key);
      var item := ItemOf(Fold(obs)[key]);
      assert item in items;
      var k :| 0 <= k < |items| && items[k] == item;
      assert keys[k] == key;
    }
    CountsCoverAll(keys, obs);
  }

  // ---- Order of arrival ----

  lemma AddCommutes(entries: map<string, Aggregate>, x: Observation, y: Observation)
    requires Key(x) == Key(y) ==> x.item.metaId == y.item.metaId && x.item.kind == y.item.kind
    ensures AddTo(AddTo(entries, x), y) == AddTo(AddTo(entries, y), x)
  {
    hide Key, NodeName;
    if Key(x) == Key(y) && Key(x) in entries {
      var a := entries[Key(x)];
      assert Merge(Merge(a, x), y) == Merge(Merge(a, y), x);
    } else if Key(x) == Key(y) {
      assert Merge(First(x), y) == Merge(First(y), x);
    }
  }

  function Without(obs: seq<Observation>, i: nat): seq<Observation>
    requires i < |obs|
  {
    obs[..i] + obs[i + 1..]
  }

  /** An observation may as well have arrived last. */
  lemma {:induction false} MoveToEnd(obs: seq<Observation>, i: nat)
    requires CollisionFree(obs) && i < |obs|
    ensures Fold(obs) == AddTo(Fold(Without(obs, i)), obs[i])
    decreases |obs|
  {
    hide Key, AddTo, CollisionFree, Fold;
    var last := |obs| - 1;
    assert obs == obs[..last] + [obs[last]];
    FoldSnoc(obs[..last], obs[last]);
    if i == last {
      assert Without(obs, i) == obs[..last];
    } else {
      var front := obs[..last];
      FrontCollisionFree(obs, i);
      MoveToEnd(front, i);
      var rest := Without(front, i);
      AddCommutes(Fold(rest), obs[i], obs[last]);
      FoldSnoc(rest, obs[last]);
      assert Without(obs, i) == rest + [obs[last]];
    }
  }

  lemma FrontCollisionFree(obs: seq<Observation>, i: nat)
    requires CollisionFree(obs) && i < |obs|
    ensures CollisionFree(obs[..|obs| - 1])
    ensures Key(obs[i]) == Key(obs[|obs| - 1]) ==>
              obs[i].item.metaId == obs[|obs| - 1].item.metaId && obs[i].item.kind == obs[|obs| - 1].item.kind
  {
    hide Key;
    var front := obs[..|obs| - 1];
    assert forall j :: 0 <= j < |front| ==> front[j] == obs[j];
  }

  lemma MultisetWithout(obs: seq<Observation>, i: nat)
    requires i < |obs|
    ensures multiset(Without(obs, i)) == multiset(obs) - multiset{obs[i]}
  {
    assert obs == obs[..i] + [obs[i]] + obs[i + 1..];
  }

  /** Collision-free observations fold to the same entries in every order. */
  lemma {:induction false} FoldPermuted(a: seq<Observation>, b: seq<Observation>)
    requires CollisionFree(a) && multiset(a) == multiset(b)
    ensures Fold(a) == Fold(b)
    decreases |a|
  {
    hide Key, AddTo, CollisionFree, Without;
    SameLength(a, b);
    if a != [] {
      var last := |a| - 1;
      var o := a[last];
      assert o in multiset(b);
      var i :| 0 <= i < |b| && b[i] == o;
      var front := a[..last];
      assert a == front + [o];
      MultisetWithout(b, i);
      FrontCollisionFree(a, last);
      FoldPermuted(front, Without(b, i));
      PermutedCollisionFree(a, b);
      MoveToEnd(b, i);
    }
  }

  lemma SameLength(a: seq<Observation>, b: seq<Observation>)
    requires multiset(a) == multiset(b)
    ensures |a| == |b|
  {
    assert |multiset(a)| == |a| && |multiset(b)| == |b|;
  }

  lemma PermutedCollisionFree(a: seq<Observation>, b: seq<Observation>)
    requires CollisionFree(a) && multiset(a) == multiset(b)
    ensures CollisionFree(b)
  {
    hide Key;
    forall i, j | 0 <= i < |b| && 0 <= j < |b| && Key(b[i]) == Key(b[j])
      ensures b[i].item.metaId == b[j].item.metaId && b[i].item.kind == b[j].item.kind
    {
      assert b[i] in multiset(a) && b[j] in multiset(a);
    }
  }

  ghost predicate OrderIrrelevant(obs: seq<Observation>)
  {
    forall p, q, items, items' ::
      multiset(p) == multiset(obs) && multiset(q) == multiset(obs) && IsMerged(p, items) && IsMerged(q, items') ==> items == items'
  }

  lemma FirstGivesName(obs: seq<Observation>)
    requires obs != []
    ensures Key(obs[0]) in Fold(obs)
    ensures Reports(obs[0], Fold(obs)[Key(obs[0])].metaId, Fold(obs)[Key(obs[0])].kind)
  {
    hide Fold, KeyOf;
    FoldSummarises(obs, Key(obs[0]));
  }

  lemma DifferentNames(p: seq<Observation>, q: seq<Observation>, items: seq<OnlineEntry>)
    requires p != [] && q != [] && Key(p[0]) == Key(q[0]) && IsMerged(p, items) && IsMerged(q, items)
    ensures p[0].item.metaId == q[0].item.metaId && p[0].item.kind == q[0].item.kind
  {
    hide Fold, KeyOf, SortedList, Summarises, Before;
    FirstGivesName(p);
    FirstGivesName(q);
    var key := Key(p[0]);
    EntryHasItem(p, key);
    var item := ItemOf(Fold(p)[key]);
    assert item in items && item in ItemsOf(Fold(q));
    ItemHasEntry(q, item);
  }

  /** The merged list is independent of the order of the observations exactly when no two of them collide. */
  lemma OrderIrrelevantIff(obs: seq<Observation>)
    ensures OrderIrrelevant(obs) <==> CollisionFree(obs)
  {
    hide Fold, Key, IsMerged, CollisionFree;
    if CollisionFree(obs) {
      forall p, q, items, items' | multiset(p) == multiset(obs) && multiset(q) == multiset(obs)
                                   && IsMerged(p, items) && IsMerged(q, items')
        ensures items == items'
      {
        FoldPermuted(obs, p);
        FoldPermuted(obs, q);
        SameFoldSameMerge(p, q, items);
        MergedUnique(q, items, items');
      }
    } else {
      CollisionMatters(obs);
    }
  }

  lemma CollisionMatters(obs: seq<Observation>)
    requires !CollisionFree(obs)
    ensures !OrderIrrelevant(obs)
  {
    hide Fold, Key, IsMerged, CollisionFree, OrderIrrelevant;
    var i, j := FindCollision(obs);
    var p, q := [obs[i]] + Without(obs, i), [obs[j]] + Without(obs, j);
    var items := MergedExists(p);
    var items' := MergedExists(q);
    ListsDiffer(p, q, items, items');
    MovedToFront(obs, i);
    MovedToFront(obs, j);
    NotIrrelevant(obs, p, q, items, items');
  }

  lemma NotIrrelevant(obs: seq<Observation>, p: seq<Observation>, q: seq<Observation>,
                      items: seq<OnlineEntry>, items': seq<OnlineEntry>)
    requires multiset(p) == multiset(obs) && multiset(q) == multiset(obs)
    requires IsMerged(p, items) && IsMerged(q, items') && items != items'
    ensures !OrderIrrelevant(obs)
  {
    hide IsMerged;
  }

  lemma FindCollision(obs: seq<Observation>) returns (i: nat, j: nat)
    requires !CollisionFree(obs)
    ensures i < |obs| && j < |obs| && Key(obs[i]) == Key(obs[j])
    ensures !Reports(obs[i], obs[j].item.metaId, obs[j].item.kind)
  {
    hide Key;
    i, j :| 0 <= i < |obs| && 0 <= j < |obs| && Key(obs[i]) == Key(obs[j])
            && !(obs[i].item.metaId == obs[j].item.metaId && obs[i].item.kind == obs[j].item.kind);
  }

  lemma MovedToFront(obs: seq<Observation>, i: nat)
    requires i < |obs|
    ensures multiset([obs[i]] + Without(obs, i)) == multiset(obs)
  {
    MultisetWithout(obs, i);
  }

  lemma ListsDiffer(p: seq<Observation>, q: seq<Observation>, items: seq<OnlineEntry>, items': seq<OnlineEntry>)
    requires p != [] && q != [] && Key(p[0]) == Key(q[0]) && IsMerged(p, items) && IsMerged(q, items')
    requires !Reports(p[0], q[0].item.metaId, q[0].item.kind)
    ensures items != items'
  {
    hide Fold, Key, IsMerged;
    if items == items' {
      DifferentNames(p, q, items);
    }
  }

  lemma SameFoldSameMerge(p: seq<Observation>, q: seq<Observation>, items: seq<OnlineEntry>)
    requires Fold(p) == Fold(q) && IsMerged(p, items)
    ensures IsMerged(q, items)
  {
    hide Fold;
  }

  /** Two entries of different identity and type with one key, as two nodes may report them. */
  function Colliding(): seq<Observation>
  {
    [Observation(OnlineEntry("a" + [SEPARATOR] + "b", "c", 1, 1, 0, []), "x"),
     Observation(OnlineEntry("a", "b" + [SEPARATOR] + "c", 2, 2, 0, []), "y")]
  }

  /** They collide, and the list depends on which comes first. */
  lemma CollisionReceivable()
    ensures !CollisionFree(Colliding()) && !OrderIrrelevant(Colliding())
  {
    hide OrderIrrelevant;
    var obs := Colliding();
    var x, y := obs[0].item, obs[1].item;
    assert KeyOf(x.metaId, x.kind) == KeyOf(y.metaId, y.kind) by {
      assert "a" + [SEPARATOR] + "b" + [SEPARATOR] + "c" == "a" + [SEPARATOR] + ("b" + [SEPARATOR] + "c");
    }
    assert Key(obs[0]) == Key(obs[1]);
    assert |x.metaId| == 3 && |y.metaId| == 1;
    OrderIrrelevantIff(obs);
  }
}
