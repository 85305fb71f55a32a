/** The store of accepted peers and their latest snapshots, and the global presence read from it. */
module FederationStore {
  import opened Federation
  import opened KeyEncoding
  import opened PresenceMerge
  import opened Sorting

  datatype State = State(peers: map<string, RegistryNode>, snapshots: map<string, Snapshot>)

  function WithPeer(s: State, peer: RegistryNode): State
  {
    if peer.nodeId == "" then s else s.(peers := s.peers[peer.nodeId := peer])
  }

  /** A removed peer loses its snapshot too. */
  function WithoutPeer(s: State, nodeId: string): State
  {
    if nodeId == "" then s else State(s.peers - {nodeId}, s.snapshots - {nodeId})
  }

  function WithSnapshot(s: State, snapshot: Snapshot): State
  {
    if snapshot.nodeId == "" then s else s.(snapshots := s.snapshots[snapshot.nodeId := snapshot])
  }

  /** Peers and snapshots are stored under their own node ids, which are not empty. */
  ghost predicate WellNamed(s: State)
  {
    && (forall id :: id in s.peers ==> id != "" && s.peers[id].nodeId == id)
    && (forall id :: id in s.snapshots ==> id != "" && s.snapshots[id].nodeId == id)
  }

  /** A snapshot is shown when its node is a known, unexpired peer other than this node, and the snapshot
      itself has not expired. */
  predicate Shown(s: State, self: string, now: int, id: string)
  {
    && id in s.snapshots && id != self
    && id in s.peers && !PeerExpired(s.peers[id], now)
    && !SnapshotExpired(s.snapshots[id], now)
  }

  /** In terms of the clock: a snapshot is shown until its own lifetime and the validity of its peer end. */
  lemma ShownIff(s: State, self: string, now: int, id: string)
    requires id in s.snapshots && Lasting(s.snapshots[id])
    ensures Shown(s, self, now, id) <==>
            && id != self && id in s.peers && (s.peers[id].validUntil <= 0 || now <= s.peers[id].validUntil)
            && now <= s.snapshots[id].generatedAt + 1000 * s.snapshots[id].ttlSeconds
  {
    LiveIff(s.snapshots[id], now);
  }

  predicate PeerBefore(a: RegistryNode, b: RegistryNode) { Less(a.nodeId, b.nodeId) }

  predicate SnapshotBefore(a: Snapshot, b: Snapshot) { Less(a.nodeId, b.nodeId) }

  lemma NodeOrders()
    ensures StrictOrder(PeerBefore) && StrictOrder(SnapshotBefore)
  {
    hide Less;
    StringOrder();
  }

  ghost function UnexpiredPeers(s: State, now: int): set<RegistryNode>
  {
    set id | id in s.peers && !PeerExpired(s.peers[id], now) :: s.peers[id]
  }

  ghost function ShownSnapshots(s: State, self: string, now: int): set<Snapshot>
  {
    set id | id in s.snapshots && Shown(s, self, now, id) :: s.snapshots[id]
  }

  ghost predicate IsActivePeers(s: State, now: int, peers: seq<RegistryNode>)
  {
    Sorted(PeerBefore, peers) && Lists(peers, UnexpiredPeers(s, now))
  }

  ghost predicate IsActiveSnapshots(s: State, self: string, now: int, snapshots: seq<Snapshot>)
  {
    Sorted(SnapshotBefore, snapshots) && Lists(snapshots, ShownSnapshots(s, self, now))
  }

  lemma PeersListed(s: State, now: int, peers: seq<RegistryNode>)
    requires Sorted(PeerBefore, peers) && Lists(peers, UnexpiredPeers(s, now))
    ensures IsActivePeers(s, now, peers)
  {}

  /** The active peers are the stored ones whose validity has not ended, in order of their ids. */
  lemma ActivePeersAre(s: State, now: int, peers: seq<RegistryNode>)
    requires WellNamed(s) && IsActivePeers(s, now, peers)
    ensures forall i, j :: 0 <= i < j < |peers| ==> Less(peers[i].nodeId, peers[j].nodeId)
    ensures forall id :: id in s.peers ==> (s.peers[id] in peers <==> s.peers[id].validUntil <= 0 || now <= s.peers[id].validUntil)
  {
    hide Less;
    assert forall i, j :: 0 <= i < j < |peers| ==> PeerBefore(peers[i], peers[j]);
    forall id | id in s.peers
      ensures s.peers[id] in peers <==> s.peers[id].validUntil <= 0 || now <= s.peers[id].validUntil
    {
      if s.peers[id] in UnexpiredPeers(s, now) {
        var other :| other in s.peers && !PeerExpired(s.peers[other], now) && s.peers[other] == s.peers[id];
      }
    }
  }

  lemma StoredComparable(s: State, self: string, now: int)
    requires WellNamed(s)
    ensures Comparable(PeerBefore, UnexpiredPeers(s, now))
    ensures Comparable(SnapshotBefore, ShownSnapshots(s, self, now))
  {
    hide Less, PeerExpired, SnapshotExpired;
    forall x, y | x in UnexpiredPeers(s, now) && y in UnexpiredPeers(s, now) && x != y
      ensures PeerBefore(x, y) || PeerBefore(y, x)
    {
      LessTotal(x.nodeId, y.nodeId);
    }
    forall x, y | x in ShownSnapshots(s, self, now) && y in ShownSnapshots(s, self, now) && x != y
      ensures SnapshotBefore(x, y) || SnapshotBefore(y, x)
    {
      LessTotal(x.nodeId, y.nodeId);
    }
  }

  class Store {
    const localNodeId: string
    var peers: map<string, RegistryNode>
    var snapshots: map<string, Snapshot>

    function Contents(): State
      reads this
    {
      State(peers, snapshots)
    }

    constructor (localNodeId: string)
      ensures this.localNodeId == NodeName(localNodeId)
      ensures Contents() == State(map[], map[]) && WellNamed(Contents())
    {
      this.localNodeId := NodeName(localNodeId);
      peers := map[];
      snapshots := map[];
    }

    method UpsertPeer(peer: RegistryNode)
      modifies this
      ensures Contents() == WithPeer(old(Contents()), peer)
      ensures peers == (if peer.nodeId == "" then old(peers) else old(peers)[peer.nodeId := peer]) && snapshots == old(snapshots)
      ensures old(WellNamed(Contents())) ==> WellNamed(Contents())
    {
      if peer.nodeId != "" {
        peers := peers[peer.nodeId := peer];
      }
    }

    method RemovePeer(nodeId: string)
      modifies this
      ensures Contents() == WithoutPeer(old(Contents()), nodeId)
      ensures nodeId != "" ==> peers == old(peers) - {nodeId} && snapshots == old(snapshots) - {nodeId}
      ensures nodeId == "" ==> peers == old(peers) && snapshots == old(snapshots)
      ensures old(WellNamed(Contents())) ==> WellNamed(Contents())
    {
      if nodeId != "" {
        peers := peers - {nodeId};
        snapshots := snapshots - {nodeId};
      }
    }

    method UpsertSnapshot(snapshot: Snapshot)
      modifies this
      ensures Contents() == WithSnapshot(old(Contents()), snapshot)
      ensures peers == old(peers)
      ensures snapshots == if snapshot.nodeId == "" then old(snapshots) else old(snapshots)[snapshot.nodeId := snapshot]
      ensures old(WellNamed(Contents())) ==> WellNamed(Contents())
    {
      if snapshot.nodeId != "" {
        snapshots := snapshots[snapshot.nodeId := snapshot];
      }
    }

    method ActivePeers(now: int) returns (r: seq<RegistryNode>)
      requires WellNamed(Contents())
      ensures IsActivePeers(Contents(), now, r)
      ensures forall i, j :: 0 <= i < j < |r| ==> Less(r[i].nodeId, r[j].nodeId)
      ensures forall id :: id in peers ==> (peers[id] in r <==> peers[id].validUntil <= 0 || now <= peers[id].validUntil)
    {
      forall r: seq<RegistryNode> | IsActivePeers(Contents(), now, r)
        ensures forall i, j :: 0 <= i < j < |r| ==> Less(r[i].nodeId, r[j].nodeId)
        ensures forall id :: id in peers ==> (peers[id] in r <==> peers[id].validUntil <= 0 || now <= peers[id].validUntil)
      {
        ActivePeersAre(Contents(), now, r);
      }
      hide IsActivePeers, PeerBefore, StrictOrder, Comparable, PeerExpired, WellNamed;
      var active: set<RegistryNode> := {};
      var rest := peers.Keys;
      while rest != {}
        invariant rest <= peers.Keys
        invariant active == set id | id in peers && id !in rest && !PeerExpired(peers[id], now) :: peers[id]
        decreases rest
      {
        var id :| id in rest;
        rest := rest - {id};
        if PeerExpired(peers[id], now) {
          continue;
        }
        active := active + {peers[id]};
      }
      assert active == UnexpiredPeers(Contents(), now);
      NodeOrders();
      StoredComparable(Contents(), localNodeId, now);
      r := SortSet(PeerBefore, active);
      assert IsActivePeers(Contents(), now, r) by { PeersListed(Contents(), now, r); }
    }

    method ActiveSnapshots(now: int) returns (r: seq<Snapshot>)
      requires WellNamed(Contents())
      ensures IsActiveSnapshots(Contents(), localNodeId, now, r)
      ensures forall i, j :: 0 <= i < j < |r| ==> Less(r[i].nodeId, r[j].nodeId)
    {
      forall r: seq<Snapshot>, i, j | Sorted(SnapshotBefore, r) && 0 <= i < j < |r|
        ensures Less(r[i].nodeId, r[j].nodeId)
      {
        assert SnapshotBefore(r[i], r[j]);
      }
      hide SnapshotBefore, StrictOrder, Comparable, PeerExpired, SnapshotExpired, WellNamed;
      var active: set<Snapshot> := {};
      var rest := snapshots.Keys;
      while rest != {}
        invariant rest <= snapshots.Keys
        invariant active == set id | id in snapshots && id !in rest && Shown(Contents(), localNodeId, now, id) :: snapshots[id]
        decreases rest
      {
        var id :| id in rest;
        rest := rest - {id};
        if id == localNodeId {
          continue;
        }
        if id !in peers || PeerExpired(peers[id], now) {
          continue;
        }
        if SnapshotExpired(snapshots[id], now) {
          continue;
        }
        active := active + {snapshots[id]};
      }
      assert active == ShownSnapshots(Contents(), localNodeId, now);
      NodeOrders();
      StoredComparable(Contents(), localNodeId, now);
      r := SortSet(SnapshotBefore, active);
    }

    /** Local entries merged with those of the shown snapshots, and the numbers reported with them. */
    method GlobalOnline(local: seq<OnlineEntry>, now: int)
      returns (items: seq<OnlineEntry>, totalConnections: nat, uniqueMetaIds: nat, nodes: nat, ghost active: seq<Snapshot>)
      requires WellNamed(Contents())
      ensures IsActiveSnapshots(Contents(), localNodeId, now, active)
      ensures IsMerged(Observations(local, active, localNodeId), items)
      ensures totalConnections == SumSources(items) && nodes == 1 + |active|
      ensures uniqueMetaIds == |MetaIds(Observations(local, active, localNodeId))|
      ensures forall id :: id in snapshots && Lasting(snapshots[id]) ==>
                (snapshots[id] in active <==>
                 && id != localNodeId && id in peers && (peers[id].validUntil <= 0 || now <= peers[id].validUntil)
                 && now <= snapshots[id].generatedAt + 1000 * snapshots[id].ttlSeconds)
    {
      hide Observations, IsMerged, MetaIds, SumSources, IsActiveSnapshots;
      forall id, active | IsActiveSnapshots(Contents(), localNodeId, now, active) && id in snapshots && Lasting(snapshots[id])
        ensures snapshots[id] in active <==>
                && id != localNodeId && id in peers && (peers[id].validUntil <= 0 || now <= peers[id].validUntil)
                && now <= snapshots[id].generatedAt + 1000 * snapshots[id].ttlSeconds
      {
        ActiveIff(Contents(), localNodeId, now, active, id);
      }
      var snapshots := ActiveSnapshots(now);
      active := snapshots;
      items, totalConnections, uniqueMetaIds := AggregatePresence(local, snapshots, localNodeId);
      SourcesSumToConnections(Observations(local, snapshots, localNodeId), items);
      nodes := 1 + |snapshots|;
    }
  }

  // ---- Where global presence comes from ----

  lemma {:induction false} FromSomeSnapshot(snapshots: seq<Snapshot>, i: nat) returns (j: nat, k: nat)
    requires i < |FromSnapshots(snapshots)|
    ensures j < |snapshots| && k < |snapshots[j].items|
    ensures FromSnapshots(snapshots)[i] == Observation(snapshots[j].items[k], snapshots[j].nodeId)
  {
    var last := |snapshots| - 1;
    var front := FromSnapshots(snapshots[..last]);
    if i < |front| {
      j, k := FromSomeSnapshot(snapshots[..last], i);
    } else {
      j, k := last, i - |front|;
    }
  }

  /** `n` reported an entry with this key: it is this node and the entry is a local one, or it is the node of
      a shown snapshot that holds the entry. */
  ghost predicate ReportedBy(s: State, self: string, now: int, local: seq<OnlineEntry>, n: string, key: string)
  {
    || (n == NodeName(self) && exists e <- local :: KeyOf(e.metaId, e.kind) == key)
    || (Shown(s, self, now, n) && exists e <- s.snapshots[n].items :: KeyOf(e.metaId, e.kind) == key)
  }

  /** Every source named in global presence is this node, for a local entry, or a known, unexpired peer other
      than this node whose unexpired snapshot holds the entry. */
  lemma PresenceSources(s: State, self: string, now: int, local: seq<OnlineEntry>, active: seq<Snapshot>,
                        items: seq<OnlineEntry>, item: OnlineEntry, n: string)
    requires WellNamed(s) && IsActiveSnapshots(s, self, now, active)
    requires IsMerged(Observations(local, active, self), items) && item in items && n in item.sourceNodeIds
    ensures ReportedBy(s, self, now, local, n, KeyOf(item.metaId, item.kind))
  {
    hide IsMerged, KeyOf, Shown, WellNamed, IsActiveSnapshots, Observations, NodeName;
    var i := ReporterOf(Observations(local, active, self), items, item, n);
    ObservationFrom(s, self, now, local, active, i);
  }

  /** A source named in an item reported an observation with its key. */
  lemma ReporterOf(obs: seq<Observation>, items: seq<OnlineEntry>, item: OnlineEntry, n: string) returns (i: nat)
    requires IsMerged(obs, items) && item in items && n in item.sourceNodeIds
    ensures i < |obs| && Key(obs[i]) == KeyOf(item.metaId, item.kind) && NodeName(obs[i].nodeId) == n
  {
    hide IsMerged, Fold, KeyOf, NodeName, Key, IsLatest, IsEarliest, NamedByFirst, Count;
    MergedLists(obs, items, item);
    ItemHasEntry(obs, item);
    var key := KeyOf(item.metaId, item.kind);
    assert n in Reporters(obs, key);
    i :| 0 <= i < |obs| && Key(obs[i]) == key && NodeName(obs[i].nodeId) == n;
  }

  /** An observation is a local entry, or an entry of a shown snapshot. */
  lemma ObservationFrom(s: State, self: string, now: int, local: seq<OnlineEntry>, active: seq<Snapshot>, i: nat)
    requires WellNamed(s) && IsActiveSnapshots(s, self, now, active) && i < |Observations(local, active, self)|
    ensures var o := Observations(local, active, self)[i];
            ReportedBy(s, self, now, local, NodeName(o.nodeId), Key(o))
  {
    hide KeyOf, Shown, WellNamed, ShownSnapshots, Sorted, FromSnapshots;
    var obs := Observations(local, active, self);
    if i < |local| {
      assert obs[i] == Observation(local[i], NodeName(self));
      assert local[i] in local;
    } else {
      var j, k := FromSomeSnapshot(active, i - |local|);
      assert obs[i] == Observation(active[j].items[k], active[j].nodeId);
      assert active[j] in active;
      ShownIsStored(s, self, now, active[j]);
      assert active[j].items[k] in active[j].items;
    }
  }

  lemma MergedLists(obs: seq<Observation>, items: seq<OnlineEntry>, item: OnlineEntry)
    requires IsMerged(obs, items)
    ensures item in items <==> item in ItemsOf(Fold(obs))
  {
    hide Fold, ItemsOf;
  }

  lemma ShownIsStored(s: State, self: string, now: int, snapshot: Snapshot)
    requires WellNamed(s) && snapshot in ShownSnapshots(s, self, now)
    ensures var id := snapshot.nodeId; id != "" && Shown(s, self, now, id) && s.snapshots[id] == snapshot
  {
    hide PeerExpired, SnapshotExpired;
  }

  lemma {:induction false} InFromSnapshots(snapshots: seq<Snapshot>, j: nat, k: nat) returns (i: nat)
    requires j < |snapshots| && k < |snapshots[j].items|
    ensures i < |FromSnapshots(snapshots)|
    ensures FromSnapshots(snapshots)[i] == Observation(snapshots[j].items[k], snapshots[j].nodeId)
  {
    var last := |snapshots| - 1;
    if j == last {
      i := |FromSnapshots(snapshots[..last])| + k;
    } else {
      i := InFromSnapshots(snapshots[..last], j, k);
    }
  }

  /** And nothing shown is left out: each entry of a shown snapshot is counted in the item of its key. */
  lemma ShownIsCounted(s: State, self: string, now: int, local: seq<OnlineEntry>, active: seq<Snapshot>,
                       items: seq<OnlineEntry>, id: string, e: OnlineEntry)
    requires WellNamed(s) && IsActiveSnapshots(s, self, now, active)
    requires IsMerged(Observations(local, active, self), items) && Shown(s, self, now, id) && e in s.snapshots[id].items
    ensures exists item <- items :: KeyOf(item.metaId, item.kind) == KeyOf(e.metaId, e.kind) && id in item.sourceNodeIds
  {
    hide IsMerged, KeyOf, Shown, NodeName, ShownSnapshots, Key, FromSnapshots, Sorted;
    ShownStored(s, self, now, id);
    assert s.snapshots[id] in active;
    var j :| 0 <= j < |active| && active[j] == s.snapshots[id];
    var k :| 0 <= k < |active[j].items| && active[j].items[k] == e;
    var i := InFromSnapshots(active, j, k);
    var at := |local| + i;
    assert Observations(local, active, self)[at] == Observation(e, active[j].nodeId);
    ShownNamed(s, self, now, id);
    var item := ObservationCounted(Observations(local, active, self), items, at);
    KeyOfEntry(e, id);
  }

  lemma KeyOfEntry(e: OnlineEntry, id: string)
    ensures Key(Observation(e, id)) == KeyOf(e.metaId, e.kind)
  {}

  lemma ActiveIff(s: State, self: string, now: int, active: seq<Snapshot>, id: string)
    requires WellNamed(s) && IsActiveSnapshots(s, self, now, active) && id in s.snapshots && Lasting(s.snapshots[id])
    ensures s.snapshots[id] in active <==>
            && id != self && id in s.peers && (s.peers[id].validUntil <= 0 || now <= s.peers[id].validUntil)
            && now <= s.snapshots[id].generatedAt + 1000 * s.snapshots[id].ttlSeconds
  {
    hide Shown, ShownSnapshots;
    ShownIff(s, self, now, id);
    if s.snapshots[id] in active {
      ShownIsStored(s, self, now, s.snapshots[id]);
    }
    if Shown(s, self, now, id) {
      ShownStored(s, self, now, id);
    }
  }

  lemma ShownNamed(s: State, self: string, now: int, id: string)
    requires WellNamed(s) && Shown(s, self, now, id)
    ensures s.snapshots[id].nodeId == id && NodeName(id) == id
  {
    hide PeerExpired, SnapshotExpired;
  }

  lemma ShownStored(s: State, self: string, now: int, id: string)
    requires Shown(s, self, now, id)
    ensures id in s.snapshots && s.snapshots[id] in ShownSnapshots(s, self, now)
  {
    hide PeerExpired, SnapshotExpired;
  }
}
