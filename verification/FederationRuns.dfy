/** The discovery loop, the pull loop and the clock as interleaved atomic steps, and what holds over every
    run: what the store may hold, when a snapshot may be replaced, what global presence shows, and when a
    failing peer is asked again. */
module FederationRuns {
  import opened Federation
  import opened FederationPuller
  import opened FederationStore
  import opened PresenceMerge
  import opened Sorting
  import opened Wrappers
  import D = Discovery

  datatype Settings = Settings(discovery: D.Config, puller: Config)

  /** Both loops know this node under one id, which is not empty. */
  predicate ValidSettings(c: Settings)
  {
    ValidConfig(c.puller) && c.puller.selfNodeId != "" && c.discovery.selfNodeId == c.puller.selfNodeId
  }

  datatype Failure = Failure(count: nat, nextEligible: int)

  /** Where the pull loop stands. */
  datatype Puller =
    | Idle
    | Pulling(todo: seq<RegistryNode>)
    | Fetching(peer: RegistryNode, todo: seq<RegistryNode>)
    | Accepting(peer: RegistryNode, snapshot: Snapshot, todo: seq<RegistryNode>)
    | Succeeded(peer: RegistryNode, todo: seq<RegistryNode>)
    | Failing(peer: RegistryNode, todo: seq<RegistryNode>)

  /** `pending` holds the store changes of a discovery round that are still to be made. */
  datatype System = System(now: int, store: State, pending: seq<D.Effect>, puller: Puller, failures: map<string, Failure>)

  datatype Event =
    | Tick(elapsed: nat)
    | Discover(pins: seq<D.RegistryPin>)
    | ApplyEffect
    | BeginPull(peers: seq<RegistryNode>)
    | NextPeer
    | NoSnapshot
    | Received(snapshot: Snapshot)
    | Commit
    | NoteSuccess
    | NoteFailure
    | EndPull

  // ---- Steps ----

  predicate Eligible(failures: map<string, Failure>, id: string, now: int)
  {
    id in failures ==> now >= failures[id].nextEligible
  }

  /** Whether the pull loop asks this peer now. */
  predicate Asks(c: Settings, s: System, peer: RegistryNode)
  {
    peer.nodeId != "" && peer.nodeId != c.puller.selfNodeId
    && !PeerExpired(peer, Millis(s.now)) && Eligible(s.failures, peer.nodeId, s.now)
  }

  function Stored(s: State, id: string): Option<Snapshot>
  {
    if id != "" && id in s.snapshots then Some(s.snapshots[id]) else None
  }

  function FailureCount(failures: map<string, Failure>, id: string): nat
  {
    if id in failures then failures[id].count else 0
  }

  function RecordFailure(c: Config, failures: map<string, Failure>, id: string, now: int): map<string, Failure>
  {
    var count := FailureCount(failures, id) + 1;
    failures[id := Failure(count, now + Delay(c, count))]
  }

  ghost predicate Enabled(c: Settings, s: System, e: Event)
  {
    match e
    case Tick(_) => true
    case Discover(_) => s.pending == []
    case ApplyEffect => s.pending != []
    case BeginPull(peers) => s.puller.Idle? && IsActivePeers(s.store, Millis(s.now), peers)
    case NextPeer => s.puller.Pulling? && s.puller.todo != []
    case NoSnapshot => s.puller.Fetching?
    case Received(_) => s.puller.Fetching?
    case Commit => s.puller.Accepting?
    case NoteSuccess => s.puller.Succeeded?
    case NoteFailure => s.puller.Failing?
    case EndPull => s.puller.Pulling? && s.puller.todo == []
  }

  function Fail(c: Settings, s: System): System
    requires s.puller.Failing?
  {
    s.(puller := Pulling(s.puller.todo), failures := RecordFailure(c.puller, s.failures, s.puller.peer.nodeId, s.now))
  }

  function Receive(c: Settings, s: System, snapshot: Snapshot): System
    requires s.puller.Fetching?
  {
    var peer, todo := s.puller.peer, s.puller.todo;
    if Validation(c.puller, snapshot, peer, Stored(s.store, peer.nodeId), s.now).Some? then s.(puller := Failing(peer, todo))
    else s.(puller := Accepting(peer, snapshot, todo))
  }

  ghost function Do(c: Settings, s: System, e: Event): System
    requires Enabled(c, s, e)
  {
    match e
    case Tick(elapsed) => s.(now := s.now + elapsed)
    case Discover(pins) =>
      s.(pending := D.RoundEffects(c.discovery, D.Fates(D.Kept(c.discovery, Millis(s.now), pins))))
    case ApplyEffect => s.(store := D.Apply(s.store, s.pending[0]), pending := s.pending[1..])
    case BeginPull(peers) => s.(puller := Pulling(peers))
    case NextPeer =>
      var peer, todo := s.puller.todo[0], s.puller.todo[1..];
      s.(puller := if Asks(c, s, peer) then Fetching(peer, todo) else Pulling(todo))
    case NoSnapshot => s.(puller := Failing(s.puller.peer, s.puller.todo))
    case Received(snapshot) => Receive(c, s, snapshot)
    case NoteFailure => Fail(c, s)
    case Commit =>
      s.(store := WithSnapshot(s.store, s.puller.snapshot), puller := Succeeded(s.puller.peer, s.puller.todo))
    case NoteSuccess => s.(puller := Pulling(s.puller.todo), failures := s.failures - {s.puller.peer.nodeId})
    case EndPull => s.(puller := Idle)
  }

  ghost predicate Runs(c: Settings, s: System, events: seq<Event>)
    decreases |events|
  {
    events == [] || (Enabled(c, s, events[0]) && Runs(c, Do(c, s, events[0]), events[1..]))
  }

  ghost function After(c: Settings, s: System, events: seq<Event>): System
    requires Runs(c, s, events)
    decreases |events|
  {
    if events == [] then s else After(c, Do(c, s, events[0]), events[1..])
  }

  function Start(now: int): System { System(now, State(map[], map[]), [], Idle, map[]) }

  // ---- A discovery round as a run ----

  lemma {:induction false} EffectsRun(c: Settings, s: System) returns (events: seq<Event>)
    ensures Runs(c, s, events) && After(c, s, events) == s.(store := D.ApplyAll(s.store, s.pending), pending := [])
    decreases |s.pending|
  {
    hide D.Apply;
    if s.pending == [] {
      events := [];
    } else {
      var next := Do(c, s, ApplyEffect);
      var rest := EffectsRun(c, next);
      events := [ApplyEffect] + rest;
      assert events[1..] == rest;
      FirstEffect(s.store, s.pending);
    }
  }

  lemma {:induction false} FirstEffect(s: State, effects: seq<D.Effect>)
    requires effects != []
    ensures D.ApplyAll(s, effects) == D.ApplyAll(D.Apply(s, effects[0]), effects[1..])
    decreases |effects|
  {
    hide D.Apply;
    var n := |effects| - 1;
    if n > 0 {
      FirstEffect(s, effects[..n]);
      assert effects[..n][1..] == effects[1..][..n - 1];
    }
  }

  /** A round of discovery is a run of the steps: it changes the store as the round does, one effect at a time. */
  lemma DiscoveryIsRun(c: Settings, s: System, pins: seq<D.RegistryPin>) returns (events: seq<Event>)
    requires s.pending == []
    ensures Runs(c, s, events)
    ensures After(c, s, events) ==
            s.(store := D.ApplyAll(s.store, D.RoundEffects(c.discovery, D.Fates(D.Kept(c.discovery, Millis(s.now), pins)))))
  {
    hide D.RoundEffects, D.Fates, D.Kept, D.ApplyAll;
    var rest := EffectsRun(c, Do(c, s, Discover(pins)));
    events := [Discover(pins)] + rest;
    assert events[1..] == rest;
  }

  // ---- What holds in every state ----

  /** The snapshot names its node and was verified under a key whose address is that node's id. */
  ghost predicate Authentic(c: Settings, s: Snapshot)
  {
    WellFormed(s) && s.nodeId != c.puller.selfNodeId
    && exists key :: D.OwnsId(c.discovery, s.nodeId, key) && c.puller.verify(s, key)
  }

  predicate GoodPeer(c: Settings, peer: RegistryNode)
  {
    peer.nodeId != "" && peer.nodeId != c.puller.selfNodeId && D.OwnsId(c.discovery, peer.nodeId, peer.publicKey)
  }

  predicate GoodEffect(c: Settings, e: D.Effect) { e.Accept? ==> GoodPeer(c, e.node) }

  ghost predicate GoodStore(c: Settings, s: State)
  {
    && WellNamed(s)
    && (forall id :: id in s.peers ==> GoodPeer(c, s.peers[id]))
    && (forall id :: id in s.snapshots ==> Authentic(c, s.snapshots[id]))
  }

  ghost predicate GoodPuller(c: Settings, s: System)
  {
    match s.puller
    case Idle => true
    case Pulling(todo) => forall peer <- todo :: GoodPeer(c, peer)
    case Fetching(peer, todo) => GoodPeer(c, peer) && forall p <- todo :: GoodPeer(c, p)
    case Succeeded(peer, todo) => GoodPeer(c, peer) && forall p <- todo :: GoodPeer(c, p)
    case Failing(peer, todo) => GoodPeer(c, peer) && forall p <- todo :: GoodPeer(c, p)
    case Accepting(peer, snapshot, todo) =>
      && GoodPeer(c, peer) && (forall p <- todo :: GoodPeer(c, p))
      && Authentic(c, snapshot) && snapshot.nodeId == peer.nodeId
      && Supersedes(snapshot.sequence, Stored(s.store, peer.nodeId), s.now)
  }

  ghost predicate Inv(c: Settings, s: System)
  {
    GoodStore(c, s.store) && GoodPuller(c, s) && forall e <- s.pending :: GoodEffect(c, e)
  }

  lemma MillisMonotone(a: int, b: int)
    requires a <= b
    ensures Millis(a) <= Millis(b)
  {}

  /** What stands in no one's way stays so as time passes. */
  lemma SupersedesLater(sequence: nat, last: Option<Snapshot>, now: int, later: int)
    requires now <= later && Supersedes(sequence, last, now)
    ensures Supersedes(sequence, last, later)
  {
    MillisMonotone(now, later);
  }

  lemma {:induction false} RemovalsOnly(fates: map<string, D.Fate>, ids: seq<string>)
    requires forall id <- ids :: id in fates
    ensures forall e <- D.Removals(fates, ids) :: e.Remove?
  {
    if ids != [] {
      RemovalsOnly(fates, ids[..|ids| - 1]);
    }
  }

  /** A discovery round only accepts nodes that own their id and are not this one. */
  lemma RoundIsGood(c: Settings, now: int, pins: seq<D.RegistryPin>)
    requires ValidSettings(c)
    ensures forall e <- D.RoundEffects(c.discovery, D.Fates(D.Kept(c.discovery, now, pins))) :: GoodEffect(c, e)
  {
    hide D.Kept, D.Removals, D.Fates, D.RoundAccepted, PeerExpired, D.IsNewest;
    var fates := D.Fates(D.Kept(c.discovery, now, pins));
    var accepted := D.RoundAccepted(c.discovery, fates);
    RemovalsOnly(fates, SortedList(fates.Keys));
    D.AcceptedNodes(c.discovery, now, pins);
  }

  // ---- Every step keeps it ----

  lemma StoreKept(c: Settings, s: State, e: D.Effect)
    requires GoodStore(c, s) && GoodEffect(c, e)
    ensures GoodStore(c, D.Apply(s, e))
  {
    hide Authentic, D.OwnsId;
  }

  /** A discovery step removes a node's snapshot or leaves it, never replaces it. */
  lemma EffectKeepsSnapshots(s: State, e: D.Effect, id: string)
    ensures Stored(D.Apply(s, e), id) == Stored(s, id) || Stored(D.Apply(s, e), id) == None
  {}

  lemma ApplyEffectKeeps(c: Settings, s: System)
    requires Inv(c, s) && Enabled(c, s, ApplyEffect)
    ensures Inv(c, Do(c, s, ApplyEffect))
  {
    hide Authentic, D.OwnsId, GoodStore, D.Apply, GoodEffect, SnapshotExpired, GoodPeer;
    StoreKept(c, s.store, s.pending[0]);
    if s.puller.Accepting? {
      EffectKeepsSnapshots(s.store, s.pending[0], s.puller.peer.nodeId);
    }
  }

  lemma DiscoverKeeps(c: Settings, s: System, pins: seq<D.RegistryPin>)
    requires ValidSettings(c) && Inv(c, s) && Enabled(c, s, Discover(pins))
    ensures Inv(c, Do(c, s, Discover(pins)))
  {
    hide Authentic, D.OwnsId, GoodStore, GoodEffect, Supersedes, GoodPeer, D.RoundEffects, D.Fates, D.Kept, ValidSettings;
    RoundIsGood(c, Millis(s.now), pins);
  }

  lemma BeginPullKeeps(c: Settings, s: System, peers: seq<RegistryNode>)
    requires Inv(c, s) && Enabled(c, s, BeginPull(peers))
    ensures Inv(c, Do(c, s, BeginPull(peers)))
  {
    hide Authentic, D.OwnsId, GoodEffect, Supersedes, GoodPeer, PeerBefore, PeerExpired, WellNamed;
  }

  lemma ReceivedKeeps(c: Settings, s: System, snapshot: Snapshot)
    requires Inv(c, s) && Enabled(c, s, Received(snapshot))
    ensures Inv(c, Do(c, s, Received(snapshot)))
  {
    hide D.OwnsId, GoodEffect, Supersedes, GoodStore, WellFormed, Validation, SnapshotExpired, RecordFailure;
    var peer := s.puller.peer;
    ValidationMeans(c.puller, snapshot, peer, Stored(s.store, peer.nodeId), s.now);
  }

  lemma CommitKeeps(c: Settings, s: System)
    requires Inv(c, s) && Enabled(c, s, Commit)
    ensures Inv(c, Do(c, s, Commit))
  {
    hide Authentic, D.OwnsId, GoodEffect, Supersedes;
  }

  lemma TickKeeps(c: Settings, s: System, elapsed: nat)
    requires Inv(c, s)
    ensures Inv(c, Do(c, s, Tick(elapsed)))
  {
    hide Authentic, D.OwnsId, GoodEffect, Supersedes, GoodStore, GoodPeer, Stored;
    if s.puller.Accepting? {
      SupersedesLater(s.puller.snapshot.sequence, Stored(s.store, s.puller.peer.nodeId), s.now, s.now + elapsed);
    }
  }

  lemma StepKeeps(c: Settings, s: System, e: Event)
    requires ValidSettings(c) && Inv(c, s) && Enabled(c, s, e)
    ensures Inv(c, Do(c, s, e))
  {
    hide Authentic, D.OwnsId, GoodEffect, Supersedes, GoodStore, GoodPeer, Stored, ValidSettings, Asks, RecordFailure;
    match e
    case Tick(elapsed) => TickKeeps(c, s, elapsed);
    case Discover(pins) => DiscoverKeeps(c, s, pins);
    case ApplyEffect => ApplyEffectKeeps(c, s);
    case BeginPull(peers) => BeginPullKeeps(c, s, peers);
    case Received(snapshot) => ReceivedKeeps(c, s, snapshot);
    case Commit => CommitKeeps(c, s);
    case NextPeer =>
    case NoSnapshot =>
    case NoteSuccess =>
    case NoteFailure =>
    case EndPull =>
  }

  lemma {:induction false} RunKeeps(c: Settings, s: System, events: seq<Event>)
    requires ValidSettings(c) && Inv(c, s) && Runs(c, s, events)
    ensures Inv(c, After(c, s, events))
    decreases |events|
  {
    hide Inv, Do, Enabled, ValidSettings;
    if events != [] {
      StepKeeps(c, s, events[0]);
      RunKeeps(c, Do(c, s, events[0]), events[1..]);
    }
  }

  /** In every reachable state each stored snapshot is authentic and each stored peer owns its id. */
  lemma ReachableStates(c: Settings, start: int, events: seq<Event>)
    requires ValidSettings(c) && Runs(c, Start(start), events)
    ensures GoodStore(c, After(c, Start(start), events).store)
  {
    hide GoodStore, Do, Enabled, ValidSettings, Runs;
    StartIsGood(c, start);
    RunKeeps(c, Start(start), events);
  }

  lemma StartIsGood(c: Settings, start: int)
    ensures Inv(c, Start(start))
  {}

  // ---- Replacement ----

  /** A step replaces a stored snapshot only by an authentic one, and as long as the old one has not expired
      only by one of greater sequence. */
  lemma ReplacedOnlyByNewer(c: Settings, s: System, e: Event, id: string)
    requires ValidSettings(c) && Inv(c, s) && Enabled(c, s, e)
    requires id in s.store.snapshots && id in Do(c, s, e).store.snapshots
    ensures var before, after := s.store.snapshots[id], Do(c, s, e).store.snapshots[id];
            before == after || (Authentic(c, after) && (SnapshotExpired(before, Millis(s.now)) || after.sequence > before.sequence))
  {
    hide Authentic, D.OwnsId, SnapshotExpired, GoodEffect, GoodPeer, ValidSettings, Asks, RecordFailure, Millis;
    if e.ApplyEffect? {
      EffectKeepsSnapshots(s.store, s.pending[0], id);
    }
  }

  /** Along a run, as long as the node's snapshot is neither removed nor expired. */
  ghost predicate KeptFresh(c: Settings, s: System, events: seq<Event>, id: string)
    requires Runs(c, s, events)
    decreases |events|
  {
    && id in s.store.snapshots && !SnapshotExpired(s.store.snapshots[id], Millis(s.now))
    && (events != [] ==> KeptFresh(c, Do(c, s, events[0]), events[1..], id))
  }

  lemma {:induction false} KeptFreshAtEnd(c: Settings, s: System, events: seq<Event>, id: string)
    requires Runs(c, s, events) && KeptFresh(c, s, events, id)
    ensures id in After(c, s, events).store.snapshots
    decreases |events|
  {
    hide Do, Enabled;
    if events != [] {
      KeptFreshAtEnd(c, Do(c, s, events[0]), events[1..], id);
    }
  }

  /** Over such a run sequence numbers only grow, and an equal number means the same snapshot. */
  lemma {:induction false} SequencesGrow(c: Settings, s: System, events: seq<Event>, id: string)
    requires ValidSettings(c) && Inv(c, s) && Runs(c, s, events) && KeptFresh(c, s, events, id)
    ensures id in After(c, s, events).store.snapshots
    ensures var before, after := s.store.snapshots[id], After(c, s, events).store.snapshots[id];
            before == after || after.sequence > before.sequence
    decreases |events|
  {
    hide Do, Enabled, Inv, ValidSettings, SnapshotExpired, Authentic;
    KeptFreshAtEnd(c, s, events, id);
    if events != [] {
      var next := Do(c, s, events[0]);
      StepKeeps(c, s, events[0]);
      FreshNext(c, s, events, id);
      ReplacedOnlyByNewer(c, s, events[0], id);
      SequencesGrow(c, next, events[1..], id);
    }
  }

  lemma FreshNext(c: Settings, s: System, events: seq<Event>, id: string)
    requires Runs(c, s, events) && KeptFresh(c, s, events, id) && events != []
    ensures id in Do(c, s, events[0]).store.snapshots && Runs(c, Do(c, s, events[0]), events[1..])
    ensures KeptFresh(c, Do(c, s, events[0]), events[1..], id)
  {
    hide Do, Enabled, SnapshotExpired;
  }

  // ---- Global presence ----

  /** Whatever global presence names as a source in a reachable state is this node, for a local entry, or a
      known, unexpired peer other than this node that owns its id and whose stored snapshot is authentic, unexpired and
      holds the entry. */
  lemma PresenceIsAuthentic(c: Settings, start: int, events: seq<Event>, local: seq<OnlineEntry>,
                            active: seq<Snapshot>, items: seq<OnlineEntry>, item: OnlineEntry, n: string)
    requires ValidSettings(c) && Runs(c, Start(start), events)
    requires var s := After(c, Start(start), events);
             && IsActiveSnapshots(s.store, c.puller.selfNodeId, Millis(s.now), active)
             && IsMerged(Observations(local, active, c.puller.selfNodeId), items)
    requires item in items && n in item.sourceNodeIds
    ensures var s := After(c, Start(start), events);
            var key := KeyOf(item.metaId, item.kind);
            || (n == c.puller.selfNodeId && exists e <- local :: KeyOf(e.metaId, e.kind) == key)
            || (Shown(s.store, c.puller.selfNodeId, Millis(s.now), n) && GoodPeer(c, s.store.peers[n])
                && Authentic(c, s.store.snapshots[n]) && s.store.snapshots[n].nodeId == n
                && exists e <- s.store.snapshots[n].items :: KeyOf(e.metaId, e.kind) == key)
  {
    hide Runs, After, Authentic, GoodPeer, Observations, IsMerged, IsActiveSnapshots, KeyOf, PeerExpired, SnapshotExpired;
    var s := After(c, Start(start), events);
    ReachableStates(c, start, events);
    PresenceSources(s.store, c.puller.selfNodeId, Millis(s.now), local, active, items, item, n);
  }

  // ---- Backoff ----

  /** The pull loop has taken up node `id`. */
  predicate Busy(p: Puller, id: string)
  {
    !p.Idle? && !p.Pulling? && p.peer.nodeId == id
  }

  lemma OnlyItsFetchClears(c: Settings, s: System, e: Event, id: string)
    requires Enabled(c, s, e) && id in s.failures && !Busy(s.puller, id)
    ensures id in Do(c, s, e).failures && Do(c, s, e).failures[id] == s.failures[id]
    ensures Do(c, s, e).now >= s.now
    ensures Busy(Do(c, s, e).puller, id) ==> s.now >= s.failures[id].nextEligible
  {
    hide D.RoundEffects, D.Fates, D.Kept, D.Apply, IsActivePeers, Validation, Millis, PeerExpired;
  }

  /** The loop takes up `id` at some point of the run. */
  ghost predicate TakenUp(c: Settings, s: System, events: seq<Event>, id: string)
    requires Runs(c, s, events)
    decreases |events|
  {
    Busy(s.puller, id) || (events != [] && TakenUp(c, Do(c, s, events[0]), events[1..], id))
  }

  lemma {:induction false} ClockNeverBack(c: Settings, s: System, events: seq<Event>)
    requires Runs(c, s, events)
    ensures After(c, s, events).now >= s.now
    decreases |events|
  {
    hide D.RoundEffects, D.Fates, D.Kept, D.Apply, IsActivePeers, Validation, Millis, PeerExpired, RecordFailure;
    if events != [] {
      ClockNeverBack(c, Do(c, s, events[0]), events[1..]);
    }
  }

  /** A peer that failed is not asked again before its time, whatever steps interleave. */
  lemma {:induction false} NotAskedEarly(c: Settings, s: System, events: seq<Event>, id: string)
    requires Runs(c, s, events) && id in s.failures && !Busy(s.puller, id) && TakenUp(c, s, events, id)
    ensures After(c, s, events).now >= s.failures[id].nextEligible
    decreases |events|
  {
    hide Do, Enabled, Busy;
    OnlyItsFetchClears(c, s, events[0], id);
    var next := Do(c, s, events[0]);
    if Busy(next.puller, id) {
      ClockNeverBack(c, next, events[1..]);
    } else {
      NotAskedEarly(c, next, events[1..], id);
    }
  }

  /** After the `k`-th failure in a row of a peer it is left alone for the doubled delay. */
  lemma FailureBacksOff(c: Settings, s: System, events: seq<Event>)
    requires ValidSettings(c) && s.puller.Failing? && Runs(c, Fail(c, s), events)
    requires TakenUp(c, Fail(c, s), events, s.puller.peer.nodeId)
    ensures Enabled(c, s, NoteFailure) && Do(c, s, NoteFailure) == Fail(c, s)
    ensures var id := s.puller.peer.nodeId;
            After(c, Fail(c, s), events).now >= s.now + Delay(c.puller, FailureCount(s.failures, id) + 1)
  {
    hide Delay, Runs, TakenUp, After;
    NotAskedEarly(c, Fail(c, s), events, s.puller.peer.nodeId);
  }

  // ---- Extending runs ----

  lemma {:induction false} RunExtends(c: Settings, s: System, events: seq<Event>, e: Event)
    requires Runs(c, s, events) && Enabled(c, After(c, s, events), e)
    ensures Runs(c, s, events + [e]) && After(c, s, events + [e]) == Do(c, After(c, s, events), e)
    decreases |events|
  {
    hide Do, Enabled;
    if events == [] {
      assert ([] + [e])[1..] == [];
    } else {
      RunExtends(c, Do(c, s, events[0]), events[1..], e);
      assert (events + [e])[1..] == events[1..] + [e];
    }
  }
}
