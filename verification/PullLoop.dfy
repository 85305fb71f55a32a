/** The pull loop as it runs, on a store and its own record of failures. One round is a run of the atomic
    steps of the federation, so what holds over every run holds of it. */
module PullLoop {
  import opened Federation
  import opened FederationPuller
  import opened FederationRuns
  import opened FederationStore
  import opened Wrappers

  /** Readings of the clock, and the answers of peers; None when no snapshot could be fetched or decoded. */
  type Clock = nat -> int

  type Fetch = (nat, RegistryNode) -> Option<Snapshot>

  ghost predicate NeverBack(clock: Clock)
  {
    forall i, j :: i <= j ==> clock(i) <= clock(j)
  }

  /** A run in progress: `events` led from `start` to `s`. */
  ghost predicate Trace(c: Settings, start: System, events: seq<Event>, s: System)
  {
    Runs(c, start, events) && After(c, start, events) == s
  }

  lemma TraceExtends(c: Settings, start: System, events: seq<Event>, s: System, e: Event)
    requires Trace(c, start, events, s) && Enabled(c, s, e)
    ensures Trace(c, start, events + [e], Do(c, s, e))
  {
    hide Runs, After, Do, Enabled;
    RunExtends(c, start, events, e);
  }

  /** The state after the answer of the peer being fetched has been handled at time `now`. */
  function Answered(c: Settings, s: System, now: int, answer: Option<Snapshot>): System
    requires s.puller.Fetching?
  {
    var peer, todo := s.puller.peer, s.puller.todo;
    if answer.Some? && Validation(c.puller, answer.value, peer, Stored(s.store, peer.nodeId), now).None? then
      s.(now := now, store := WithSnapshot(s.store, answer.value), puller := Succeeded(peer, todo))
    else s.(now := now, puller := Failing(peer, todo))
  }

  lemma AnswerIsRun(c: Settings, start: System, events: seq<Event>, s: System, now: int, answer: Option<Snapshot>)
    returns (events': seq<Event>)
    requires Trace(c, start, events, s) && s.puller.Fetching? && s.now <= now
    ensures Trace(c, start, events', Answered(c, s, now, answer))
  {
    hide Trace, Validation, WithSnapshot, Stored;
    TraceExtends(c, start, events, s, Tick(now - s.now));
    events' := events + [Tick(now - s.now)];
    var t := s.(now := now);
    var e := if answer.Some? then Received(answer.value) else NoSnapshot;
    TraceExtends(c, start, events', t, e);
    events' := events' + [e];
    var u := Do(c, t, e);
    if u.puller.Accepting? {
      TraceExtends(c, start, events', u, Commit);
      events' := events' + [Commit];
    }
  }

  /** The state after the outcome of a peer has been noted. */
  function Noted(c: Settings, s: System, now: int): System
    requires s.puller.Succeeded? || s.puller.Failing?
  {
    if s.puller.Succeeded? then s.(puller := Pulling(s.puller.todo), failures := s.failures - {s.puller.peer.nodeId})
    else s.(now := now, puller := Pulling(s.puller.todo),
            failures := FederationRuns.RecordFailure(c.puller, s.failures, s.puller.peer.nodeId, now))
  }

  lemma NoteIsRun(c: Settings, start: System, events: seq<Event>, s: System, now: int) returns (events': seq<Event>)
    requires Trace(c, start, events, s) && (s.puller.Succeeded? || s.puller.Failing?) && s.now <= now
    ensures Trace(c, start, events', Noted(c, s, now))
  {
    hide Trace, FederationRuns.RecordFailure;
    events' := events;
    if s.puller.Succeeded? {
      TraceExtends(c, start, events, s, NoteSuccess);
      events' := events + [NoteSuccess];
    } else {
      TraceExtends(c, start, events, s, Tick(now - s.now));
      events' := events + [Tick(now - s.now)];
      TraceExtends(c, start, events', s.(now := now), NoteFailure);
      events' := events' + [NoteFailure];
    }
  }

  /** The loop turns to the next peer at time `now`, and asks it or passes it over. */
  function Turned(c: Settings, s: System, now: int): System
    requires s.puller.Pulling? && s.puller.todo != []
  {
    var peer, todo := s.puller.todo[0], s.puller.todo[1..];
    s.(now := now, puller := if Asks(c, s.(now := now), peer) then Fetching(peer, todo) else Pulling(todo))
  }

  lemma TurnIsRun(c: Settings, start: System, events: seq<Event>, s: System, now: int) returns (events': seq<Event>)
    requires Trace(c, start, events, s) && s.puller.Pulling? && s.puller.todo != [] && s.now <= now
    ensures Trace(c, start, events', Turned(c, s, now))
  {
    hide Trace, Asks;
    TraceExtends(c, start, events, s, Tick(now - s.now));
    events' := events + [Tick(now - s.now)];
    TraceExtends(c, start, events', s.(now := now), NextPeer);
    events' := events' + [NextPeer];
  }

  lemma BeginIsRun(c: Settings, s: System, peers: seq<RegistryNode>)
    requires s.puller.Idle? && IsActivePeers(s.store, Millis(s.now), peers)
    ensures Trace(c, s, [BeginPull(peers)], s.(puller := Pulling(peers)))
  {
    hide IsActivePeers, Millis, Trace;
    StartOfTrace(c, s);
    TraceExtends(c, s, [], s, BeginPull(peers));
    assert [] + [BeginPull(peers)] == [BeginPull(peers)];
  }

  lemma StartOfTrace(c: Settings, s: System)
    ensures Trace(c, s, [], s)
  {}

  // ---- A round ----

  /** Where a round stands: the state, the clock reading it was taken at, and the peers that failed. */
  datatype Progress = Progress(s: System, reading: nat, failed: seq<string>)

  /** One peer: passed over without a look at the clock, passed over as expired or backing off, or asked. */
  function PeerRound(c: Settings, p: Progress, clock: Clock, fetch: Fetch): (q: Progress)
    requires p.s.puller.Pulling? && p.s.puller.todo != []
    ensures q.s.puller.Pulling? && q.s.puller.todo == p.s.puller.todo[1..]
  {
    var peer := p.s.puller.todo[0];
    if peer.nodeId == "" || peer.nodeId == c.puller.selfNodeId then
      p.(s := p.s.(puller := Pulling(p.s.puller.todo[1..])))
    else
      var t := Turned(c, p.s, clock(p.reading + 1));
      if t.puller.Pulling? then Progress(t, p.reading + 1, p.failed)
      else
        var u := Answered(c, t, clock(p.reading + 2), fetch(p.reading + 1, peer));
        if u.puller.Succeeded? then Progress(Noted(c, u, clock(p.reading + 2)), p.reading + 2, p.failed)
        else Progress(Noted(c, u, clock(p.reading + 3)), p.reading + 3, p.failed + [peer.nodeId])
  }

  function Round(c: Settings, p: Progress, clock: Clock, fetch: Fetch): Progress
    requires p.s.puller.Pulling?
    decreases |p.s.puller.todo|
  {
    if p.s.puller.todo == [] then p.(s := p.s.(puller := Idle))
    else Round(c, PeerRound(c, p, clock, fetch), clock, fetch)
  }

  /** This node, a nameless peer, an expired one and one that backs off are not asked. */
  predicate Skipped(c: Settings, p: Progress, peer: RegistryNode, now: int)
  {
    || peer.nodeId in {"", c.puller.selfNodeId} || (peer.validUntil > 0 && now / 1_000_000 > peer.validUntil)
    || (peer.nodeId in p.s.failures && now < p.s.failures[peer.nodeId].nextEligible)
  }

  /** What one peer comes to: nothing when it is not asked; its snapshot stored and its failures forgotten when the
      answer is valid; otherwise one failure more, and a wait that doubles from the base up to the maximum. */
  lemma PeerOutcome(c: Settings, p: Progress, clock: Clock, fetch: Fetch)
    requires ValidSettings(c) && p.s.puller.Pulling? && p.s.puller.todo != []
    ensures var peer, q := p.s.puller.todo[0], PeerRound(c, p, clock, fetch);
            var asked, answer := clock(p.reading + 1), fetch(p.reading + 1, peer);
            var last := if peer.nodeId in p.s.store.snapshots then Some(p.s.store.snapshots[peer.nodeId]) else None;
            var before := if peer.nodeId in p.s.failures then p.s.failures[peer.nodeId].count else 0;
            if Skipped(c, p, peer, asked) then
              q.s.store == p.s.store && q.s.failures == p.s.failures && q.failed == p.failed
            else if answer.Some? && Validation(c.puller, answer.value, peer, last, clock(p.reading + 2)) == None then
              && q.s.store.peers == p.s.store.peers && q.s.store.snapshots == p.s.store.snapshots[peer.nodeId := answer.value]
              && q.s.failures == p.s.failures - {peer.nodeId} && q.failed == p.failed
            else
              && q.s.store == p.s.store && q.failed == p.failed + [peer.nodeId]
              && q.s.failures == p.s.failures[peer.nodeId :=
                   Failure(before + 1, clock(p.reading + 3) + Delay(c.puller, before + 1))]
  {
    hide Delay, Validation, Asks, Skipped, Answered, Noted;
    var peer, r := p.s.puller.todo[0], p.reading;
    SkippedIff(c, p, peer, clock(r + 1));
    if peer.nodeId != "" && peer.nodeId != c.puller.selfNodeId {
      var t := Turned(c, p.s, clock(r + 1));
      if t.puller.Fetching? {
        var answer := fetch(r + 1, peer);
        AnsweredMeans(c, t, clock(r + 2), answer);
        var u := Answered(c, t, clock(r + 2), answer);
        if u.puller.Succeeded? {
          NotedSuccess(c, u, clock(r + 2));
        } else {
          NotedFailure(c, u, clock(r + 3));
        }
      }
    }
  }

  lemma SkippedIff(c: Settings, p: Progress, peer: RegistryNode, now: int)
    ensures Asks(c, p.s.(now := now), peer) <==> !Skipped(c, p, peer, now)
    ensures peer.nodeId in {"", c.puller.selfNodeId} ==> Skipped(c, p, peer, now)
  {
    PeerLiveIff(peer, Millis(now));
  }

  lemma AnsweredMeans(c: Settings, s: System, now: int, answer: Option<Snapshot>)
    requires s.puller.Fetching? && s.puller.peer.nodeId != ""
    ensures var peer, u := s.puller.peer, Answered(c, s, now, answer);
            && u.failures == s.failures && u.store.peers == s.store.peers
            && if answer.Some? && Validation(c.puller, answer.value, peer, Stored(s.store, peer.nodeId), now) == None then
                 u.puller == Succeeded(peer, s.puller.todo) && u.store.snapshots == s.store.snapshots[peer.nodeId := answer.value]
               else u.puller == Failing(peer, s.puller.todo) && u.store == s.store
  {
    if answer.Some? {
      ValidIsNamed(c.puller, answer.value, s.puller.peer, Stored(s.store, s.puller.peer.nodeId), now);
    }
    hide Validation;
  }

  lemma ValidIsNamed(c: Config, s: Snapshot, peer: RegistryNode, last: Option<Snapshot>, now: int)
    ensures Validation(c, s, peer, last, now) == None ==> s.nodeId == peer.nodeId
  {}

  ghost predicate OnTime(p: Progress, clock: Clock) { p.s.now == clock(p.reading) }

  lemma PeerIsRun(c: Settings, start: System, events: seq<Event>, p: Progress, clock: Clock, fetch: Fetch)
    returns (events': seq<Event>)
    requires p.s.puller.Pulling? && p.s.puller.todo != [] && NeverBack(clock) && OnTime(p, clock)
    requires Trace(c, start, events, p.s)
    ensures var q := PeerRound(c, p, clock, fetch); OnTime(q, clock) && Trace(c, start, events', q.s)
  {
    hide Trace, Answered, Noted, Asks;
    var peer := p.s.puller.todo[0];
    var r := p.reading;
    if peer.nodeId == "" || peer.nodeId == c.puller.selfNodeId {
      events' := TurnIsRun(c, start, events, p.s, clock(r));
      PassedOver(c, p.s.(now := clock(r)), peer);
    } else {
      assert clock(r) <= clock(r + 1) <= clock(r + 2) <= clock(r + 3);
      events' := TurnIsRun(c, start, events, p.s, clock(r + 1));
      var t := Turned(c, p.s, clock(r + 1));
      if t.puller.Fetching? {
        var answer := fetch(r + 1, peer);
        events' := AnswerIsRun(c, start, events', t, clock(r + 2), answer);
        var u := Answered(c, t, clock(r + 2), answer);
        AnsweredShape(c, t, clock(r + 2), answer);
        var noted := if u.puller.Succeeded? then clock(r + 2) else clock(r + 3);
        events' := NoteIsRun(c, start, events', u, noted);
        NotedShape(c, u, noted);
      }
    }
  }

  lemma AnsweredShape(c: Settings, s: System, now: int, answer: Option<Snapshot>)
    requires s.puller.Fetching?
    ensures var u := Answered(c, s, now, answer);
            u.now == now && (u.puller == Succeeded(s.puller.peer, s.puller.todo) || u.puller == Failing(s.puller.peer, s.puller.todo))
  {
    hide Validation, WithSnapshot;
  }

  lemma NotedShape(c: Settings, s: System, now: int)
    requires s.puller.Succeeded? || s.puller.Failing?
    ensures Noted(c, s, now).puller == Pulling(s.puller.todo) && Noted(c, s, now).now == if s.puller.Succeeded? then s.now else now
  {
    hide FederationRuns.RecordFailure;
  }

  /** A round is a run of the federation's steps, without a discovery step between them. */
  lemma {:induction false} RoundIsRun(c: Settings, start: System, events: seq<Event>, p: Progress, clock: Clock, fetch: Fetch)
    returns (events': seq<Event>)
    requires p.s.puller.Pulling? && NeverBack(clock) && OnTime(p, clock) && Trace(c, start, events, p.s)
    ensures var q := Round(c, p, clock, fetch); OnTime(q, clock) && Trace(c, start, events', q.s)
    decreases |p.s.puller.todo|
  {
    hide Trace, PeerRound, NeverBack;
    if p.s.puller.todo == [] {
      TraceExtends(c, start, events, p.s, EndPull);
      events' := events + [EndPull];
    } else {
      events' := PeerIsRun(c, start, events, p, clock, fetch);
      events' := RoundIsRun(c, start, events', PeerRound(c, p, clock, fetch), clock, fetch);
    }
  }

  /** So a round keeps what every step keeps. */
  lemma RoundKeeps(c: Settings, s: System, peers: seq<RegistryNode>, clock: Clock, fetch: Fetch)
    requires ValidSettings(c) && Inv(c, s) && s.puller.Idle? && IsActivePeers(s.store, Millis(s.now), peers)
    requires NeverBack(clock) && s.now == clock(0)
    ensures Inv(c, Round(c, Progress(s.(puller := Pulling(peers)), 0, []), clock, fetch).s)
  {
    hide Round, Inv, IsActivePeers, Millis, ValidSettings, NeverBack;
    BeginIsRun(c, s, peers);
    var events := RoundIsRun(c, s, [BeginPull(peers)], Progress(s.(puller := Pulling(peers)), 0, []), clock, fetch);
    RunKeeps(c, s, events);
  }

  class Puller {
    const config: Config
    const store: Store
    var failures: map<string, Failure>

    constructor (config: Config, store: Store)
      ensures this.config == config && this.store == store && failures == map[]
    {
      this.config := config;
      this.store := store;
      failures := map[];
    }

    /** The state of the federation, no discovery round being under way. */
    ghost function At(now: int, puller: FederationRuns.Puller): System
      reads this, store
    {
      System(now, store.Contents(), [], puller, failures)
    }

    method PeerEligible(nodeId: string, now: int) returns (r: bool)
      ensures r == Eligible(failures, nodeId, now)
    {
      if nodeId !in failures {
        return true;
      }
      return now >= failures[nodeId].nextEligible;
    }

    method RecordFailure(nodeId: string, now: int)
      requires ValidConfig(config)
      modifies this`failures
      ensures failures == FederationRuns.RecordFailure(config, old(failures), nodeId, now)
    {
      var count := if nodeId in failures then failures[nodeId].count else 0;
      var delay := BackoffDelay(config, count + 1);
      failures := failures[nodeId := Failure(count + 1, now + delay)];
    }

    method ClearFailure(nodeId: string)
      modifies this`failures
      ensures failures == old(failures) - {nodeId}
    {
      failures := failures - {nodeId};
    }

    /** Handles the answer of one peer: a snapshot that passes validation is stored. */
    method PullPeer(peer: RegistryNode, ghost todo: seq<RegistryNode>, answer: Option<Snapshot>, asked: int, now: int,
                    ghost c: Settings)
      returns (ok: bool)
      requires c.puller == config && WellNamed(store.Contents())
      modifies store
      ensures WellNamed(store.Contents())
      ensures At(now, if ok then Succeeded(peer, todo) else Failing(peer, todo))
              == Answered(c, old(At(asked, Fetching(peer, todo))), now, answer)
    {
      hide Validation, WellNamed;
      if answer.None? {
        return false;
      }
      var last := if peer.nodeId != "" && peer.nodeId in store.snapshots then Some(store.snapshots[peer.nodeId]) else None;
      var refusal := ValidateSnapshot(config, answer.value, peer, last, now);
      if refusal.Some? {
        return false;
      }
      store.UpsertSnapshot(answer.value);
      return true;
    }

    /** One round over the active peers, in the order of their ids. */
    method PullOnce(clock: Clock, fetch: Fetch, ghost c: Settings)
      returns (failed: seq<string>, readings: nat, ghost peers: seq<RegistryNode>)
      requires ValidConfig(config) && c.puller == config && WellNamed(store.Contents())
      modifies this, store
      ensures WellNamed(store.Contents()) && old(IsActivePeers(store.Contents(), Millis(clock(0)), peers))
      ensures Progress(At(clock(readings), Idle), readings, failed)
              == Round(c, Progress(old(At(clock(0), Pulling(peers))), 0, []), clock, fetch)
    {
      hide Asks, IsActivePeers, WellNamed, Millis, PeerExpired, Eligible, PeerRound;
      readings := 0;
      var active := store.ActivePeers(Millis(clock(0)));
      peers := active;
      failed := [];
      ghost var start := Progress(At(clock(0), Pulling(active)), 0, []);
      assert active[0..] == active;
      for i := 0 to |active|
        invariant WellNamed(store.Contents())
        invariant Round(c, start, clock, fetch)
                  == Round(c, Progress(At(clock(readings), Pulling(active[i..])), readings, failed), clock, fetch)
      {
        var peer := active[i];
        assert active[i..][0] == peer && active[i..][1..] == active[i + 1..];
        ghost var here := Progress(At(clock(readings), Pulling(active[i..])), readings, failed);
        RoundUnfolds(c, here, clock, fetch);
        var more: nat;
        failed, more := Visit(peer, clock, fetch, failed, readings, c, active[i + 1..]);
        readings := more;
        assert [peer] + active[i + 1..] == active[i..];
      }
      assert active[|active|..] == [];
    }

    /** One turn of the loop of `PullOnce`. */
    method Visit(peer: RegistryNode, clock: Clock, fetch: Fetch, failed: seq<string>, reading: nat,
                 ghost c: Settings, ghost todo: seq<RegistryNode>)
      returns (failed': seq<string>, reading': nat)
      requires ValidConfig(config) && c.puller == config && WellNamed(store.Contents())
      modifies this, store
      ensures WellNamed(store.Contents())
      ensures Progress(At(clock(reading'), Pulling(todo)), reading', failed')
              == PeerRound(c, Progress(old(At(clock(reading), Pulling([peer] + todo))), reading, failed), clock, fetch)
    {
      hide Asks, Answered, Noted, WellNamed, Millis, PeerExpired, Eligible;
      failed', reading' := failed, reading;
      assert ([peer] + todo)[1..] == todo;
      if peer.nodeId == "" || peer.nodeId == config.selfNodeId {
        return;
      }
      var asked := clock(reading + 1);
      var eligible := PeerEligible(peer.nodeId, asked);
      reading' := reading + 1;
      AsksWhen(c, At(asked, Pulling([peer] + todo)), peer);
      if PeerExpired(peer, Millis(asked)) || !eligible {
        return;
      }
      var answer := fetch(reading + 1, peer);
      var now := clock(reading + 2);
      var ok := PullPeer(peer, todo, answer, asked, now, c);
      if !ok {
        var later := clock(reading + 3);
        NotedFailure(c, At(now, Failing(peer, todo)), later);
        RecordFailure(peer.nodeId, later);
        return failed + [peer.nodeId], reading + 3;
      }
      NotedSuccess(c, At(now, Succeeded(peer, todo)), now);
      ClearFailure(peer.nodeId);
      reading' := reading + 2;
    }
  }

  lemma RoundUnfolds(c: Settings, p: Progress, clock: Clock, fetch: Fetch)
    requires p.s.puller.Pulling? && p.s.puller.todo != []
    ensures Round(c, p, clock, fetch) == Round(c, PeerRound(c, p, clock, fetch), clock, fetch)
  {}

  lemma PassedOver(c: Settings, s: System, peer: RegistryNode)
    requires peer.nodeId == "" || peer.nodeId == c.puller.selfNodeId
    ensures !Asks(c, s, peer)
  {}

  lemma AsksWhen(c: Settings, s: System, peer: RegistryNode)
    requires peer.nodeId != "" && peer.nodeId != c.puller.selfNodeId
    ensures Asks(c, s, peer) <==> !PeerExpired(peer, Millis(s.now)) && Eligible(s.failures, peer.nodeId, s.now)
  {}

  lemma NotedFailure(c: Settings, s: System, now: int)
    requires s.puller.Failing?
    ensures Noted(c, s, now) == s.(now := now, puller := Pulling(s.puller.todo),
                                   failures := FederationRuns.RecordFailure(c.puller, s.failures, s.puller.peer.nodeId, now))
  {}

  lemma NotedSuccess(c: Settings, s: System, now: int)
    requires s.puller.Succeeded?
    ensures Noted(c, s, now) == s.(puller := Pulling(s.puller.todo), failures := s.failures - {s.puller.peer.nodeId})
  {}
}
