/** Histories of skill services: the accepted pins of each service form one repeat-free path of versions,
    so replays are harmless, creation data is stable and revoke is terminal. */
module SkillHistory {
  import opened Wrappers
  import opened SkillService

  /** What a pin id stands for on its chain: a create pin, or another pin with its target. */
  datatype Catalogue = Catalogue(creates: set<Key>, targets: map<Key, Option<string>>)

  /** The pin's id names one pin. */
  ghost predicate WellNamed(pin: Pin, cat: Catalogue)
  {
    var p := Key(pin.chainName, pin.id);
    && (Operation(pin) == CREATE <==> p in cat.creates)
    && (Operation(pin) != CREATE ==> p in cat.targets && cat.targets[p] == Target(pin))
  }

  // ---- Accepted pins ----

  /** The service a delivery adds a version to, if it is accepted. */
  function AcceptedFor(s: State, pin: Pin): Option<Key>
  {
    if pin.chainName == "" || pin.id == "" then None
    else if Operation(pin) == CREATE then
      if ServiceSummary(pin).None? || Load(s, pin.chainName, pin.id).Some? then None
      else Some(Key(pin.chainName, pin.id))
    else if Operation(pin) == REVOKE || (Operation(pin) == MODIFY && ServiceSummary(pin).Some?) then
      match VersionTarget(s, pin)
      case None => None
      case Some(r) => Some(Key(r.chain, r.source))
    else None
  }

  /** Whether the delivery reaches the service fold at all. */
  function IsServiceDelivery(s: State, pin: Pin): bool
  {
    var base := ProtocolPath(pin.path);
    pin.path != "" && (base == PATH_SERVICE
                       || (base != PATH_RATE && (Operation(pin) == MODIFY || Operation(pin) == REVOKE)
                           && TargetFromPath(pin.path) != "" && pin.chainName != ""
                           && LoadByAnyPin(s, pin.chainName, TargetFromPath(pin.path)).Some?))
  }

  function Accepted(s: State, pin: Pin): Option<Key>
  {
    if IsServiceDelivery(s, pin) then AcceptedFor(s, pin) else None
  }

  /** The path of accepted pins of each service. */
  type History = map<Key, seq<string>>

  function Extend(h: History, accepted: Option<Key>, pin: Pin): History
  {
    match accepted
    case None => h
    case Some(k) => if k in h then h[k := h[k] + [pin.id]] else h[k := [pin.id]]
  }

  function HistoryOf(pins: seq<Pin>): History
  {
    if pins == [] then map[]
    else
      var n := |pins| - 1;
      Extend(HistoryOf(pins[..n]), Accepted(Run(EMPTY, pins[..n]), pins[n]), pins[n])
  }

  // ---- The invariant ----

  /** A repeat-free path from the create pin `k` to the current version, each pin targeting the one before it. */
  ghost predicate LinearPath(path: seq<string>, k: Key, current: string, cat: Catalogue)
  {
    && path != [] && path[0] == k.pin && path[|path| - 1] == current
    && k in cat.creates
    && (forall i, j :: 0 <= i < j < |path| ==> path[i] != path[j])
    && (forall i :: 1 <= i < |path| ==> FollowsTarget(path, i, k.chain, cat))
  }

  ghost predicate FollowsTarget(path: seq<string>, i: nat, chain: string, cat: Catalogue)
    requires 1 <= i < |path|
  {
    var p := Key(chain, path[i]);
    p !in cat.creates && p in cat.targets && cat.targets[p] == Some(path[i - 1])
  }

  ghost predicate GoodService(s: State, h: History, k: Key, cat: Catalogue)
    requires k in s.services && k in h
  {
    var r := s.services[k];
    && Key(r.chain, r.source) == k && k.chain != "" && k.pin != ""
    && LinearPath(h[k], k, r.current, cat)
    && (forall i :: 1 <= i < |h[k]| ==> Resolves(s, k.chain, h[k][i], k.pin))
  }

  ghost predicate Resolves(s: State, chain: string, pin: string, source: string)
  {
    Key(chain, pin) in s.sources && s.sources[Key(chain, pin)] == source
  }

  /** A mapped pin is a later version in the path of the service it is mapped to. */
  ghost predicate GoodMapping(s: State, h: History, p: Key)
    requires p in s.sources
  {
    var k := Key(p.chain, s.sources[p]);
    k in s.services && k in h && exists i :: 1 <= i < |h[k]| && h[k][i] == p.pin
  }

  ghost predicate Inv(s: State, h: History, cat: Catalogue)
  {
    && s.services.Keys == h.Keys
    && (forall k :: k in s.services ==> GoodService(s, h, k, cat))
    && (forall p :: p in s.sources ==> GoodMapping(s, h, p))
  }

  // ---- Lookups ----

  /** Mapped pins are version pins, so source pins are never mapped. */
  lemma MappedIsVersion(s: State, h: History, cat: Catalogue, p: Key)
    requires Inv(s, h, cat) && p in s.sources
    ensures p !in cat.creates
  {
    assert GoodMapping(s, h, p);
    var k := Key(p.chain, s.sources[p]);
    assert GoodService(s, h, k, cat);
    var i :| 1 <= i < |h[k]| && h[k][i] == p.pin;
    assert FollowsTarget(h[k], i, k.chain, cat);
  }

  /** Any pin of a path resolves to its service. */
  lemma PathResolves(s: State, h: History, cat: Catalogue, k: Key, i: nat)
    requires Inv(s, h, cat) && k in s.services && i < |h[k]|
    ensures h[k][i] != "" ==> LoadByAnyPin(s, k.chain, h[k][i]) == Some(s.services[k])
    ensures i == 0 ==> h[k][i] != ""
  {
    assert GoodService(s, h, k, cat);
    if i == 0 {
      if k in s.sources {
        MappedIsVersion(s, h, cat, k);
      }
    } else {
      assert Resolves(s, k.chain, h[k][i], k.pin);
    }
  }

  /** No pin lies on the paths of two services. */
  lemma PathsDisjoint(s: State, h: History, cat: Catalogue, k: Key, i: nat, l: Key, j: nat)
    requires Inv(s, h, cat) && k in s.services && l in s.services && k.chain == l.chain
    requires i < |h[k]| && j < |h[l]| && h[k][i] == h[l][j]
    ensures k == l && i == j
  {
    assert GoodService(s, h, k, cat) && GoodService(s, h, l, cat);
    if i >= 1 {
      assert FollowsTarget(h[k], i, k.chain, cat) && Resolves(s, k.chain, h[k][i], k.pin);
    }
    if j >= 1 {
      assert FollowsTarget(h[l], j, l.chain, cat) && Resolves(s, l.chain, h[l][j], l.pin);
    }
  }

  /** An accepted version is new to every path. */
  lemma AcceptedIsNew(s: State, h: History, cat: Catalogue, pin: Pin, k: Key)
    requires Inv(s, h, cat) && WellNamed(pin, cat) && Operation(pin) != CREATE && pin.chainName != ""
    requires VersionTarget(s, pin).Some?
    requires k in s.services && k.chain == pin.chainName
    ensures pin.id !in h[k]
  {
    hide Operation, VersionTarget, Target, Resolves, GoodMapping;
    if pin.id in h[k] {
      var i :| 0 <= i < |h[k]| && h[k][i] == pin.id;
      assert GoodService(s, h, k, cat);
      if i >= 1 {
        assert FollowsTarget(h[k], i, k.chain, cat);
        var l := TargetService(s, h, cat, pin);
        assert GoodService(s, h, l, cat);
        PathsDisjoint(s, h, cat, k, i - 1, l, |h[l]| - 1);
      }
    }
  }

  lemma TargetService(s: State, h: History, cat: Catalogue, pin: Pin) returns (l: Key)
    requires Inv(s, h, cat) && VersionTarget(s, pin).Some?
    ensures l in s.services && s.services[l] == VersionTarget(s, pin).value && l.chain == pin.chainName
    ensures l == Key(s.services[l].chain, s.services[l].source) && h[l] != []
    ensures h[l][|h[l]| - 1] == s.services[l].current
  {
    var t := Target(pin).value;
    var source := if Key(pin.chainName, t) in s.sources then s.sources[Key(pin.chainName, t)] else t;
    l := Key(pin.chainName, source);
    assert GoodService(s, h, l, cat);
  }

  // ---- Every delivery keeps the invariant ----

  /** An accepted create adds its service and leaves the others and the mappings alone. */
  lemma CreateWrites(s: State, pin: Pin)
    requires Operation(pin) == CREATE && AcceptedFor(s, pin).Some?
    ensures var k, s' := Key(pin.chainName, pin.id), ProcessCreate(s, pin);
            && k !in s.services && k.chain != "" && k.pin != "" && k in s'.services && s'.services == s.services[k := s'.services[k]]
            && Key(s'.services[k].chain, s'.services[k].source) == k && s'.services[k].current == pin.id
            && s'.sources == s.sources && AcceptedFor(s, pin) == Some(k)
  {
    hide Operation, IndexKeys, ServiceSummary, ProviderOf;
  }

  lemma SameService(s: State, s': State, h: History, h': History, cat: Catalogue, l: Key)
    requires l in s.services && l in h && GoodService(s, h, l, cat)
    requires l in s'.services && l in h' && s'.services[l] == s.services[l] && h'[l] == h[l] && s'.sources == s.sources
    ensures GoodService(s', h', l, cat)
  {
    hide LinearPath;
    forall i | 1 <= i < |h[l]|
      ensures Resolves(s', l.chain, h[l][i], l.pin)
    {
      assert Resolves(s, l.chain, h[l][i], l.pin);
    }
  }

  lemma CreatedService(s': State, h': History, cat: Catalogue, k: Key)
    requires k in s'.services && k in h' && h'[k] == [k.pin] && k in cat.creates && k.chain != "" && k.pin != ""
    requires Key(s'.services[k].chain, s'.services[k].source) == k && s'.services[k].current == k.pin
    ensures GoodService(s', h', k, cat)
  {}

  lemma CreateAccepted(s: State, h: History, cat: Catalogue, pin: Pin)
    requires Inv(s, h, cat) && WellNamed(pin, cat) && Operation(pin) == CREATE
    requires AcceptedFor(s, pin).Some?
    ensures Inv(ProcessCreate(s, pin), Extend(h, AcceptedFor(s, pin), pin), cat)
  {
    hide Operation, ProcessCreate, AcceptedFor, Target, GoodService, LinearPath;
    CreateWrites(s, pin);
    var k := Key(pin.chainName, pin.id);
    var s', h' := ProcessCreate(s, pin), h[k := [pin.id]];
    forall l | l in s'.services
      ensures GoodService(s', h', l, cat)
    {
      if l == k {
        CreatedService(s', h', cat, k);
      } else {
        SameService(s, s', h, h', cat, l);
      }
    }
    forall p | p in s'.sources
      ensures GoodMapping(s', h', p)
    {
      assert GoodMapping(s, h, p);
    }
  }

  lemma PathExtends(path: seq<string>, k: Key, current: string, cat: Catalogue, id: string)
    requires LinearPath(path, k, current, cat) && id !in path
    requires Key(k.chain, id) !in cat.creates && Key(k.chain, id) in cat.targets
    requires cat.targets[Key(k.chain, id)] == Some(current)
    ensures LinearPath(path + [id], k, id, cat)
  {
    var path' := path + [id];
    forall i | 1 <= i < |path'|
      ensures FollowsTarget(path', i, k.chain, cat)
    {
      assert i < |path| ==> FollowsTarget(path, i, k.chain, cat);
    }
  }

  /** What an accepted version writes. */
  ghost predicate VersionWritten(s: State, s': State, k: Key, pin: Pin)
    requires k in s.services
  {
    && k in s'.services && s'.services == s.services[k := s'.services[k]]
    && Key(s'.services[k].chain, s'.services[k].source) == k && s'.services[k].current == pin.id
    && s'.services[k].createdAt == s.services[k].createdAt
    && (s.services[k].operation == REVOKE ==> s'.services[k].operation == REVOKE)
    && s'.sources == MapPin(s.sources, k.chain, pin.id, k.pin)
    && s'.ratings == s.ratings && s'.aggregates == s.aggregates
  }

  lemma SavedVersion(s: State, r: Service, previous: Service, pin: Pin)
    ensures var s' := SaveVersion(s, r, previous, pin);
            && s'.services == s.services[Key(r.chain, r.source) := r]
            && s'.sources == MapPin(s.sources, pin.chainName, pin.id, previous.source)
            && s'.ratings == s.ratings && s'.aggregates == s.aggregates
  {
    hide IndexKeys, StaleKeys;
  }

  lemma VersionIsWritten(s: State, h: History, cat: Catalogue, pin: Pin) returns (k: Key)
    requires Inv(s, h, cat) && Operation(pin) != CREATE && AcceptedFor(s, pin).Some?
    ensures AcceptedFor(s, pin) == Some(k) && k in s.services && k.chain == pin.chainName
    ensures VersionTarget(s, pin) == Some(s.services[k]) && pin.id != ""
    ensures VersionWritten(s, ProcessService(s, pin), k, pin)
  {
    hide Operation, ServiceSummary, ProviderOf, Target, VersionTarget, SaveVersion;
    k := TargetService(s, h, cat, pin);
    var previous := s.services[k];
    SavedVersion(s, Revoked(previous, pin), previous, pin);
    if ServiceSummary(pin).Some? {
      SavedVersion(s, Modified(previous, pin, ServiceSummary(pin).value), previous, pin);
    }
  }

  /** Adding the accepted version to the path of its service keeps every path resolved. */
  lemma PathsAfterVersion(s: State, s': State, h: History, h': History, cat: Catalogue, k: Key, pin: Pin)
    requires Inv(s, h, cat) && k in s.services && VersionWritten(s, s', k, pin) && h' == h[k := h[k] + [pin.id]]
    requires k.chain != "" && k.pin != "" && pin.id != "" && pin.id != k.pin && h[k] != []
    requires Key(k.chain, pin.id) !in s.sources
    requires LinearPath(h[k] + [pin.id], k, pin.id, cat)
    ensures forall l :: l in s'.services ==> GoodService(s', h', l, cat)
  {
    hide LinearPath;
    forall l | l in s'.services
      ensures GoodService(s', h', l, cat)
    {
      assert GoodService(s, h, l, cat);
      forall i | 1 <= i < |h'[l]|
        ensures Resolves(s', l.chain, h'[l][i], l.pin)
      {
        assert i < |h[l]| ==> Resolves(s, l.chain, h[l][i], l.pin);
      }
    }
  }

  lemma MappingsAfterVersion(s: State, s': State, h: History, h': History, cat: Catalogue, k: Key, pin: Pin)
    requires Inv(s, h, cat) && k in s.services && VersionWritten(s, s', k, pin) && h' == h[k := h[k] + [pin.id]]
    requires k.chain != "" && k.pin != "" && pin.id != "" && pin.id != k.pin && h[k] != []
    ensures forall q :: q in s'.sources ==> GoodMapping(s', h', q)
  {
    hide GoodService;
    var p := Key(k.chain, pin.id);
    forall q | q in s'.sources
      ensures GoodMapping(s', h', q)
    {
      if q == p {
        assert h'[k][|h[k]|] == pin.id && |h[k]| >= 1;
      } else {
        assert GoodMapping(s, h, q);
        var l := Key(q.chain, s.sources[q]);
        var i :| 1 <= i < |h[l]| && h[l][i] == q.pin;
        assert h'[l][i] == q.pin;
      }
    }
  }

  lemma VersionAccepted(s: State, h: History, cat: Catalogue, pin: Pin)
    requires Inv(s, h, cat) && WellNamed(pin, cat) && Operation(pin) != CREATE
    requires AcceptedFor(s, pin).Some?
    ensures Inv(ProcessService(s, pin), Extend(h, AcceptedFor(s, pin), pin), cat)
  {
    hide Operation, ProcessService, VersionTarget, AcceptedFor, LinearPath;
    var k := VersionIsWritten(s, h, cat, pin);
    var s', h' := ProcessService(s, pin), h[k := h[k] + [pin.id]];
    assert GoodService(s, h, k, cat);
    AcceptedIsNew(s, h, cat, pin, k);
    PathExtends(h[k], k, s.services[k].current, cat, pin.id);
    NewToSources(s, h, cat, pin);
    SourceIsNot(s, h, cat, k, pin);
    hide GoodService, GoodMapping, VersionWritten;
    PathsAfterVersion(s, s', h, h', cat, k, pin);
    MappingsAfterVersion(s, s', h, h', cat, k, pin);
    WrittenKeys(s, s', k, pin);
  }

  lemma WrittenKeys(s: State, s': State, k: Key, pin: Pin)
    requires k in s.services && VersionWritten(s, s', k, pin)
    ensures s'.services.Keys == s.services.Keys
  {}

  lemma SourceIsNot(s: State, h: History, cat: Catalogue, k: Key, pin: Pin)
    requires Inv(s, h, cat) && WellNamed(pin, cat) && Operation(pin) != CREATE
    requires k in s.services && k.chain == pin.chainName
    ensures pin.id != k.pin && h[k] != []
  {
    assert GoodService(s, h, k, cat);
  }

  lemma NewToSources(s: State, h: History, cat: Catalogue, pin: Pin)
    requires Inv(s, h, cat) && WellNamed(pin, cat) && Operation(pin) != CREATE && pin.chainName != ""
    requires VersionTarget(s, pin).Some?
    ensures Key(pin.chainName, pin.id) !in s.sources
  {
    var p := Key(pin.chainName, pin.id);
    if p in s.sources {
      assert GoodMapping(s, h, p);
      AcceptedIsNew(s, h, cat, pin, Key(p.chain, s.sources[p]));
    }
  }

  /** Without acceptance nothing about services is written. */
  lemma NotAccepted(s: State, pin: Pin)
    requires Accepted(s, pin).None? && ProtocolPath(pin.path) != PATH_RATE
    ensures Process(s, pin) == s
  {
    hide ProtocolPath, Operation, ServiceSummary, VersionTarget, LoadByAnyPin, TargetFromPath;
  }

  lemma RatingKeepsServices(s: State, pin: Pin)
    ensures ProcessRating(s, pin).services == s.services && ProcessRating(s, pin).sources == s.sources
    ensures ProcessRating(s, pin).index == s.index
  {}

  lemma AcceptedIsProcessed(s: State, pin: Pin)
    requires Accepted(s, pin).Some?
    ensures Process(s, pin) == ProcessService(s, pin) && AcceptedFor(s, pin) == Accepted(s, pin)
    ensures Operation(pin) == CREATE ==> Process(s, pin) == ProcessCreate(s, pin)
  {
    hide ProtocolPath, Operation, ServiceSummary, VersionTarget, LoadByAnyPin, TargetFromPath, ProcessCreate;
  }

  lemma InvFrame(s: State, s': State, h: History, cat: Catalogue)
    requires Inv(s, h, cat) && s'.services == s.services && s'.sources == s.sources
    ensures Inv(s', h, cat)
  {
    forall k | k in s'.services
      ensures GoodService(s', h, k, cat)
    {
      assert GoodService(s, h, k, cat);
      forall i | 1 <= i < |h[k]|
        ensures Resolves(s', k.chain, h[k][i], k.pin)
      {
        assert Resolves(s, k.chain, h[k][i], k.pin);
      }
    }
    forall p | p in s'.sources
      ensures GoodMapping(s', h, p)
    {
      assert GoodMapping(s, h, p);
    }
  }

  lemma ProcessKeeps(s: State, h: History, cat: Catalogue, pin: Pin)
    requires Inv(s, h, cat) && WellNamed(pin, cat)
    ensures Inv(Process(s, pin), Extend(h, Accepted(s, pin), pin), cat)
  {
    hide Process, Inv, WellNamed, Operation, ProcessService, ProcessCreate, AcceptedFor, ProtocolPath, IsServiceDelivery;
    if Accepted(s, pin).Some? {
      AcceptedIsProcessed(s, pin);
      if Operation(pin) == CREATE {
        CreateAccepted(s, h, cat, pin);
      } else {
        VersionAccepted(s, h, cat, pin);
      }
    } else if ProtocolPath(pin.path) != PATH_RATE {
      NotAccepted(s, pin);
    } else {
      RatingProcessed(s, pin);
      RatingKeepsServices(s, pin);
      InvFrame(s, Process(s, pin), h, cat);
    }
  }

  lemma RatingProcessed(s: State, pin: Pin)
    requires ProtocolPath(pin.path) == PATH_RATE
    ensures Process(s, pin) == s || Process(s, pin) == ProcessRating(s, pin)
    ensures Accepted(s, pin).None?
  {
    hide ProtocolPath, Operation, ProcessRating, AcceptedFor;
  }

  ghost predicate AllWellNamed(pins: seq<Pin>, cat: Catalogue)
  {
    forall i :: 0 <= i < |pins| ==> WellNamed(pins[i], cat)
  }

  /** Every reachable store has linear histories. */
  lemma {:induction false} ReachableStates(pins: seq<Pin>, cat: Catalogue)
    requires AllWellNamed(pins, cat)
    ensures Inv(Run(EMPTY, pins), HistoryOf(pins), cat)
  {
    hide Process, WellNamed, Accepted, Extend;
    if pins != [] {
      var n := |pins| - 1;
      ReachableStates(pins[..n], cat);
      ProcessKeeps(Run(EMPTY, pins[..n]), HistoryOf(pins[..n]), cat, pins[n]);
    }
  }

  // ---- Consequences ----

  /** The accepted pins of each service form a repeat-free path from its create pin to its current version. */
  lemma HistoriesLinear(pins: seq<Pin>, cat: Catalogue, k: Key)
    requires AllWellNamed(pins, cat) && k in Run(EMPTY, pins).services
    ensures k in HistoryOf(pins) && LinearPath(HistoryOf(pins)[k], k, Run(EMPTY, pins).services[k].current, cat)
    ensures Run(EMPTY, pins).services[k].source == k.pin && Run(EMPTY, pins).services[k].chain == k.chain
  {
    hide Run, HistoryOf, LinearPath;
    ReachableStates(pins, cat);
    assert GoodService(Run(EMPTY, pins), HistoryOf(pins), k, cat);
  }

  /** Whether a pin id lies on the path of some service of its chain. */
  ghost predicate WasAccepted(h: History, chain: string, id: string)
  {
    exists k :: k in h && k.chain == chain && id in h[k]
  }

  lemma LaterIsVersion(s: State, h: History, cat: Catalogue, k: Key, i: nat)
    requires Inv(s, h, cat) && k in h && 1 <= i < |h[k]|
    ensures Key(k.chain, h[k][i]) !in cat.creates
  {
    assert GoodService(s, h, k, cat);
    assert FollowsTarget(h[k], i, k.chain, cat);
  }

  /** Delivering again a pin that was accepted before, at any later time, leaves the whole store unchanged. */
  lemma ReplayHarmless(s: State, h: History, cat: Catalogue, pin: Pin)
    requires Inv(s, h, cat) && WellNamed(pin, cat) && WasAccepted(h, pin.chainName, pin.id)
    requires ProtocolPath(pin.path) != PATH_RATE
    ensures Process(s, pin) == s
  {
    hide ProtocolPath, Operation, ServiceSummary, VersionTarget, IsServiceDelivery, Process;
    if Accepted(s, pin).Some? {
      var k :| k in h && k.chain == pin.chainName && pin.id in h[k];
      var i :| 0 <= i < |h[k]| && h[k][i] == pin.id;
      assert GoodService(s, h, k, cat);
      if Operation(pin) == CREATE {
        if i >= 1 {
          LaterIsVersion(s, h, cat, k, i);
        }
      } else {
        AcceptedIsNew(s, h, cat, pin, k);
      }
    } else {
      NotAccepted(s, pin);
    }
  }

  lemma AcceptedChain(s: State, h: History, cat: Catalogue, pin: Pin)
    requires Inv(s, h, cat) && Accepted(s, pin).Some?
    ensures Accepted(s, pin).value.chain == pin.chainName
  {
    hide IsServiceDelivery, Operation, ServiceSummary, VersionTarget;
    if Operation(pin) != CREATE {
      var k := VersionIsWritten(s, h, cat, pin);
    }
  }

  /** An accepted pin stays on a path. */
  lemma {:induction false} AcceptedStays(before: seq<Pin>, pin: Pin, after: seq<Pin>, cat: Catalogue)
    requires AllWellNamed(before + [pin] + after, cat) && Accepted(Run(EMPTY, before), pin).Some?
    ensures WasAccepted(HistoryOf(before + [pin] + after), pin.chainName, pin.id)
    decreases |after|
  {
    hide Process, WellNamed, Accepted;
    var first := before + [pin];
    if after == [] {
      assert first + after == first && first[..|before|] == before;
      assert AllWellNamed(before, cat) by {
        assert forall i :: 0 <= i < |before| ==> before[i] == (first + after)[i];
      }
      ReachableStates(before, cat);
      AcceptedChain(Run(EMPTY, before), HistoryOf(before), cat, pin);
      var k := Accepted(Run(EMPTY, before), pin).value;
      assert pin.id in HistoryOf(first)[k];
    } else {
      var n := |after| - 1;
      var all := first + after[..n];
      assert first + after == all + [after[n]];
      assert (all + [after[n]])[..|all|] == all;
      assert forall i :: 0 <= i < |all| ==> all[i] == (first + after)[i];
      AcceptedStays(before, pin, after[..n], cat);
      var k :| k in HistoryOf(all) && k.chain == pin.chainName && pin.id in HistoryOf(all)[k];
      assert k in HistoryOf(all + [after[n]]);
    }
  }

  /** A pin accepted once has no effect when it is delivered again after any further deliveries,
      even if the second delivery differs in everything but what its id stands for. */
  lemma ReplayAtAnyTime(before: seq<Pin>, pin: Pin, after: seq<Pin>, replay: Pin, cat: Catalogue)
    requires AllWellNamed(before + [pin] + after, cat) && Accepted(Run(EMPTY, before), pin).Some?
    requires WellNamed(replay, cat) && replay.chainName == pin.chainName && replay.id == pin.id
    requires ProtocolPath(replay.path) != PATH_RATE
    ensures Run(EMPTY, before + [pin] + after + [replay]) == Run(EMPTY, before + [pin] + after)
  {
    hide Process, HistoryOf, WellNamed, ProtocolPath, Accepted, WasAccepted;
    var pins := before + [pin] + after;
    AcceptedStays(before, pin, after, cat);
    ReachableStates(pins, cat);
    ReplayHarmless(Run(EMPTY, pins), HistoryOf(pins), cat, replay);
    assert (pins + [replay])[..|pins|] == pins;
  }

  /** A service keeps its creation time, its key and, once revoked, its revocation. */
  ghost predicate StaysService(s: State, s': State)
  {
    forall k :: k in s.services ==>
      && k in s'.services && s'.services[k].createdAt == s.services[k].createdAt
      && (s.services[k].operation == REVOKE ==> s'.services[k].operation == REVOKE)
  }

  lemma ProcessStays(s: State, h: History, cat: Catalogue, pin: Pin)
    requires Inv(s, h, cat) && WellNamed(pin, cat)
    ensures StaysService(s, Process(s, pin))
  {
    hide Process, WellNamed, Operation, ProcessService, ProtocolPath, IsServiceDelivery, IndexKeys, ServiceSummary,
         ProviderOf;
    if Accepted(s, pin).Some? {
      AcceptedIsProcessed(s, pin);
      if Operation(pin) != CREATE {
        var k := VersionIsWritten(s, h, cat, pin);
      }
    } else if ProtocolPath(pin.path) != PATH_RATE {
      NotAccepted(s, pin);
    } else {
      RatingProcessed(s, pin);
      RatingKeepsServices(s, pin);
    }
  }

  /** Over any continuation of any run, creation times never change and revoke is terminal. */
  lemma {:induction false} ServicesStay(before: seq<Pin>, after: seq<Pin>, cat: Catalogue)
    requires AllWellNamed(before + after, cat)
    ensures StaysService(Run(EMPTY, before), Run(EMPTY, before + after))
    decreases |after|
  {
    hide Process, WellNamed, HistoryOf;
    if after == [] {
      assert before + after == before;
    } else {
      var n := |after| - 1;
      var all := before + after[..n];
      assert before + after == all + [after[n]];
      assert (all + [after[n]])[..|all|] == all;
      assert forall i :: 0 <= i < |all| ==> all[i] == (before + after)[i];
      ServicesStay(before, after[..n], cat);
      ReachableStates(all, cat);
      assert after[n] == (before + after)[|all|];
      ProcessStays(Run(EMPTY, all), HistoryOf(all), cat, after[n]);
    }
  }
}
