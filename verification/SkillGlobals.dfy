/** The skill-service indexes by global identity over whole runs, each delivery finding the profiles of its own time:
    which keys are in the indexes, and when they are exact. */
module SkillGlobals {
  import opened Wrappers
  import opened GoStrings
  import opened SkillService
  import opened SkillExamples
  import opened SkillHistory
  import opened SkillContents

  /** A pin and the profiles as they are found when it is processed. */
  datatype Delivery = Delivery(pin: Pin, profiles: Profiles)

  function Pins(ds: seq<Delivery>): seq<Pin>
  {
    seq(|ds|, i requires 0 <= i < |ds| => ds[i].pin)
  }

  /** The store after the deliveries. */
  function Store(ds: seq<Delivery>): State { Run(EMPTY, Pins(ds)) }

  /** The indexes by global identity after the deliveries. */
  function Globals(ds: seq<Delivery>): set<GlobalKey>
  {
    if ds == [] then {}
    else
      var n := |ds| - 1;
      GlobalsAfter(Store(ds[..n]), Globals(ds[..n]), ds[n].pin, ds[n].profiles)
  }

  lemma StoreStep(ds: seq<Delivery>)
    requires ds != []
    ensures var n := |ds| - 1; Store(ds) == Process(Store(ds[..n]), ds[n].pin) && Pins(ds)[..n] == Pins(ds[..n])
  {
    hide Process;
    var n := |ds| - 1;
    assert Pins(ds)[..n] == Pins(ds[..n]);
  }

  lemma FrontNamed(ds: seq<Delivery>, n: nat, cat: Catalogue)
    requires AllWellNamed(Pins(ds), cat) && n <= |ds|
    ensures AllWellNamed(Pins(ds[..n]), cat)
  {
    hide WellNamed;
    forall i | 0 <= i < n
      ensures WellNamed(Pins(ds[..n])[i], cat)
    {
      assert Pins(ds[..n])[i] == Pins(ds)[i];
    }
  }

  lemma KeyOfService(r: Service, profiles: Profiles, key: GlobalKey)
    requires key in GlobalKeys(r, profiles)
    ensures key.chain == r.chain && key.source == r.source
  {
    hide GlobalIds;
  }

  /** Services are stored under their own keys. */
  ghost predicate WellStored(services: map<Key, Service>)
  {
    forall k :: k in services ==> Key(services[k].chain, services[k].source) == k
  }

  lemma ServicesWellStored(s: State, h: History, cat: Catalogue)
    requires Inv(s, h, cat)
    ensures WellStored(s.services)
  {
    forall k | k in s.services
      ensures Key(s.services[k].chain, s.services[k].source) == k
    {
      assert GoodService(s, h, k, cat);
    }
  }

  lemma AcceptedDispatch(s: State, g: set<GlobalKey>, pin: Pin, profiles: Profiles)
    requires Accepted(s, pin).Some?
    ensures GlobalsAfter(s, g, pin, profiles) == GlobalsAfterService(s, g, pin, profiles) && AcceptedFor(s, pin) == Accepted(s, pin)
  {
    hide Operation, ProtocolPath, TargetFromPath, ServiceSummary, VersionTarget, LoadByAnyPin, GlobalsAfterService;
    DifferentOperations();
  }

  /** An accepted delivery saves the service it is accepted for over its predecessor. */
  lemma AcceptedSaves(s: State, h: History, cat: Catalogue, g: set<GlobalKey>, pin: Pin, profiles: Profiles, k: Key)
    requires Inv(s, h, cat) && Accepted(s, pin) == Some(k) && k in Process(s, pin).services
    ensures GlobalsAfter(s, g, pin, profiles) == SaveGlobals(g, Process(s, pin).services[k], Load(s, k.chain, k.pin), profiles)
    ensures Process(s, pin).services == s.services[k := Process(s, pin).services[k]]
    ensures Key(Process(s, pin).services[k].chain, Process(s, pin).services[k].source) == k
  {
    hide Process, Operation, Accepted, ServiceSummary, ProviderOf, VersionTarget, Inv, SaveGlobals, GlobalsAfter, ProcessService,
         LoadByAnyPin, NewService, Modified, Revoked, VersionWritten;
    AcceptedWrites(s, h, cat, pin, k);
    ServicesWellStored(s, h, cat);
    AcceptedDispatch(s, g, pin, profiles);
    DifferentOperations();
    ServiceKeyed(s, pin, k);
    if Operation(pin) != CREATE {
      var l := VersionIsWritten(s, h, cat, pin);
    }
  }

  lemma DifferentOperations()
    ensures CREATE != MODIFY && CREATE != REVOKE && MODIFY != REVOKE
  {
    assert CREATE[0] == 'c' && MODIFY[0] == 'm' && REVOKE[0] == 'r';
  }

  lemma ServiceKeyed(s: State, pin: Pin, k: Key)
    ensures ServiceSummary(pin).Some? ==>
              Key(NewService(pin, ServiceSummary(pin).value, pin.id).chain, NewService(pin, ServiceSummary(pin).value, pin.id).source)
              == Key(pin.chainName, pin.id)
    ensures k in s.services && ServiceSummary(pin).Some? ==>
              var r := Modified(s.services[k], pin, ServiceSummary(pin).value); r.chain == pin.chainName && r.source == s.services[k].source
    ensures k in s.services ==>
              var r := Revoked(s.services[k], pin); r.chain == s.services[k].chain && r.source == s.services[k].source
  {
    hide Operation, ServiceSummary, ProviderOf;
  }

  lemma NotAcceptedKeeps(s: State, g: set<GlobalKey>, pin: Pin, profiles: Profiles)
    requires Accepted(s, pin).None?
    ensures GlobalsAfter(s, g, pin, profiles) == g
  {
    hide Operation, ProtocolPath, TargetFromPath, ServiceSummary, VersionTarget, SaveGlobals, LoadByAnyPin, NewService, Modified,
         Revoked;
    DifferentOperations();
  }

  // ---- Which keys are in the indexes ----

  /** Processing the pin saves the service of `key` with that key. */
  ghost predicate WritesKey(s: State, d: Delivery, key: GlobalKey)
  {
    var k := Key(key.chain, key.source);
    Accepted(s, d.pin) == Some(k) && k in Process(s, d.pin).services
    && key in GlobalKeys(Process(s, d.pin).services[k], d.profiles)
  }

  /** Processing the pin replaces the service of `key`, which has that key under the profiles found then. */
  ghost predicate ClearsKey(s: State, d: Delivery, key: GlobalKey)
  {
    var k := Key(key.chain, key.source);
    Accepted(s, d.pin) == Some(k) && k in s.services && key in GlobalKeys(s.services[k], d.profiles)
  }

  lemma GlobalsStep(s: State, h: History, cat: Catalogue, g: set<GlobalKey>, d: Delivery, key: GlobalKey)
    requires Inv(s, h, cat)
    ensures key in GlobalsAfter(s, g, d.pin, d.profiles) <==> WritesKey(s, d, key) || (key in g && !ClearsKey(s, d, key))
  {
    hide Accepted, Process, GlobalKeys, GlobalsAfter, Inv;
    var accepted := Accepted(s, d.pin);
    if accepted.None? {
      NotAcceptedKeeps(s, g, d.pin, d.profiles);
    } else {
      var k := accepted.value;
      AcceptedWrites(s, h, cat, d.pin, k);
      AcceptedSaves(s, h, cat, g, d.pin, d.profiles, k);
      ServicesWellStored(s, h, cat);
      var r := Process(s, d.pin).services[k];
      if key in GlobalKeys(r, d.profiles) {
        KeyOfService(r, d.profiles, key);
      }
      if k in s.services && key in GlobalKeys(s.services[k], d.profiles) {
        KeyOfService(s.services[k], d.profiles, key);
      }
    }
  }

  ghost predicate Writes(ds: seq<Delivery>, i: nat, key: GlobalKey)
    requires i < |ds|
  {
    WritesKey(Store(ds[..i]), ds[i], key)
  }

  ghost predicate Clears(ds: seq<Delivery>, i: nat, key: GlobalKey)
    requires i < |ds|
  {
    ClearsKey(Store(ds[..i]), ds[i], key)
  }

  /** Some delivery writes the key and no later one clears it. */
  ghost predicate LeftBehind(ds: seq<Delivery>, key: GlobalKey)
  {
    exists i :: 0 <= i < |ds| && Writes(ds, i, key) && forall j :: i < j < |ds| ==> !Clears(ds, j, key)
  }

  lemma SameInFront(ds: seq<Delivery>, i: nat, key: GlobalKey)
    requires ds != [] && i < |ds| - 1
    ensures var front := ds[..|ds| - 1]; Writes(front, i, key) == Writes(ds, i, key) && Clears(front, i, key) == Clears(ds, i, key)
  {
    hide WritesKey, ClearsKey, Store;
    assert ds[..|ds| - 1][..i] == ds[..i];
  }

  lemma LeftBehindStep(ds: seq<Delivery>, key: GlobalKey)
    requires ds != []
    ensures var n := |ds| - 1;
            LeftBehind(ds, key) <==> Writes(ds, n, key) || (LeftBehind(ds[..n], key) && !Clears(ds, n, key))
  {
    hide Writes, Clears;
    var n := |ds| - 1;
    var front := ds[..n];
    forall i | 0 <= i < n
      ensures Writes(front, i, key) == Writes(ds, i, key) && Clears(front, i, key) == Clears(ds, i, key)
    {
      SameInFront(ds, i, key);
    }
    if LeftBehind(front, key) && !Clears(ds, n, key) {
      var i :| 0 <= i < |front| && Writes(front, i, key) && forall j :: i < j < |front| ==> !Clears(front, j, key);
      assert Writes(ds, i, key);
    }
    if LeftBehind(ds, key) && !Writes(ds, n, key) {
      var i :| 0 <= i < |ds| && Writes(ds, i, key) && forall j :: i < j < |ds| ==> !Clears(ds, j, key);
      assert Writes(front, i, key);
    }
  }

  /** In every reachable store a key is in the indexes by global identity exactly when some delivery wrote it and no
      later one cleared it, each under the profiles of its own time. */
  lemma {:induction false} InIndexIff(ds: seq<Delivery>, cat: Catalogue, key: GlobalKey)
    requires AllWellNamed(Pins(ds), cat)
    ensures key in Globals(ds) <==> LeftBehind(ds, key)
  {
    hide AllWellNamed, Store, GlobalsAfter, WritesKey, ClearsKey, LeftBehind, Inv;
    if ds == [] {
      NothingLeftBehind(key);
    } else {
      var n := |ds| - 1;
      FrontNamed(ds, n, cat);
      InIndexIff(ds[..n], cat, key);
      LeftBehindStep(ds, key);
      ReachableStates(Pins(ds[..n]), cat);
      StoreIsRun(ds[..n]);
      GlobalsStep(Store(ds[..n]), HistoryOf(Pins(ds[..n])), cat, Globals(ds[..n]), ds[n], key);
    }
  }

  lemma NothingLeftBehind(key: GlobalKey)
    ensures !LeftBehind([], key)
  {}

  lemma StoreIsRun(ds: seq<Delivery>)
    ensures Store(ds) == Run(EMPTY, Pins(ds))
  {}

  // ---- When the indexes are exact ----

  /** The profiles found at the last save of service `k`. */
  function LastProfiles(ds: seq<Delivery>, k: Key): Option<Profiles>
  {
    if ds == [] then None
    else
      var n := |ds| - 1;
      if Accepted(Store(ds[..n]), ds[n].pin) == Some(k) then Some(ds[n].profiles) else LastProfiles(ds[..n], k)
  }

  /** The key belongs to its service as it is now, under the profiles of its last save. */
  ghost predicate Current(ds: seq<Delivery>, key: GlobalKey)
  {
    var k := Key(key.chain, key.source);
    k in Store(ds).services && LastProfiles(ds, k).Some? && key in GlobalKeys(Store(ds).services[k], LastProfiles(ds, k).value)
  }

  /** The indexes hold the current keys of all services and no others. */
  ghost predicate Exact(ds: seq<Delivery>)
  {
    forall key :: key in Globals(ds) <==> Current(ds, key)
  }

  /** What a save must find so that no key of the replaced service stays behind: each identity it had at its last save is
      still found now, or is rewritten for its successor with the same update time. */
  ghost predicate IdsFollowed(previous: Service, next: Service, before: Profiles, now: Profiles)
  {
    forall id <- GlobalIds(previous.provider, before) ::
      id in GlobalIds(previous.provider, now) || (previous.updatedAt == next.updatedAt && id in GlobalIds(next.provider, now))
  }

  ghost predicate SaveFollows(ds: seq<Delivery>, i: nat)
    requires i < |ds|
  {
    var s, accepted := Store(ds[..i]), Accepted(Store(ds[..i]), ds[i].pin);
    accepted.Some? && accepted.value in s.services && accepted.value in Process(s, ds[i].pin).services
    && LastProfiles(ds[..i], accepted.value).Some? ==>
      IdsFollowed(s.services[accepted.value], Process(s, ds[i].pin).services[accepted.value],
                  LastProfiles(ds[..i], accepted.value).value, ds[i].profiles)
  }

  lemma KeysByIds(r: Service, profiles: Profiles, id: string, updatedAt: int)
    ensures ByGlobal(id, updatedAt, r.chain, r.source) in GlobalKeys(r, profiles) <==>
            updatedAt == r.updatedAt && id in GlobalIds(r.provider, profiles)
    ensures ByGlobalChain(id, r.chain, updatedAt, r.source) in GlobalKeys(r, profiles) <==>
            updatedAt == r.updatedAt && id in GlobalIds(r.provider, profiles)
  {
    hide GlobalIds;
  }

  /** The keys of the replaced service are all cleared or rewritten exactly when its identities are followed. */
  lemma FollowedIff(previous: Service, next: Service, before: Profiles, now: Profiles)
    requires previous.chain == next.chain && previous.source == next.source
    ensures IdsFollowed(previous, next, before, now) <==>
            forall key :: key in GlobalKeys(previous, before) ==> key in GlobalKeys(previous, now) || key in GlobalKeys(next, now)
  {
    hide GlobalIds, GlobalKeys;
    if IdsFollowed(previous, next, before, now) {
      forall key | key in GlobalKeys(previous, before)
        ensures key in GlobalKeys(previous, now) || key in GlobalKeys(next, now)
      {
        KeyOfService(previous, before, key);
        KeysByIds(previous, before, key.id, key.updatedAt);
        KeysByIds(previous, now, key.id, key.updatedAt);
        KeysByIds(next, now, key.id, key.updatedAt);
      }
    } else {
      var id :| id in GlobalIds(previous.provider, before)
                && !(id in GlobalIds(previous.provider, now)
                     || (previous.updatedAt == next.updatedAt && id in GlobalIds(next.provider, now)));
      var key := ByGlobal(id, previous.updatedAt, previous.chain, previous.source);
      KeysByIds(previous, before, id, previous.updatedAt);
      KeysByIds(previous, now, id, previous.updatedAt);
      KeysByIds(next, now, id, previous.updatedAt);
      assert key in GlobalKeys(previous, before);
    }
  }

  /** What a delivery does to the services and to the profiles of their last saves. */
  lemma DeliveryEffect(ds: seq<Delivery>, cat: Catalogue, k: Key)
    requires ds != [] && AllWellNamed(Pins(ds), cat)
    ensures var n := |ds| - 1;
            var s, accepted := Store(ds[..n]), Accepted(Store(ds[..n]), ds[n].pin);
            && (accepted == Some(k) ==> k in Store(ds).services && LastProfiles(ds, k) == Some(ds[n].profiles))
            && (accepted != Some(k) ==> (k in Store(ds).services <==> k in s.services) && LastProfiles(ds, k) == LastProfiles(ds[..n], k))
            && (accepted != Some(k) && k in s.services ==> Store(ds).services[k] == s.services[k])
            && Store(ds) == Process(s, ds[n].pin)
  {
    hide Process, Accepted, AllWellNamed, Inv;
    var n := |ds| - 1;
    StoreStep(ds);
    FrontNamed(ds, n, cat);
    ReachableStates(Pins(ds[..n]), cat);
    var s, accepted := Store(ds[..n]), Accepted(Store(ds[..n]), ds[n].pin);
    if accepted.None? {
      NothingWritten(s, ds[n].pin);
    } else {
      AcceptedWrites(s, HistoryOf(Pins(ds[..n])), cat, ds[n].pin, accepted.value);
    }
  }

  /** Every stored service has been saved. */
  lemma {:induction false} SavedSometime(ds: seq<Delivery>, cat: Catalogue, k: Key)
    requires AllWellNamed(Pins(ds), cat)
    ensures k in Store(ds).services ==> LastProfiles(ds, k).Some?
  {
    hide Accepted, AllWellNamed, Process;
    if ds != [] {
      FrontNamed(ds, |ds| - 1, cat);
      SavedSometime(ds[..|ds| - 1], cat, k);
      DeliveryEffect(ds, cat, k);
    }
  }

  lemma CurrentStep(ds: seq<Delivery>, cat: Catalogue, key: GlobalKey)
    requires ds != [] && AllWellNamed(Pins(ds), cat)
    ensures var n := |ds| - 1;
            Current(ds, key) <==>
            if Accepted(Store(ds[..n]), ds[n].pin) == Some(Key(key.chain, key.source)) then Writes(ds, n, key)
            else Current(ds[..n], key)
  {
    hide Accepted, AllWellNamed, Process, Store, GlobalKeys, LastProfiles;
    DeliveryEffect(ds, cat, Key(key.chain, key.source));
  }

  lemma {:induction false} IndexStep(ds: seq<Delivery>, cat: Catalogue, key: GlobalKey)
    requires ds != [] && AllWellNamed(Pins(ds), cat)
    ensures var n := |ds| - 1; key in Globals(ds) <==> Writes(ds, n, key) || (key in Globals(ds[..n]) && !Clears(ds, n, key))
  {
    hide AllWellNamed, Globals, LeftBehind, Writes, Clears;
    FrontNamed(ds, |ds| - 1, cat);
    InIndexIff(ds, cat, key);
    InIndexIff(ds[..|ds| - 1], cat, key);
    LeftBehindStep(ds, key);
  }

  /** No current key is ever missing. */
  lemma {:induction false} CurrentPresent(ds: seq<Delivery>, cat: Catalogue, key: GlobalKey)
    requires AllWellNamed(Pins(ds), cat) && Current(ds, key)
    ensures key in Globals(ds)
  {
    hide AllWellNamed, Accepted, Process, GlobalKeys, Globals;
    if ds == [] {
      NothingCurrent(key);
    } else {
      FrontNamed(ds, |ds| - 1, cat);
      CurrentStep(ds, cat, key);
      IndexStep(ds, cat, key);
      hide Current;
      if !Writes(ds, |ds| - 1, key) {
        CurrentPresent(ds[..|ds| - 1], cat, key);
      }
    }
  }

  lemma NothingCurrent(key: GlobalKey)
    ensures !Current([], key)
  {}

  /** A reachable store has no stale key exactly when every key left behind is current. */
  lemma ExactIff(ds: seq<Delivery>, cat: Catalogue)
    requires AllWellNamed(Pins(ds), cat)
    ensures Exact(ds) <==> forall key :: LeftBehind(ds, key) ==> Current(ds, key)
  {
    hide AllWellNamed, LeftBehind, Current, Globals;
    forall key
      ensures key in Globals(ds) <==> LeftBehind(ds, key)
      ensures Current(ds, key) ==> key in Globals(ds)
    {
      InIndexIff(ds, cat, key);
      if Current(ds, key) {
        CurrentPresent(ds, cat, key);
      }
    }
  }

  /** A delivery keeps exact indexes exact precisely when its save follows the identities of the service. */
  lemma ExactStep(ds: seq<Delivery>, cat: Catalogue)
    requires ds != [] && AllWellNamed(Pins(ds), cat) && Exact(ds[..|ds| - 1])
    ensures Exact(ds) <==> SaveFollows(ds, |ds| - 1)
  {
    hide AllWellNamed, Accepted, Process, GlobalKeys, Globals, Current, IdsFollowed, SaveFollows, Store;
    var n := |ds| - 1;
    var accepted := Accepted(Store(ds[..n]), ds[n].pin);
    if accepted.None? {
      NothingSaved(ds);
      forall key
        ensures key in Globals(ds) <==> Current(ds, key)
      {
        CurrentStep(ds, cat, key);
        IndexStep(ds, cat, key);
      }
    } else {
      var k := accepted.value;
      forall key: GlobalKey | Key(key.chain, key.source) != k
        ensures key in Globals(ds) <==> Current(ds, key)
      {
        CurrentStep(ds, cat, key);
        IndexStep(ds, cat, key);
      }
      SavedExactly(ds, cat, k);
    }
  }

  lemma NothingSaved(ds: seq<Delivery>)
    requires ds != [] && Accepted(Store(ds[..|ds| - 1]), ds[|ds| - 1].pin).None?
    ensures SaveFollows(ds, |ds| - 1)
  {
    hide Accepted, Store;
  }

  /** The keys of the saved service are exact precisely when its identities are followed. */
  lemma {:induction false} SavedExactly(ds: seq<Delivery>, cat: Catalogue, k: Key)
    requires ds != [] && AllWellNamed(Pins(ds), cat) && Exact(ds[..|ds| - 1])
    requires Accepted(Store(ds[..|ds| - 1]), ds[|ds| - 1].pin) == Some(k)
    ensures SaveFollows(ds, |ds| - 1) <==>
            forall key: GlobalKey | Key(key.chain, key.source) == k :: key in Globals(ds) <==> Current(ds, key)
  {
    hide AllWellNamed, Accepted, Process, GlobalKeys, Globals, IdsFollowed, Store, LastProfiles, Inv;
    var n := |ds| - 1;
    var front, s := ds[..n], Store(ds[..n]);
    FrontNamed(ds, n, cat);
    forall key: GlobalKey | Key(key.chain, key.source) == k
      ensures Current(ds, key) <==> Writes(ds, n, key)
      ensures key in Globals(ds) <==> Writes(ds, n, key) || (Current(front, key) && !Clears(ds, n, key))
    {
      CurrentStep(ds, cat, key);
      IndexStep(ds, cat, key);
    }
    if k in s.services {
      SavedSometime(front, cat, k);
      DeliveryEffect(ds, cat, k);
      KeysStay(front, ds, cat, k);
      FollowedIff(s.services[k], Process(s, ds[n].pin).services[k], LastProfiles(front, k).value, ds[n].profiles);
      KeysAreOfService(s.services[k], LastProfiles(front, k).value, k);
    }
  }

  lemma KeysAreOfService(r: Service, profiles: Profiles, k: Key)
    requires Key(r.chain, r.source) == k
    ensures forall key :: key in GlobalKeys(r, profiles) ==> Key(key.chain, key.source) == k
  {
    hide GlobalKeys;
    forall key | key in GlobalKeys(r, profiles)
      ensures Key(key.chain, key.source) == k
    {
      KeyOfService(r, profiles, key);
    }
  }

  lemma KeysStay(front: seq<Delivery>, ds: seq<Delivery>, cat: Catalogue, k: Key)
    requires ds != [] && front == ds[..|ds| - 1] && AllWellNamed(Pins(ds), cat) && k in Store(front).services && k in Store(ds).services
    ensures Key(Store(front).services[k].chain, Store(front).services[k].source) == k
    ensures Key(Store(ds).services[k].chain, Store(ds).services[k].source) == k
  {
    hide AllWellNamed, Run, Inv, HistoryOf;
    FrontNamed(ds, |ds| - 1, cat);
    ReachableStates(Pins(front), cat);
    ReachableStates(Pins(ds), cat);
    ServicesWellStored(Store(front), HistoryOf(Pins(front)), cat);
    ServicesWellStored(Store(ds), HistoryOf(Pins(ds)), cat);
  }

  /** The indexes are exact in every state of a run exactly when each save of the run follows the identities of its
      service: what its profile gave at the last save is still found, or rewritten with the same update time. */
  lemma {:induction false} AlwaysExactIff(ds: seq<Delivery>, cat: Catalogue)
    requires AllWellNamed(Pins(ds), cat)
    ensures (forall n :: 0 <= n <= |ds| ==> Exact(ds[..n])) <==> (forall i :: 0 <= i < |ds| ==> SaveFollows(ds, i))
  {
    hide AllWellNamed, Exact, SaveFollows;
    if ds == [] {
      EmptyExact();
      assert ds[..0] == [];
    } else {
      var last := |ds| - 1;
      var front := ds[..last];
      FrontNamed(ds, last, cat);
      AlwaysExactIff(front, cat);
      forall n | 0 <= n <= last
        ensures Exact(front[..n]) == Exact(ds[..n])
      {
        assert front[..n] == ds[..n];
      }
      forall i | 0 <= i < last
        ensures SaveFollows(front, i) == SaveFollows(ds, i)
      {
        SameSave(ds, i);
      }
      assert ds[..|ds|] == ds && front[..last] == front;
      if Exact(front) {
        ExactStep(ds, cat);
      }
    }
  }

  lemma SameSave(ds: seq<Delivery>, i: nat)
    requires ds != [] && i < |ds| - 1
    ensures SaveFollows(ds[..|ds| - 1], i) == SaveFollows(ds, i)
  {
    hide Accepted, Process, IdsFollowed, Store, LastProfiles;
    assert ds[..|ds| - 1][..i] == ds[..i];
  }

  lemma EmptyExact()
    ensures Exact([])
  {
    forall key
      ensures !Current([], key)
    {
      NothingCurrent(key);
    }
  }

  lemma {:induction false} OneProfile(ds: seq<Delivery>, k: Key, profiles: Profiles)
    requires forall d <- ds :: d.profiles == profiles
    ensures LastProfiles(ds, k).Some? ==> LastProfiles(ds, k).value == profiles
  {
    hide Accepted;
    if ds != [] {
      assert ds[|ds| - 1] in ds;
      OneProfile(ds[..|ds| - 1], k, profiles);
    }
  }

  /** With profiles that do not change, the indexes are exact in every reachable store. */
  lemma GlobalsExact(ds: seq<Delivery>, cat: Catalogue, profiles: Profiles)
    requires AllWellNamed(Pins(ds), cat) && forall d <- ds :: d.profiles == profiles
    ensures Exact(ds)
  {
    hide AllWellNamed, Exact, Accepted, Process, Store, LastProfiles;
    forall i | 0 <= i < |ds|
      ensures SaveFollows(ds, i)
    {
      assert ds[i] in ds;
      assert forall d <- ds[..i] :: d in ds;
      var accepted := Accepted(Store(ds[..i]), ds[i].pin);
      if accepted.Some? {
        OneProfile(ds[..i], accepted.value, profiles);
      }
    }
    AlwaysExactIff(ds, cat);
    assert ds[..|ds|] == ds;
  }

  // ---- A profile that is lost ----

  function Found(): Profiles { p => "g" }

  function Lost(): Profiles { p => "" }

  function CreateDelivery(): Delivery
  {
    Delivery(ExamplePin("s", PATH_SERVICE, "create", "", Some(EXAMPLE_SUMMARY), None, 1), Found())
  }

  function ModifyDelivery(): Delivery
  {
    Delivery(ExamplePin("m", PATH_SERVICE, "modify", "s", Some(EXAMPLE_SUMMARY), None, 2), Lost())
  }

  /** A create processed while the profile of its provider is found, a modify while it is not: the modified service stays
      listed under the identity of the profile and its old update time. */
  lemma StaleKeyLeft()
    ensures var ds := [CreateDelivery(), ModifyDelivery()];
            && Key("btc", "s") in Store(ds).services && Store(ds).services[Key("btc", "s")].updatedAt == 2
            && ByGlobal("g", 1, "btc", "s") in Globals(ds) && !Exact(ds)
  {
    hide Process, GlobalsAfter, Store;
    var a, b := CreateDelivery(), ModifyDelivery();
    var ds := [a, b];
    assert ds[..1] == [a] && [a][..0] == [];
    StoreStep([a]);
    StoreStep(ds);
    NoStore();
    ExampleCreate();
    ExampleModify();
    var key := ByGlobal("g", 1, "btc", "s");
    assert Globals([a]) == GlobalsAfter(EMPTY, Globals([]), a.pin, a.profiles);
    assert !Current(ds, key) by {
      if LastProfiles(ds, Key("btc", "s")).Some? {
        KeysByIds(Store(ds).services[Key("btc", "s")], LastProfiles(ds, Key("btc", "s")).value, "g", 1);
      }
    }
  }

  lemma NoStore()
    ensures Store([]) == EMPTY
  {
    assert Pins([]) == [];
  }

  function FirstService(): Service { NewService(CreateDelivery().pin, EXAMPLE_SUMMARY, "s") }

  lemma ExampleIds(r: Service)
    requires r.provider == Provider("", "", "")
    ensures GlobalIds(r.provider, Found()) == {"g"} && GlobalIds(r.provider, Lost()) == {}
  {
    hide TrimSpace;
    NothingToTrim("g");
    LowerModify();
    assert |"g"| == 1;
  }

  lemma ExampleReads()
    ensures var a := CreateDelivery().pin;
            && ProtocolPath(a.path) == PATH_SERVICE && Operation(a) == CREATE && ServiceSummary(a) == Some(EXAMPLE_SUMMARY)
            && FirstService().provider == Provider("", "", "")
  {
    hide TrimSpace, ToLower, ProtocolPath;
    Paths();
    LowerModify();
  }

  lemma ExampleCreate()
    ensures var a := CreateDelivery();
            && Process(EMPTY, a.pin).services == map[Key("btc", "s") := FirstService()] && Process(EMPTY, a.pin).sources == map[]
            && FirstService().provider == Provider("", "", "") && FirstService().updatedAt == 1
            && ByGlobal("g", 1, "btc", "s") in GlobalsAfter(EMPTY, {}, a.pin, a.profiles)
  {
    hide TrimSpace, ToLower, ProtocolPath, IndexKeys, GlobalIds, GlobalKeys, Operation, ServiceSummary, ProviderOf, TargetFromPath;
    ExampleReads();
    ExampleIds(FirstService());
    KeysByIds(FirstService(), Found(), "g", 1);
  }

  lemma ExampleModify()
    ensures var s, b := Process(EMPTY, CreateDelivery().pin), ModifyDelivery();
            && Key("btc", "s") in Process(s, b.pin).services && Process(s, b.pin).services[Key("btc", "s")].updatedAt == 2
            && forall g :: ByGlobal("g", 1, "btc", "s") in g ==> ByGlobal("g", 1, "btc", "s") in GlobalsAfter(s, g, b.pin, b.profiles)
  {
    ExampleCreate();
    var s, b := Process(EMPTY, CreateDelivery().pin), ModifyDelivery();
    hide TrimSpace, ToLower, ProtocolPath, IndexKeys, StaleKeys, GlobalIds, GlobalKeys, TargetFromPath, TrimPrefix;
    Paths();
    LowerModify();
    ExampleIds(FirstService());
    KeysByIds(FirstService(), Lost(), "g", 1);
    assert VersionTarget(s, b.pin) == Some(FirstService());
  }
}
