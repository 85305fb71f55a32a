/** The provider and update-time indexes of skill services are exact in every reachable store. */
module SkillIndex {
  import opened Wrappers
  import opened SkillService
  import opened SkillHistory

  ghost function IndexImage(services: map<Key, Service>): set<IndexKey>
  {
    set k, key | k in services && key in IndexKeys(services[k]) :: key
  }

  /** A key names the service it belongs to. */
  lemma KeyNamesService(r: Service, key: IndexKey)
    requires key in IndexKeys(r)
    ensures key.chain == r.chain && key.source == r.source
  {}

  lemma StaleNamesService(r: Service, previous: Service, key: IndexKey)
    requires key in StaleKeys(r, previous)
    ensures key.chain == previous.chain && key.source == previous.source
  {}

  /** The keys of the record replaced are gone or rewritten, although the update-time key is not torn down
      when the time stays the same. */
  lemma KeysReplaced(r: Service, previous: Service, key: IndexKey)
    requires r.chain == previous.chain && r.source == previous.source
    requires key in IndexKeys(previous) && key !in StaleKeys(r, previous)
    ensures key in IndexKeys(r)
  {}

  lemma SaveKeepsIndex(s: State, r: Service, previous: Option<Service>)
    requires s.index == IndexImage(s.services)
    requires forall k :: k in s.services ==> Key(s.services[k].chain, s.services[k].source) == k
    requires previous == Load(s, r.chain, r.source)
    ensures Save(s, r, previous).index == IndexImage(Save(s, r, previous).services)
  {
    hide IndexKeys, StaleKeys;
    var s' := Save(s, r, previous);
    var k0 := Key(r.chain, r.source);
    forall key
      ensures key in s'.index <==> key in IndexImage(s'.services)
    {
      if key in s'.index {
        if key in IndexKeys(r) {
          assert s'.services[k0] == r;
        } else {
          var k :| k in s.services && key in IndexKeys(s.services[k]);
          if k == k0 {
            KeysReplaced(r, previous.value, key);
          } else {
            assert s'.services[k] == s.services[k];
          }
        }
      }
      if key in IndexImage(s'.services) {
        var k :| k in s'.services && key in IndexKeys(s'.services[k]);
        if k != k0 {
          KeyNamesService(s'.services[k], key);
          assert key in IndexImage(s.services);
          if previous.Some? && key in StaleKeys(r, previous.value) {
            StaleNamesService(r, previous.value, key);
          }
        }
      }
    }
  }

  lemma ServiceKeys(s: State, h: History, cat: Catalogue)
    requires Inv(s, h, cat)
    ensures forall k :: k in s.services ==> Key(s.services[k].chain, s.services[k].source) == k
  {
    forall k | k in s.services
      ensures Key(s.services[k].chain, s.services[k].source) == k
    {
      assert GoodService(s, h, k, cat);
    }
  }

  lemma ProcessKeepsIndex(s: State, h: History, cat: Catalogue, pin: Pin)
    requires Inv(s, h, cat) && s.index == IndexImage(s.services)
    ensures Process(s, pin).index == IndexImage(Process(s, pin).services)
  {
    hide Inv, Operation, ProtocolPath, IsServiceDelivery, IndexKeys, StaleKeys, ServiceSummary, ProviderOf, Process,
         VersionTarget, MapPin, IndexImage;
    if Accepted(s, pin).Some? {
      AcceptedIsProcessed(s, pin);
      ServiceKeys(s, h, cat);
      if Operation(pin) == CREATE {
        SaveKeepsIndex(s, NewService(pin, ServiceSummary(pin).value, pin.id), None);
      } else {
        var k := VersionIsWritten(s, h, cat, pin);
        var previous := s.services[k];
        if Operation(pin) == MODIFY {
          SaveKeepsIndex(s, Modified(previous, pin, ServiceSummary(pin).value), Some(previous));
        } else {
          SaveKeepsIndex(s, Revoked(previous, pin), Some(previous));
        }
      }
    } else if ProtocolPath(pin.path) != PATH_RATE {
      NotAccepted(s, pin);
    } else {
      RatingProcessed(s, pin);
      RatingKeepsServices(s, pin);
    }
  }

  /** Entry by entry: by provider and update time those of the services with that provider, by update time those of the
      services with a block time. */
  lemma IndexSays(pins: seq<Pin>, cat: Catalogue, chain: string, source: string, metaId: string, time: int)
    requires AllWellNamed(pins, cat)
    ensures var s, k := Run(EMPTY, pins), Key(chain, source);
            && (ByProvider(chain, metaId, source) in s.index <==>
                  metaId != "" && k in s.services && s.services[k].provider.metaId == metaId)
            && (ByProviderMeta(metaId, time, chain, source) in s.index <==>
                  metaId != "" && k in s.services && s.services[k].provider.metaId == metaId && s.services[k].updatedAt == time)
            && (ByUpdated(chain, time, source) in s.index <==> time > 0 && k in s.services && s.services[k].updatedAt == time)
  {
    hide Run, HistoryOf, Inv;
    var s := Run(EMPTY, pins);
    IndexExact(pins, cat);
    ReachableStates(pins, cat);
    ServiceKeys(s, HistoryOf(pins), cat);
    ImageHas(s.services, ByProvider(chain, metaId, source));
    ImageHas(s.services, ByProviderMeta(metaId, time, chain, source));
    ImageHas(s.services, ByUpdated(chain, time, source));
  }

  lemma ImageHas(services: map<Key, Service>, key: IndexKey)
    requires forall k :: k in services ==> Key(services[k].chain, services[k].source) == k
    ensures key in IndexImage(services) <==>
            var k := Key(key.chain, key.source); k in services && key in IndexKeys(services[k])
  {
    hide IndexKeys;
    if key in IndexImage(services) {
      var k :| k in services && key in IndexKeys(services[k]);
      KeyNamesService(services[k], key);
    }
  }

  /** In every reachable store the indexes hold the keys of the services as they are now, and no others. */
  lemma {:induction false} IndexExact(pins: seq<Pin>, cat: Catalogue)
    requires AllWellNamed(pins, cat)
    ensures Run(EMPTY, pins).index == IndexImage(Run(EMPTY, pins).services)
  {
    hide Process, HistoryOf, WellNamed;
    if pins != [] {
      var n := |pins| - 1;
      IndexExact(pins[..n], cat);
      ReachableStates(pins[..n], cat);
      ProcessKeepsIndex(Run(EMPTY, pins[..n]), HistoryOf(pins[..n]), cat, pins[n]);
    }
  }
}
