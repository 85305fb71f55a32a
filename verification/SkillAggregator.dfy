/** The skill-service aggregator over its store, each method proved against the fold. */
module SkillAggregator {
  import opened Wrappers
  import opened GoStrings
  import opened SkillService

  class Aggregator {
    var services: map<Key, Service>
    var sources: map<Key, string>
    var index: set<IndexKey>
    var globals: set<GlobalKey>
    var ratings: map<Key, RatingPin>
    var aggregates: map<Key, Aggregate>

    ghost function View(): State
      reads this
    {
      State(services, sources, index, ratings, aggregates)
    }

    constructor ()
      ensures View() == EMPTY && globals == {}
    {
      services, sources, index, ratings, aggregates := map[], map[], {}, map[], map[];
      globals := {};
    }

    method LoadServiceByAnyPinId(chain: string, pin: string) returns (r: Option<Service>)
      ensures r == LoadByAnyPin(View(), chain, pin)
    {
      if chain == "" || pin == "" {
        return None;
      }
      var source := pin;
      if Key(chain, pin) in sources {
        source := sources[Key(chain, pin)];
      }
      r := if Key(chain, source) in services then Some(services[Key(chain, source)]) else None;
    }

    method DeleteStaleKeys(r: Service, p: Service)
      modifies `index
      ensures index == old(index) - StaleKeys(r, p)
    {
      if p.provider.metaId != "" {
        index := index - {ByProvider(p.chain, p.provider.metaId, p.source)};
        index := index - {ByProviderMeta(p.provider.metaId, p.updatedAt, p.chain, p.source)};
      }
      if p.updatedAt > 0 && p.updatedAt != r.updatedAt {
        index := index - {ByUpdated(p.chain, p.updatedAt, p.source)};
      }
    }

    method WriteIndexKeys(r: Service)
      modifies `index
      ensures index == old(index) + IndexKeys(r)
    {
      if r.provider.metaId != "" {
        index := index + {ByProvider(r.chain, r.provider.metaId, r.source)};
        index := index + {ByProviderMeta(r.provider.metaId, r.updatedAt, r.chain, r.source)};
      }
      if r.updatedAt > 0 {
        index := index + {ByUpdated(r.chain, r.updatedAt, r.source)};
      }
    }

    /** The trimmed identities without empty ones and repetitions in another case, in order. */
    method UniqueNonEmpty(values: seq<string>) returns (out: seq<string>)
      ensures forall v :: v in out <==> IsFirstSpelling(values, v)
    {
      hide TrimSpace, ToLower;
      out := [];
      var seen: set<string> := {};
      for i := 0 to |values|
        invariant forall v :: v in out <==> IsFirstSpelling(values[..i], v)
        invariant forall k :: k in seen <==> exists j :: 0 <= j < i && TrimSpace(values[j]) != "" && k == ToLower(TrimSpace(values[j]))
      {
        var value := TrimSpace(values[i]);
        FirstSpellingNext(values, i);
        if value == "" {
          continue;
        }
        if ToLower(value) in seen {
          continue;
        }
        seen := seen + {ToLower(value)};
        out := out + [value];
      }
      assert values[..|values|] == values;
    }

    method GlobalIdsOf(r: Service, profiles: Profiles) returns (ids: seq<string>)
      ensures forall id :: id in ids <==> id in GlobalIds(r.provider, profiles)
    {
      hide TrimSpace, ToLower;
      ids := UniqueNonEmpty([r.provider.globalMetaId, profiles(r.provider)]);
      TwoSpellings(r.provider.globalMetaId, profiles(r.provider));
    }

    method DeleteGlobalKeys(p: Service, profiles: Profiles)
      modifies `globals
      ensures globals == old(globals) - GlobalKeys(p, profiles)
    {
      var ids := GlobalIdsOf(p, profiles);
      hide GlobalIds;
      for i := 0 to |ids|
        invariant globals == old(globals) - (set j | 0 <= j < i :: ByGlobal(ids[j], p.updatedAt, p.chain, p.source))
                                          - (set j | 0 <= j < i :: ByGlobalChain(ids[j], p.chain, p.updatedAt, p.source))
      {
        globals := globals - {ByGlobal(ids[i], p.updatedAt, p.chain, p.source)};
        globals := globals - {ByGlobalChain(ids[i], p.chain, p.updatedAt, p.source)};
      }
      KeysListed(p, profiles, ids);
    }

    method WriteGlobalKeys(r: Service, profiles: Profiles)
      modifies `globals
      ensures globals == old(globals) + GlobalKeys(r, profiles)
    {
      var ids := GlobalIdsOf(r, profiles);
      hide GlobalIds;
      for i := 0 to |ids|
        invariant globals == old(globals) + (set j | 0 <= j < i :: ByGlobal(ids[j], r.updatedAt, r.chain, r.source))
                                          + (set j | 0 <= j < i :: ByGlobalChain(ids[j], r.chain, r.updatedAt, r.source))
      {
        globals := globals + {ByGlobal(ids[i], r.updatedAt, r.chain, r.source)};
        globals := globals + {ByGlobalChain(ids[i], r.chain, r.updatedAt, r.source)};
      }
      KeysListed(r, profiles, ids);
    }

    /** Tears down the stale index keys, writes the record, writes its index keys. */
    method SaveService(r: Service, previous: Option<Service>, profiles: Profiles)
      modifies this
      ensures View() == Save(old(View()), r, previous)
      ensures globals == SaveGlobals(old(globals), r, previous, profiles)
    {
      hide GlobalKeys;
      if previous.Some? {
        DeleteStaleKeys(r, previous.value);
        DeleteGlobalKeys(previous.value, profiles);
      }
      services := services[Key(r.chain, r.source) := r];
      WriteIndexKeys(r);
      WriteGlobalKeys(r, profiles);
    }

    method MapPinToSource(chain: string, pin: string, source: string)
      modifies `sources
      ensures sources == MapPin(old(sources), chain, pin, source)
    {
      if chain == "" || pin == "" || source == "" || pin == source {
        return;
      }
      sources := sources[Key(chain, pin) := source];
    }

    method ProcessServiceCreate(pin: Pin, profiles: Profiles)
      modifies this
      ensures View() == ProcessCreate(old(View()), pin)
      ensures globals == GlobalsAfterCreate(old(View()), old(globals), pin, profiles)
    {
      var summary := ServiceSummary(pin);
      if summary.None? {
        return;
      }
      if Key(pin.chainName, pin.id) in services {
        return;
      }
      SaveService(NewService(pin, summary.value, pin.id), None, profiles);
    }

    method ProcessServiceModify(pin: Pin, profiles: Profiles)
      modifies this
      ensures View() == ProcessModify(old(View()), pin)
      ensures globals == GlobalsAfterModify(old(View()), old(globals), pin, profiles)
    {
      var target := Target(pin);
      if target.None? {
        return;
      }
      var previous := LoadServiceByAnyPinId(pin.chainName, target.value);
      if previous.None? || target.value != previous.value.current {
        return;
      }
      var summary := ServiceSummary(pin);
      if summary.None? {
        return;
      }
      SaveService(Modified(previous.value, pin, summary.value), previous, profiles);
      MapPinToSource(pin.chainName, pin.id, previous.value.source);
    }

    method ProcessServiceRevoke(pin: Pin, profiles: Profiles)
      modifies this
      ensures View() == ProcessRevoke(old(View()), pin)
      ensures globals == GlobalsAfterRevoke(old(View()), old(globals), pin, profiles)
    {
      var target := Target(pin);
      if target.None? {
        return;
      }
      var previous := LoadServiceByAnyPinId(pin.chainName, target.value);
      if previous.None? || target.value != previous.value.current {
        return;
      }
      SaveService(Revoked(previous.value, pin), previous, profiles);
      MapPinToSource(pin.chainName, pin.id, previous.value.source);
    }

    method ProcessServicePin(pin: Pin, profiles: Profiles)
      modifies this
      ensures View() == ProcessService(old(View()), pin)
      ensures globals == GlobalsAfterService(old(View()), old(globals), pin, profiles)
    {
      if pin.chainName == "" || pin.id == "" {
        return;
      }
      var operation := Operation(pin);
      if operation == CREATE {
        ProcessServiceCreate(pin, profiles);
      } else if operation == MODIFY {
        ProcessServiceModify(pin, profiles);
      } else if operation == REVOKE {
        ProcessServiceRevoke(pin, profiles);
      }
    }

    method BumpRatingAggregate(chain: string, source: string, rate: int)
      modifies `aggregates
      ensures aggregates == Bump(old(aggregates), chain, source, rate)
    {
      var k := Key(chain, source);
      var agg := if k in aggregates then aggregates[k] else Aggregate(chain, source, 0, 0);
      agg := agg.(sum := agg.sum + rate);
      agg := agg.(count := agg.count + 1);
      aggregates := aggregates[k := agg];
    }

    method ProcessRatingPin(pin: Pin)
      modifies this
      ensures View() == ProcessRating(old(View()), pin) && globals == old(globals)
    {
      if pin.id == "" || pin.chainName == "" {
        return;
      }
      var summary := RateSummary(pin);
      if summary.None? || Key(pin.chainName, pin.id) in ratings {
        return;
      }
      var source := "";
      var rec := LoadServiceByAnyPinId(pin.chainName, summary.value.serviceId);
      if rec.Some? {
        source := rec.value.source;
        if rec.value.chain != "" && rec.value.chain != pin.chainName {
          source := "";
        }
      }
      ratings := ratings[Key(pin.chainName, pin.id) := NewRating(pin, summary.value, source)];
      if source == "" {
        return;
      }
      BumpRatingAggregate(pin.chainName, source, summary.value.rate);
    }

    method ProcessPin(pin: Pin, profiles: Profiles)
      modifies this
      ensures View() == Process(old(View()), pin)
      ensures globals == GlobalsAfter(old(View()), old(globals), pin, profiles)
    {
      if pin.path == "" {
        return;
      }
      var base := ProtocolPath(pin.path);
      var operation := Operation(pin);
      if base == PATH_SERVICE {
        ProcessServicePin(pin, profiles);
      } else if base == PATH_RATE {
        ProcessRatingPin(pin);
      } else if operation == MODIFY || operation == REVOKE {
        var target := TargetFromPath(pin.path);
        if target == "" || pin.chainName == "" {
          return;
        }
        var rec := LoadServiceByAnyPinId(pin.chainName, target);
        if rec.Some? {
          ProcessServicePin(pin, profiles);
        }
      }
    }
  }

  /** `v` is the first spelling of an identity in the list. */
  ghost predicate IsFirstSpelling(values: seq<string>, v: string)
  {
    exists i :: 0 <= i < |values| && v == TrimSpace(values[i]) && v != ""
                && forall j :: 0 <= j < i && TrimSpace(values[j]) != "" ==> ToLower(TrimSpace(values[j])) != ToLower(v)
  }

  lemma FirstSpellingNext(values: seq<string>, i: nat)
    requires i < |values|
    ensures forall v :: IsFirstSpelling(values[..i + 1], v) <==>
                        IsFirstSpelling(values[..i], v)
                        || (v == TrimSpace(values[i]) && v != ""
                            && forall j :: 0 <= j < i && TrimSpace(values[j]) != "" ==> ToLower(TrimSpace(values[j])) != ToLower(v))
  {
    hide TrimSpace, ToLower;
    var fewer, more := values[..i], values[..i + 1];
    assert forall j :: 0 <= j < i ==> more[j] == fewer[j] == values[j];
    assert more[i] == values[i];
    forall v | IsFirstSpelling(fewer, v)
      ensures IsFirstSpelling(more, v)
    {
      var h :| 0 <= h < |fewer| && v == TrimSpace(fewer[h]) && v != ""
               && forall j :: 0 <= j < h && TrimSpace(fewer[j]) != "" ==> ToLower(TrimSpace(fewer[j])) != ToLower(v);
      assert v == TrimSpace(more[h]);
    }
  }

  lemma TwoSpellings(a: string, b: string)
    ensures forall v :: IsFirstSpelling([a, b], v) <==>
                        v != "" && (v == TrimSpace(a)
                                    || (v == TrimSpace(b) && (TrimSpace(a) == "" || ToLower(TrimSpace(a)) != ToLower(v))))
  {
    hide TrimSpace, ToLower;
    var values := [a, b];
    assert values[0] == a && values[1] == b;
  }

  lemma KeysListed(r: Service, profiles: Profiles, ids: seq<string>)
    requires forall id :: id in ids <==> id in GlobalIds(r.provider, profiles)
    ensures GlobalKeys(r, profiles) == (set j | 0 <= j < |ids| :: ByGlobal(ids[j], r.updatedAt, r.chain, r.source))
                                       + (set j | 0 <= j < |ids| :: ByGlobalChain(ids[j], r.chain, r.updatedAt, r.source))
  {
    hide GlobalIds;
    forall id | id in GlobalIds(r.provider, profiles)
      ensures exists j :: 0 <= j < |ids| && ids[j] == id
    {
      assert id in ids;
    }
    forall j | 0 <= j < |ids|
      ensures ids[j] in GlobalIds(r.provider, profiles)
    {
      assert ids[j] in ids;
    }
  }
}
