/** The published-content aggregator over its store, each method proved against the fold. */
module PublishedAggregator {
  import opened Wrappers
  import opened GoStrings
  import opened KeyEncoding
  import opened PublishedContent

  class Aggregator {
    var records: map<RecordKey, Record>
    var sources: map<PinKey, string>
    var index: set<string>

    ghost function View(): State
      reads this
    {
      State(records, sources, index)
    }

    constructor ()
      ensures View() == EMPTY
    {
      records, sources, index := map[], map[], {};
    }

    /** The lookup loop with its cycle guard and its cap. */
    method SourcePinIdFor(chain: string, pin: string) returns (source: string)
      ensures source == SourceOf(sources, chain, pin)
      ensures chain == "" || pin == "" ==> source == ""
    {
      if chain == "" || pin == "" {
        return "";
      }
      var seen: set<string>, current := {}, pin;
      for i := 0 to MAX_LOOKUPS
        invariant SourceOf(sources, chain, pin) == SourceFrom(sources, chain, current, seen, MAX_LOOKUPS - i)
      {
        if current in seen {
          return "";
        }
        seen := seen + {current};
        if PinKey(chain, current) !in sources {
          return current;
        }
        var next := TrimSpace(sources[PinKey(chain, current)]);
        if next == "" || next == current {
          return current;
        }
        current := next;
      }
      source := "";
    }

    method LoadRecord(chain: string, protocol: string, source: string) returns (r: Option<Record>)
      ensures r == Load(View(), chain, protocol, source)
    {
      var k := RecordKey(chain, protocol, source);
      r := if k in records then Some(records[k]) else None;
    }

    method LoadRecordByAnyPinId(chain: string, protocol: string, pin: string) returns (r: Option<Record>)
      ensures r == LoadByAnyPin(View(), chain, protocol, pin)
    {
      var source := SourcePinIdFor(chain, pin);
      if source == "" {
        return None;
      }
      r := LoadRecord(chain, protocol, source);
    }

    method MapPinToSource(chain: string, pin: string, source: string)
      modifies `sources
      ensures sources == MapPin(old(sources), chain, pin, source)
    {
      if chain == "" || pin == "" || source == "" {
        return;
      }
      sources := sources[PinKey(chain, pin) := source];
    }

    method DeleteIdentityIndexes(r: Record)
      modifies `index
      ensures index == old(index) - IdentityKeys(r)
    {
      if r.publisher.globalMetaId != "" {
        index := index - {RecordIndexKey(ByGlobal, r)};
      }
      if r.publisher.metaId != "" {
        index := index - {RecordIndexKey(ByMetaId, r)};
      }
      if r.publisher.address != "" {
        index := index - {RecordIndexKey(ByAddress, r)};
      }
    }

    method WriteIdentityIndexes(r: Record)
      modifies `index
      ensures index == old(index) + IdentityKeys(r)
    {
      if r.publisher.globalMetaId != "" {
        index := index + {RecordIndexKey(ByGlobal, r)};
      }
      if r.publisher.metaId != "" {
        index := index + {RecordIndexKey(ByMetaId, r)};
      }
      if r.publisher.address != "" {
        index := index + {RecordIndexKey(ByAddress, r)};
      }
    }

    method SaveRecord(r: Record, previous: Option<Record>) returns (ok: bool)
      modifies this
      ensures ok == Saveable(r)
      ensures View() == SaveOrFail(old(View()), r, previous)
    {
      if r.chainName == "" || r.protocolPath == "" || r.sourcePinId == "" {
        return false;
      }
      if previous.Some? {
        DeleteIdentityIndexes(previous.value);
      }
      records := records[KeyOf(r) := r];
      MapPinToSource(r.chainName, r.currentPinId, r.sourcePinId);
      WriteIdentityIndexes(r);
      ok := true;
    }

    method ProcessCreatePin(pin: Pin, protocol: string, isMempool: bool)
      modifies this
      ensures View() == ProcessCreate(old(View()), pin, protocol, isMempool)
    {
      var existing := LoadRecord(pin.chainName, protocol, pin.id);
      var rec := NewRecord(pin, protocol, pin.id, isMempool);
      if existing.Some? {
        if !isMempool && existing.value.isMempool {
          rec := MergePending(existing.value, rec, pin.id);
          var _ := SaveRecord(rec, existing);
        }
        return;
      }
      var _ := SaveRecord(rec, None);
    }

    /** The shared course of modify and revoke: resolve the target, build the next version, save and map it. */
    method ProcessVersionPin(pin: Pin, protocol: string, isMempool: bool)
      modifies this
      ensures View() == ProcessVersion(old(View()), pin, protocol, isMempool)
    {
      var target := TargetPinId(pin);
      if target == "" {
        return;
      }
      var previous := LoadRecordByAnyPinId(pin.chainName, protocol, target);
      if previous.None? {
        return;
      }
      var updated := NextVersion(previous.value, pin, protocol, isMempool);
      var ok := SaveRecord(updated, previous);
      if ok {
        MapPinToSource(pin.chainName, pin.id, previous.value.sourcePinId);
      }
    }

    method ProcessPin(pin: Pin, isMempool: bool)
      modifies this
      ensures View() == Process(old(View()), pin, isMempool)
    {
      if pin.id == "" || pin.chainName == "" {
        return;
      }
      var protocol := ProtocolPath(pin.path);
      if !IsPublishedProtocol(protocol) {
        return;
      }
      var operation := Operation(pin);
      if operation == CREATE {
        ProcessCreatePin(pin, protocol, isMempool);
      } else if operation == MODIFY || operation == REVOKE {
        ProcessVersionPin(pin, protocol, isMempool);
      }
    }
  }
}
