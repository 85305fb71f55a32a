/** What every delivery of a published-content pin keeps: lineage of pins, exact indexes, terminal revokes. */
module PublishedInvariants {
  import opened Wrappers
  import opened GoStrings
  import opened KeyEncoding
  import opened PublishedContent

  // ---- Hypotheses on the pins ----

  /** What a pin id stands for on its chain: a create pin, or a version pin with its target. */
  datatype Catalogue = Catalogue(creates: set<PinKey>, targets: map<PinKey, string>)

  /** The pin writes chain, id and identities in their stored form, and its id names one pin. */
  ghost predicate WellNamed(pin: Pin, cat: Catalogue)
  {
    var p := PinKey(pin.chainName, pin.id);
    && TrimSpace(pin.id) == pin.id
    && ToLower(TrimSpace(pin.chainName)) == pin.chainName && Plain(pin.chainName)
    && PlainPublisher(PublisherOf(pin))
    && (Operation(pin) == CREATE <==> p in cat.creates)
    && (Operation(pin) != CREATE ==> p in cat.targets && cat.targets[p] == TargetPinId(pin))
  }

  predicate PlainPublisher(p: Publisher) { Plain(p.globalMetaId) && Plain(p.metaId) && Plain(p.address) }

  datatype Delivery = Delivery(pin: Pin, isMempool: bool)

  function Run(s: State, deliveries: seq<Delivery>): State
  {
    if deliveries == [] then s
    else
      var n := |deliveries| - 1;
      Process(Run(s, deliveries[..n]), deliveries[n].pin, deliveries[n].isMempool)
  }

  // ---- The invariant ----

  ghost predicate HasRecord(s: State, chain: string, source: string)
  {
    || RecordKey(chain, PATH_SIMPLE_BUZZ, source) in s.records
    || RecordKey(chain, PATH_META_APP, source) in s.records
    || RecordKey(chain, PATH_METABOT_SKILL, source) in s.records
  }

  ghost predicate Mapped(s: State, chain: string, pin: string, source: string)
  {
    PinKey(chain, pin) in s.sources && s.sources[PinKey(chain, pin)] == source
  }

  ghost predicate GoodRecord(s: State, k: RecordKey, r: Record, cat: Catalogue)
  {
    && KeyOf(r) == k && k.chain != "" && k.source != "" && IsPublishedProtocol(k.protocol)
    && Plain(k.chain) && PlainPublisher(r.publisher)
    && PinKey(k.chain, k.source) in cat.creates
    && Mapped(s, k.chain, k.source, k.source)
    && r.currentPinId != "" && Mapped(s, k.chain, r.currentPinId, k.source)
    && (r.hidden <==> r.operation == REVOKE)
    && (r.currentPinId == k.source ==> r.operation == CREATE)
  }

  /** The source of a mapped pin is self-mapped and has a record; a create pin is its own source,
      a version pin has the source of its target. */
  ghost predicate GoodMapping(s: State, p: PinKey, cat: Catalogue)
    requires p in s.sources
  {
    var t := s.sources[p];
    && p.chain != "" && p.pin != "" && t != "" && TrimSpace(t) == t
    && Mapped(s, p.chain, t, t) && HasRecord(s, p.chain, t)
    && PinKey(p.chain, t) in cat.creates && (p in cat.creates ==> t == p.pin)
    && (p !in cat.creates ==> p in cat.targets && Mapped(s, p.chain, cat.targets[p], t))
  }

  ghost function IndexImage(records: map<RecordKey, Record>): set<string>
  {
    set k, key | k in records && key in IdentityKeys(records[k]) :: key
  }

  ghost predicate Lineage(s: State, cat: Catalogue)
  {
    && (forall k :: k in s.records ==> GoodRecord(s, k, s.records[k], cat))
    && (forall p :: p in s.sources ==> GoodMapping(s, p, cat))
  }

  ghost predicate Inv(s: State, cat: Catalogue)
  {
    Lineage(s, cat) && s.index == IndexImage(s.records)
  }

  // ---- Lookups ----

  /** The source of any pin is found within two lookups: the cycle guard and the cap never act. */
  lemma {:induction false} LookupResolves(s: State, cat: Catalogue, chain: string, pin: string, steps: nat)
    requires Lineage(s, cat) && chain != "" && pin != "" && steps >= 2
    ensures SourceFrom(s.sources, chain, pin, {}, steps) ==
            if PinKey(chain, pin) in s.sources then s.sources[PinKey(chain, pin)] else pin
  {
    if PinKey(chain, pin) in s.sources {
      assert GoodMapping(s, PinKey(chain, pin), cat);
      var t := s.sources[PinKey(chain, pin)];
      assert GoodMapping(s, PinKey(chain, t), cat);
      if t != pin {
        assert SourceFrom(s.sources, chain, t, {pin}, steps - 1) == t;
      }
    }
  }

  lemma SourceResolves(s: State, cat: Catalogue, chain: string, pin: string)
    requires Lineage(s, cat) && chain != "" && pin != ""
    ensures SourceOf(s.sources, chain, pin) ==
            if PinKey(chain, pin) in s.sources then s.sources[PinKey(chain, pin)] else pin
  {
    LookupResolves(s, cat, chain, pin, MAX_LOOKUPS);
  }

  // ---- Distinct records have distinct index keys ----

  predicate PlainRecord(r: Record)
  {
    Plain(r.chainName) && IsPublishedProtocol(r.protocolPath) && PlainPublisher(r.publisher)
  }

  lemma ProtocolsPlain(protocol: string)
    requires IsPublishedProtocol(protocol)
    ensures Plain(protocol)
  {}

  /** An index key determines its index, its record and the record's sort timestamp. */
  lemma IndexKeyInjective(k: Kind, r: Record, k': Kind, r': Record)
    requires PlainRecord(r) && PlainRecord(r')
    requires RecordIndexKey(k, r) == RecordIndexKey(k', r')
    ensures k == k' && KeyOf(r) == KeyOf(r') && Identity(k, r) == Identity(k', r')
    ensures SortTimestamp(r) == SortTimestamp(r')
  {
    hide IndexPrefix, KeyTail, IndexKey;
    ProtocolsPlain(r.protocolPath);
    ProtocolsPlain(r'.protocolPath);
    var i, i' := Identity(k, r), Identity(k', r');
    KeyIsPrefixAndTail(k, r.protocolPath, i, SortTimestamp(r), r.chainName, r.sourcePinId);
    KeyIsPrefixAndTail(k', r'.protocolPath, i', SortTimestamp(r'), r'.chainName, r'.sourcePinId);
    var t := KeyTail(SortTimestamp(r), r.chainName, r.sourcePinId);
    var t' := KeyTail(SortTimestamp(r'), r'.chainName, r'.sourcePinId);
    PrefixParts(k, r.protocolPath, i, k', r'.protocolPath, i', t, t');
    TailInjective(SortTimestamp(r), r.chainName, r.sourcePinId, SortTimestamp(r'), r'.chainName, r'.sourcePinId);
  }

  lemma KeysDisjoint(r: Record, r': Record)
    requires PlainRecord(r) && PlainRecord(r') && KeyOf(r) != KeyOf(r')
    ensures IdentityKeys(r) !! IdentityKeys(r')
  {
    hide RecordIndexKey;
    forall key | key in IdentityKeys(r) && key in IdentityKeys(r')
      ensures false
    {
      var k: Kind :| key == RecordIndexKey(k, r);
      var k': Kind :| key == RecordIndexKey(k', r');
      IndexKeyInjective(k, r, k', r');
    }
  }

  // ---- Saving keeps the invariant ----

  /** Rewriting one record moves its index keys and no others. */
  lemma SaveKeepsIndex(s: State, r: Record, previous: Option<Record>)
    requires s.index == IndexImage(s.records)
    requires PlainRecord(r) && (forall k :: k in s.records ==> PlainRecord(s.records[k]) && KeyOf(s.records[k]) == k)
    requires previous == (if KeyOf(r) in s.records then Some(s.records[KeyOf(r)]) else None)
    ensures Save(s, r, previous).index == IndexImage(Save(s, r, previous).records)
  {
    hide IdentityKeys, PlainRecord;
    var s' := Save(s, r, previous);
    forall key
      ensures key in s'.index <==> key in IndexImage(s'.records)
    {
      if key in s'.index {
        if key in IdentityKeys(r) {
          assert s'.records[KeyOf(r)] == r;
        } else {
          var k :| k in s.records && key in IdentityKeys(s.records[k]);
          assert k != KeyOf(r);
          assert s'.records[k] == s.records[k];
        }
      }
      if key in IndexImage(s'.records) {
        var k :| k in s'.records && key in IdentityKeys(s'.records[k]);
        if k != KeyOf(r) {
          assert key in IndexImage(s.records);
          if previous.Some? {
            KeysDisjoint(s.records[k], previous.value);
          }
        }
      }
    }
  }

  /** A delivery that maps `x` to the source of the record it writes, consistently with what is stored. */
  ghost predicate Extends(s: State, s': State, r: Record, x: string, cat: Catalogue)
  {
    var p := PinKey(r.chainName, x);
    && s'.records == s.records[KeyOf(r) := r] && s'.sources == s.sources[p := r.sourcePinId]
    && x != "" && TrimSpace(r.sourcePinId) == r.sourcePinId
    && GoodRecord(s', KeyOf(r), r, cat)
    && (p in cat.creates ==> x == r.sourcePinId)
    && (p !in cat.creates ==> p in cat.targets && Mapped(s, r.chainName, cat.targets[p], r.sourcePinId))
  }

  ghost predicate SourcesKept(s: State, s': State)
  {
    forall p :: p in s.sources ==> p in s'.sources && s'.sources[p] == s.sources[p]
  }

  /** No stored mapping ever changes. */
  lemma ExtendKeepsSources(s: State, s': State, r: Record, x: string, cat: Catalogue)
    requires Lineage(s, cat) && Extends(s, s', r, x, cat)
    ensures SourcesKept(s, s')
  {
    hide TrimSpace, IsPublishedProtocol, Plain;
    var p := PinKey(r.chainName, x);
    if p in s.sources {
      assert GoodMapping(s, p, cat);
    }
  }

  lemma ExtendKeepsRecords(s: State, s': State, r: Record, x: string, cat: Catalogue)
    requires Lineage(s, cat) && Extends(s, s', r, x, cat)
    ensures forall k :: k in s'.records ==> GoodRecord(s', k, s'.records[k], cat)
  {
    hide TrimSpace, IsPublishedProtocol, Plain;
    ExtendKeepsSources(s, s', r, x, cat);
    forall k | k in s'.records
      ensures GoodRecord(s', k, s'.records[k], cat)
    {
      if k != KeyOf(r) {
        assert GoodRecord(s, k, s.records[k], cat);
      }
    }
  }

  lemma ExtendKeepsMapping(s: State, s': State, r: Record, x: string, cat: Catalogue, q: PinKey)
    requires Lineage(s, cat) && Extends(s, s', r, x, cat) && q in s'.sources
    ensures GoodMapping(s', q, cat)
  {
    hide TrimSpace, IsPublishedProtocol, Plain;
    ExtendKeepsSources(s, s', r, x, cat);
    ExtendedRecord(s, s', r, x, cat);
    NewMapping(s', r, cat);
    if q in s.sources {
      assert GoodMapping(s, q, cat);
    }
  }

  lemma ExtendedRecord(s: State, s': State, r: Record, x: string, cat: Catalogue)
    requires Lineage(s, cat) && Extends(s, s', r, x, cat)
    ensures KeyOf(r) in s'.records && GoodRecord(s', KeyOf(r), r, cat)
  {
    hide TrimSpace, IsPublishedProtocol, Plain;
    ExtendKeepsRecords(s, s', r, x, cat);
  }

  lemma ExtendKeepsLineage(s: State, s': State, r: Record, x: string, cat: Catalogue)
    requires Lineage(s, cat) && Extends(s, s', r, x, cat)
    ensures Lineage(s', cat)
  {
    hide TrimSpace, IsPublishedProtocol, Plain, GoodRecord, GoodMapping, Extends;
    ExtendKeepsRecords(s, s', r, x, cat);
    forall q | q in s'.sources
      ensures GoodMapping(s', q, cat)
    {
      ExtendKeepsMapping(s, s', r, x, cat, q);
    }
  }

  lemma NewMapping(s': State, r: Record, cat: Catalogue)
    requires KeyOf(r) in s'.records && GoodRecord(s', KeyOf(r), r, cat)
    ensures HasRecord(s', r.chainName, r.sourcePinId)
  {
    assert IsPublishedProtocol(r.protocolPath);
  }

  // ---- Every delivery keeps the invariant ----

  lemma PlainStored(s: State, cat: Catalogue)
    requires Lineage(s, cat)
    ensures forall k :: k in s.records ==> PlainRecord(s.records[k]) && KeyOf(s.records[k]) == k
  {
    forall k | k in s.records
      ensures PlainRecord(s.records[k]) && KeyOf(s.records[k]) == k
    {
      assert GoodRecord(s, k, s.records[k], cat);
    }
  }

  /** Saving a record whose pins are mapped, or about to be, to its own source. */
  lemma SavedIsExtension(s: State, s': State, r: Record, x: string, cat: Catalogue)
    requires Lineage(s, cat)
    requires s'.records == s.records[KeyOf(r) := r]
    requires s'.sources == s.sources[PinKey(r.chainName, x) := r.sourcePinId]
    requires r.chainName != "" && r.sourcePinId != "" && TrimSpace(r.sourcePinId) == r.sourcePinId && x != ""
    requires IsPublishedProtocol(r.protocolPath) && Plain(r.chainName) && PlainPublisher(r.publisher)
    requires PinKey(r.chainName, r.sourcePinId) in cat.creates
    requires r.hidden <==> r.operation == REVOKE
    requires r.currentPinId == r.sourcePinId ==> r.operation == CREATE
    requires r.currentPinId == x || (r.currentPinId != "" && Mapped(s, r.chainName, r.currentPinId, r.sourcePinId))
    requires x == r.sourcePinId || Mapped(s, r.chainName, r.sourcePinId, r.sourcePinId)
    requires var p := PinKey(r.chainName, x);
             if p in cat.creates then x == r.sourcePinId
             else p in cat.targets && Mapped(s, r.chainName, cat.targets[p], r.sourcePinId)
    ensures Extends(s, s', r, x, cat)
  {
    hide TrimSpace, Plain, IsPublishedProtocol, Lineage;
  }

  lemma CreateKeeps(s: State, pin: Pin, protocol: string, isMempool: bool, cat: Catalogue)
    requires Inv(s, cat) && WellNamed(pin, cat) && Operation(pin) == CREATE
    requires pin.id != "" && pin.chainName != "" && IsPublishedProtocol(protocol)
    ensures Inv(ProcessCreate(s, pin, protocol, isMempool), cat)
    ensures SourcesKept(s, ProcessCreate(s, pin, protocol, isMempool))
  {
    hide TrimSpace, ToLower, Operation, PublisherOf, PayloadOf, IdentityKeys, Plain, IsPublishedProtocol, MergePending,
         NewRecord;
    var s' := ProcessCreate(s, pin, protocol, isMempool);
    var existing := Load(s, pin.chainName, protocol, pin.id);
    var newest := NewRecord(pin, protocol, pin.id, isMempool);
    if existing.None? || (!isMempool && existing.value.isMempool) {
      if existing.Some? {
        assert GoodRecord(s, RecordKey(pin.chainName, protocol, pin.id), existing.value, cat);
        assert GoodMapping(s, PinKey(pin.chainName, existing.value.currentPinId), cat);
      }
      var r := if existing.Some? then MergePending(existing.value, newest, pin.id) else newest;
      ProtocolNotEmpty(protocol);
      CreatedShape(pin, protocol, isMempool, existing, r);
      assert s' == Save(s, r, existing);
      SavedIsExtension(s, s', r, r.currentPinId, cat);
      ExtendKeepsLineage(s, s', r, r.currentPinId, cat);
      ExtendKeepsSources(s, s', r, r.currentPinId, cat);
      PlainStored(s, cat);
      SaveKeepsIndex(s, r, existing);
    }
  }

  lemma CreatedShape(pin: Pin, protocol: string, isMempool: bool, existing: Option<Record>, r: Record)
    requires Operation(pin) == CREATE
    requires existing.Some? ==> existing.value.sourcePinId == pin.id
    requires existing.Some? ==> (existing.value.hidden <==> existing.value.operation == REVOKE)
    requires existing.Some? ==> existing.value.isMempool && !isMempool
    requires var newest := NewRecord(pin, protocol, pin.id, isMempool);
             r == if existing.Some? then MergePending(existing.value, newest, pin.id) else newest
    ensures r.chainName == ToLower(TrimSpace(pin.chainName)) && r.protocolPath == protocol && r.sourcePinId == pin.id
    ensures r.publisher == PublisherOf(pin) && (r.hidden <==> r.operation == REVOKE)
    ensures if existing.Some? && existing.value.currentPinId != "" && existing.value.currentPinId != pin.id
            then r.currentPinId == existing.value.currentPinId && r.operation == existing.value.operation
            else r.currentPinId == pin.id && r.operation == CREATE
  {
    hide TrimSpace, ToLower, PublisherOf, PayloadOf;
  }

  /** The next version keeps the key of the record and the names in their stored form. */
  lemma NextVersionShape(previous: Record, pin: Pin, protocol: string, isMempool: bool)
    requires PlainPublisher(previous.publisher) && PlainPublisher(PublisherOf(pin))
    requires previous.protocolPath == protocol && previous.chainName == ToLower(TrimSpace(pin.chainName))
    requires previous.hidden <==> previous.operation == REVOKE
    requires Operation(pin) == MODIFY || Operation(pin) == REVOKE
    ensures var r := NextVersion(previous, pin, protocol, isMempool);
            && KeyOf(r) == KeyOf(previous) && PlainPublisher(r.publisher)
            && (r.hidden <==> r.operation == REVOKE)
            && (r.currentPinId == pin.id || r.currentPinId == previous.currentPinId != previous.sourcePinId)
            && (r.currentPinId != pin.id ==> r.operation == previous.operation)
            && (previous.operation == REVOKE ==> r.operation == REVOKE)
  {
    hide TrimSpace, ToLower, Operation, PublisherOf, PayloadOf, Plain;
  }

  lemma VersionKeeps(s: State, pin: Pin, protocol: string, isMempool: bool, cat: Catalogue)
    requires Inv(s, cat) && WellNamed(pin, cat) && (Operation(pin) == MODIFY || Operation(pin) == REVOKE)
    requires pin.id != "" && pin.chainName != "" && IsPublishedProtocol(protocol)
    ensures Inv(ProcessVersion(s, pin, protocol, isMempool), cat)
    ensures SourcesKept(s, ProcessVersion(s, pin, protocol, isMempool))
  {
    hide TrimSpace, ToLower, Operation, PublisherOf, NextVersion, IdentityKeys, Plain, IsPublishedProtocol, TargetPinId;
    var s' := ProcessVersion(s, pin, protocol, isMempool);
    var target := TargetPinId(pin);
    if target != "" && LoadByAnyPin(s, pin.chainName, protocol, target).Some? {
      var previous := LoadByAnyPin(s, pin.chainName, protocol, target).value;
      SourceResolves(s, cat, pin.chainName, target);
      var source := SourceOf(s.sources, pin.chainName, target);
      var k := RecordKey(pin.chainName, protocol, source);
      assert GoodRecord(s, k, previous, cat);
      assert GoodMapping(s, PinKey(pin.chainName, source), cat);
      var r := NextVersion(previous, pin, protocol, isMempool);
      NextVersionShape(previous, pin, protocol, isMempool);
      VersionIsExtension(s, s', r, previous, pin, cat);
      ExtendKeepsLineage(s, s', r, pin.id, cat);
      ExtendKeepsSources(s, s', r, pin.id, cat);
      PlainStored(s, cat);
      SaveKeepsIndex(s, r, Some(previous));
    }
  }

  lemma MapTwice(m: map<PinKey, string>, a: PinKey, b: PinKey, v: string)
    requires a == b || (a in m && m[a] == v)
    ensures m[a := v][b := v] == m[b := v]
  {}

  lemma VersionIsExtension(s: State, s': State, r: Record, previous: Record, pin: Pin, cat: Catalogue)
    requires Lineage(s, cat) && GoodRecord(s, KeyOf(previous), previous, cat)
    requires GoodMapping(s, PinKey(previous.chainName, previous.sourcePinId), cat)
    requires KeyOf(r) == KeyOf(previous) && PlainPublisher(r.publisher) && r.chainName == pin.chainName
    requires pin.id != "" && (r.hidden <==> r.operation == REVOKE)
    requires r.currentPinId == pin.id || r.currentPinId == previous.currentPinId != previous.sourcePinId
    requires PinKey(pin.chainName, pin.id) !in cat.creates && PinKey(pin.chainName, pin.id) in cat.targets
    requires Mapped(s, pin.chainName, cat.targets[PinKey(pin.chainName, pin.id)], previous.sourcePinId)
    requires s' == SaveVersion(s, r, previous, pin)
    ensures Extends(s, s', r, pin.id, cat)
    ensures Saveable(r) && s'.index == Save(s, r, Some(previous)).index
  {
    hide IdentityKeys, Plain, TrimSpace, IsPublishedProtocol, Lineage;
    ProtocolNotEmpty(previous.protocolPath);
    MapTwice(s.sources, PinKey(r.chainName, r.currentPinId), PinKey(r.chainName, pin.id), r.sourcePinId);
    SavedIsExtension(s, s', r, pin.id, cat);
  }

  lemma ProtocolNotEmpty(protocol: string)
    requires IsPublishedProtocol(protocol)
    ensures protocol != ""
  {}

  lemma ProcessKeeps(s: State, pin: Pin, isMempool: bool, cat: Catalogue)
    requires Inv(s, cat) && WellNamed(pin, cat)
    ensures Inv(Process(s, pin, isMempool), cat)
    ensures SourcesKept(s, Process(s, pin, isMempool))
  {
    hide ProcessCreate, ProcessVersion, Operation, Inv, WellNamed, IsPublishedProtocol, ProtocolPath;
    var protocol := ProtocolPath(pin.path);
    if pin.id == "" || pin.chainName == "" || !IsPublishedProtocol(protocol) {
    } else if Operation(pin) == CREATE {
      CreateKeeps(s, pin, protocol, isMempool, cat);
    } else if Operation(pin) == MODIFY || Operation(pin) == REVOKE {
      VersionKeeps(s, pin, protocol, isMempool, cat);
    }
  }

  ghost predicate AllWellNamed(deliveries: seq<Delivery>, cat: Catalogue)
  {
    forall i :: 0 <= i < |deliveries| ==> WellNamed(deliveries[i].pin, cat)
  }

  /** Every state reached by any sequence of deliveries has lineage and exact indexes. */
  lemma {:induction false} ReachableStates(deliveries: seq<Delivery>, cat: Catalogue)
    requires AllWellNamed(deliveries, cat)
    ensures Inv(Run(EMPTY, deliveries), cat)
  {
    hide Process, WellNamed;
    if deliveries != [] {
      var n := |deliveries| - 1;
      ReachableStates(deliveries[..n], cat);
      ProcessKeeps(Run(EMPTY, deliveries[..n]), deliveries[n].pin, deliveries[n].isMempool, cat);
    }
  }

  // ---- Consequences ----

  /** Each record with an identity has its key, at its current sort timestamp. */
  ghost predicate NoMissingKey(s: State)
  {
    forall k, kind :: k in s.records && Identity(kind, s.records[k]) != "" ==>
      RecordIndexKey(kind, s.records[k]) in s.index
  }

  /** Each key is that of some record as it is now. */
  ghost predicate NoStaleKey(s: State)
  {
    forall key :: key in s.index ==>
      exists k, kind :: k in s.records && Identity(kind, s.records[k]) != "" && key == RecordIndexKey(kind, s.records[k])
  }

  ghost predicate OneRecordPerKey(s: State)
  {
    forall k, kind, k', kind' ::
      (k in s.records && k' in s.records
       && RecordIndexKey(kind, s.records[k]) == RecordIndexKey(kind', s.records[k']))
      ==> k == k' && kind == kind'
  }

  lemma ImageHasKey(s: State, k: RecordKey, kind: Kind)
    requires k in s.records && Identity(kind, s.records[k]) != ""
    ensures RecordIndexKey(kind, s.records[k]) in IndexImage(s.records)
  {
    hide RecordIndexKey;
    assert RecordIndexKey(kind, s.records[k]) in IdentityKeys(s.records[k]);
  }

  lemma ImageKeyOf(s: State, key: string) returns (k: RecordKey, kind: Kind)
    requires key in IndexImage(s.records)
    ensures k in s.records && Identity(kind, s.records[k]) != "" && key == RecordIndexKey(kind, s.records[k])
  {
    hide RecordIndexKey;
    k :| k in s.records && key in IdentityKeys(s.records[k]);
    kind :| Identity(kind, s.records[k]) != "" && key == RecordIndexKey(kind, s.records[k]);
  }

  lemma ImageIsExact(s: State)
    requires s.index == IndexImage(s.records)
    ensures NoMissingKey(s) && NoStaleKey(s)
  {
    hide RecordIndexKey, Identity, IndexImage;
    forall k, kind | k in s.records && Identity(kind, s.records[k]) != ""
      ensures RecordIndexKey(kind, s.records[k]) in s.index
    {
      ImageHasKey(s, k, kind);
    }
    forall key | key in s.index
      ensures exists k, kind :: k in s.records && Identity(kind, s.records[k]) != ""
                                && key == RecordIndexKey(kind, s.records[k])
    {
      var k, kind := ImageKeyOf(s, key);
    }
  }

  /** In every reachable state each identity index holds one key per record with that identity, and nothing else. */
  lemma IndexExact(deliveries: seq<Delivery>, cat: Catalogue)
    requires AllWellNamed(deliveries, cat)
    ensures var s := Run(EMPTY, deliveries); NoMissingKey(s) && NoStaleKey(s) && OneRecordPerKey(s)
  {
    hide Run, RecordIndexKey, PlainRecord, GoodRecord, NoMissingKey, NoStaleKey;
    var s := Run(EMPTY, deliveries);
    ReachableStates(deliveries, cat);
    ImageIsExact(s);
    PlainStored(s, cat);
    forall k, kind, k', kind' | k in s.records && k' in s.records
      && RecordIndexKey(kind, s.records[k]) == RecordIndexKey(kind', s.records[k'])
      ensures k == k' && kind == kind'
    {
      IndexKeyInjective(kind, s.records[k], kind', s.records[k']);
    }
  }

  /** In every reachable state a lookup finds the source in at most two steps, and that source has a record. */
  lemma LineageResolution(deliveries: seq<Delivery>, cat: Catalogue, chain: string, pin: string, steps: nat)
    requires AllWellNamed(deliveries, cat) && chain != "" && pin != "" && steps >= 2
    ensures var s := Run(EMPTY, deliveries);
            && SourceFrom(s.sources, chain, pin, {}, steps) == SourceOf(s.sources, chain, pin)
            && (PinKey(chain, pin) in s.sources ==>
                  var source := SourceOf(s.sources, chain, pin);
                  source == s.sources[PinKey(chain, pin)] && Mapped(s, chain, source, source)
                  && HasRecord(s, chain, source) && PinKey(chain, source) in cat.creates)
  {
    hide Run;
    var s := Run(EMPTY, deliveries);
    ReachableStates(deliveries, cat);
    LookupResolves(s, cat, chain, pin, steps);
    LookupResolves(s, cat, chain, pin, MAX_LOOKUPS);
    if PinKey(chain, pin) in s.sources {
      assert GoodMapping(s, PinKey(chain, pin), cat);
    }
  }

  /** Once a pin has a source, no later delivery changes it. */
  lemma {:induction false} SourceNeverChanges(before: seq<Delivery>, after: seq<Delivery>, cat: Catalogue)
    requires AllWellNamed(before + after, cat)
    ensures SourcesKept(Run(EMPTY, before), Run(EMPTY, before + after))
    decreases |after|
  {
    hide Process, WellNamed;
    if after == [] {
      assert before + after == before;
    } else {
      var n := |after| - 1;
      var all := before + after[..n];
      assert before + after == all + [after[n]];
      assert (all + [after[n]])[..|all|] == all;
      assert forall i :: 0 <= i < |all| ==> all[i] == (before + after)[i];
      SourceNeverChanges(before, after[..n], cat);
      ReachableStates(all, cat);
      assert after[n] == (before + after)[|all|];
      ProcessKeeps(Run(EMPTY, all), after[n].pin, after[n].isMempool, cat);
    }
  }

  // ---- Revokes ----

  ghost predicate IsRevoked(s: State, k: RecordKey)
  {
    k in s.records && s.records[k].operation == REVOKE && s.records[k].hidden
  }

  lemma CreateKeepsRevoked(s: State, pin: Pin, protocol: string, isMempool: bool, cat: Catalogue, k: RecordKey)
    requires Inv(s, cat) && WellNamed(pin, cat) && IsRevoked(s, k) && Operation(pin) == CREATE
    ensures IsRevoked(ProcessCreate(s, pin, protocol, isMempool), k)
  {
    hide TrimSpace, ToLower, Operation, PublisherOf, IdentityKeys, Plain, IsPublishedProtocol, NewRecord, MergePending,
         MapPin;
    var existing := Load(s, pin.chainName, protocol, pin.id);
    var newest := NewRecord(pin, protocol, pin.id, isMempool);
    if existing.None? {
      CreatedShape(pin, protocol, isMempool, None, newest);
    } else if !isMempool && existing.value.isMempool {
      assert GoodRecord(s, RecordKey(pin.chainName, protocol, pin.id), existing.value, cat);
      CreatedShape(pin, protocol, isMempool, existing, MergePending(existing.value, newest, pin.id));
    }
  }

  lemma VersionKeepsRevoked(s: State, pin: Pin, protocol: string, isMempool: bool, cat: Catalogue, k: RecordKey)
    requires Inv(s, cat) && WellNamed(pin, cat) && IsRevoked(s, k)
    requires Operation(pin) == MODIFY || Operation(pin) == REVOKE
    ensures IsRevoked(ProcessVersion(s, pin, protocol, isMempool), k)
  {
    hide TrimSpace, ToLower, Operation, PublisherOf, IdentityKeys, Plain, IsPublishedProtocol, NextVersion, MapPin,
         TargetPinId, SourceOf;
    if TargetPinId(pin) != "" && LoadByAnyPin(s, pin.chainName, protocol, TargetPinId(pin)).Some? {
      var previous := LoadByAnyPin(s, pin.chainName, protocol, TargetPinId(pin)).value;
      assert GoodRecord(s, RecordKey(pin.chainName, protocol, SourceOf(s.sources, pin.chainName, TargetPinId(pin))),
                        previous, cat);
      NextVersionShape(previous, pin, protocol, isMempool);
    }
  }

  /** A revoked record stays revoked and hidden through any create replay, modify or revoke. */
  lemma RevokeAbsorbing(s: State, pin: Pin, isMempool: bool, cat: Catalogue, k: RecordKey)
    requires Inv(s, cat) && WellNamed(pin, cat) && IsRevoked(s, k)
    ensures IsRevoked(Process(s, pin, isMempool), k)
  {
    hide ProcessCreate, ProcessVersion, Operation, Inv, WellNamed, IsPublishedProtocol, ProtocolPath;
    var protocol := ProtocolPath(pin.path);
    if Operation(pin) == CREATE {
      CreateKeepsRevoked(s, pin, protocol, isMempool, cat, k);
    } else if Operation(pin) == MODIFY || Operation(pin) == REVOKE {
      VersionKeepsRevoked(s, pin, protocol, isMempool, cat, k);
    }
  }

  /** Over any continuation of any run: revoke is terminal, and hidden records are exactly the revoked ones. */
  lemma {:induction false} RevokeIsTerminal(before: seq<Delivery>, after: seq<Delivery>, cat: Catalogue, k: RecordKey)
    requires AllWellNamed(before + after, cat) && IsRevoked(Run(EMPTY, before), k)
    ensures IsRevoked(Run(EMPTY, before + after), k)
    ensures forall l :: l in Run(EMPTY, before + after).records ==>
              (Run(EMPTY, before + after).records[l].hidden
               <==> Run(EMPTY, before + after).records[l].operation == REVOKE)
    decreases |after|
  {
    hide Process, WellNamed;
    if after == [] {
      assert before + after == before;
    } else {
      var n := |after| - 1;
      var all := before + after[..n];
      assert before + after == all + [after[n]];
      assert (all + [after[n]])[..|all|] == all;
      assert forall i :: 0 <= i < |all| ==> all[i] == (before + after)[i];
      RevokeIsTerminal(before, after[..n], cat, k);
      ReachableStates(all, cat);
      assert after[n] == (before + after)[|all|];
      RevokeAbsorbing(Run(EMPTY, all), after[n].pin, after[n].isMempool, cat, k);
    }
    ReachableStates(before + after, cat);
    forall l | l in Run(EMPTY, before + after).records
      ensures Run(EMPTY, before + after).records[l].hidden
         <==> Run(EMPTY, before + after).records[l].operation == REVOKE
    {
      assert GoodRecord(Run(EMPTY, before + after), l, Run(EMPTY, before + after).records[l], cat);
    }
  }

  /** A different pending version is the head of the record. */
  predicate KeepsPendingHead(previous: Record, pin: Pin, isMempool: bool)
  {
    !isMempool && previous.isMempool && previous.currentPinId != "" && previous.currentPinId != previous.sourcePinId
    && previous.currentPinId != pin.id
  }

  /** A revoke that reaches its record hides it exactly when no different pending head is kept,
      or the record was hidden already. */
  lemma RevokeHidesUnlessPendingHead(s: State, pin: Pin, isMempool: bool, cat: Catalogue)
    requires Inv(s, cat) && WellNamed(pin, cat) && Operation(pin) == REVOKE
    requires pin.id != "" && pin.chainName != "" && IsPublishedProtocol(ProtocolPath(pin.path))
    requires TargetPinId(pin) != ""
    requires LoadByAnyPin(s, pin.chainName, ProtocolPath(pin.path), TargetPinId(pin)).Some?
    ensures var previous := LoadByAnyPin(s, pin.chainName, ProtocolPath(pin.path), TargetPinId(pin)).value;
            var s' := Process(s, pin, isMempool);
            KeyOf(previous) in s'.records
            && (s'.records[KeyOf(previous)].hidden <==> !KeepsPendingHead(previous, pin, isMempool) || previous.hidden)
  {
    hide TrimSpace, ToLower, Operation, PublisherOf, ProtocolPath, IdentityKeys, Plain, MapPin, TargetPinId;
    var protocol := ProtocolPath(pin.path);
    var previous := LoadByAnyPin(s, pin.chainName, protocol, TargetPinId(pin)).value;
    assert GoodRecord(s, RecordKey(pin.chainName, protocol, SourceOf(s.sources, pin.chainName, TargetPinId(pin))),
                      previous, cat);
    ProtocolNotEmpty(protocol);
  }
}
