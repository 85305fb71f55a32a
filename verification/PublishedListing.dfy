/** Listing of published content: a scan of one identity index in key order, or of all records with a sort,
    refines "filter, sort, take", and when the order is newest first. */
module PublishedListing {
  import opened Wrappers
  import opened GoStrings
  import opened KeyEncoding
  import opened PublishedContent
  import opened Sorting
  import opened PublishedInvariants
  import opened PublishedAggregator
  import opened PublishedVisibility

  const DEFAULT_SIZE: nat := 20
  const MAX_SIZE: nat := 100

  datatype ListParams = ListParams(protocolPath: string, chainName: string, globalMetaId: string, metaId: string,
                                   address: string, size: int, includeHidden: bool)

  datatype ListResult = ListResult(items: seq<Record>, hasMore: bool)

  datatype ListError = MissingKeyPart

  function Normalise(p: ListParams): (r: ListParams)
    ensures 1 <= r.size <= MAX_SIZE
  {
    ListParams(ProtocolPath(p.protocolPath), ToLower(TrimSpace(p.chainName)), TrimSpace(p.globalMetaId),
               TrimSpace(p.metaId), TrimSpace(p.address),
               if p.size <= 0 then DEFAULT_SIZE else if p.size > MAX_SIZE then MAX_SIZE else p.size, p.includeHidden)
  }

  /** The index a listing scans: the first identity given. */
  function Selected(p: ListParams): Option<(Kind, string)>
  {
    if p.globalMetaId != "" then Some((ByGlobal, p.globalMetaId))
    else if p.metaId != "" then Some((ByMetaId, p.metaId))
    else if p.address != "" then Some((ByAddress, p.address))
    else None
  }

  predicate RecordMatches(r: Record, p: ListParams)
  {
    && (p.protocolPath == "" || r.protocolPath == p.protocolPath)
    && (p.chainName == "" || r.chainName == p.chainName)
    && (p.includeHidden || !r.hidden)
    && (p.globalMetaId == "" || r.publisher.globalMetaId == p.globalMetaId)
    && (p.metaId == "" || r.publisher.metaId == p.metaId)
    && (p.address == "" || r.publisher.address == p.address)
  }

  // ---- Finite sets have minimal elements ----

  lemma {:induction false} MinimalExists<T(!new)>(s: set<T>, before: (T, T) -> bool) returns (m: T)
    requires s != {} && StrictOrder(before)
    ensures m in s && forall x :: x in s ==> !before(x, m)
    decreases s
  {
    m :| m in s;
    var below := set x | x in s && before(x, m);
    if below != {} {
      var m0 := m;
      assert m0 !in below;
      m := MinimalExists(below, before);
      forall x | x in s
        ensures !before(x, m)
      {
        assert before(x, m) ==> before(x, m0) && x in below;
      }
    } else {
      assert forall x :: x in s && before(x, m) ==> x in below;
    }
  }

  // ---- Keys in byte order ----

  predicate IsLeast(k: string, keys: set<string>)
  {
    k in keys && forall x :: x in keys ==> x == k || Less(k, x)
  }

  lemma LeastExists(keys: set<string>) returns (k: string)
    requires keys != {}
    ensures IsLeast(k, keys)
  {
    StringOrder();
    k := MinimalExists(keys, Less);
    forall x | x in keys
      ensures x == k || Less(k, x)
    {
      LessTotal(k, x);
    }
  }

  lemma LeastUnique(k: string, l: string, keys: set<string>)
    requires IsLeast(k, keys) && IsLeast(l, keys)
    ensures k == l
  {
    if k != l {
      LessTransitive(k, l, k);
      LessIrreflexive(k);
    }
  }

  ghost predicate NonEmptyHasLeast(keys: set<string>) { exists k :: IsLeast(k, keys) }

  ghost function SortedKeys(keys: set<string>): seq<string>
    decreases |keys|
  {
    if keys == {} then []
    else
      LeastThere(keys);
      var k :| IsLeast(k, keys);
      [k] + SortedKeys(keys - {k})
  }

  lemma LeastThere(keys: set<string>)
    requires keys != {}
    ensures NonEmptyHasLeast(keys)
  {
    var k := LeastExists(keys);
  }

  lemma SortedKeysStep(keys: set<string>, k: string)
    requires IsLeast(k, keys)
    ensures SortedKeys(keys) == [k] + SortedKeys(keys - {k})
  {
    var l := SortedKeys(keys)[0];
    LeastUnique(k, l, keys);
  }

  ghost predicate Ascending(keys: seq<string>)
  {
    forall i, j :: 0 <= i < j < |keys| ==> Less(keys[i], keys[j])
  }

  lemma {:induction false} SortedKeysFacts(keys: set<string>)
    ensures Ascending(SortedKeys(keys))
    ensures forall k :: k in SortedKeys(keys) <==> k in keys
    decreases |keys|
  {
    hide Less;
    if keys != {} {
      var k := LeastExists(keys);
      SortedKeysStep(keys, k);
      SortedKeysFacts(keys - {k});
      var tail := SortedKeys(keys - {k});
      assert forall j :: 0 <= j < |tail| ==> tail[j] in keys - {k};
    }
  }

  // ---- The scan of an identity index ----

  /** The store visits the keys of a prefix range in byte order. */
  ghost function Range(index: set<string>, prefix: string): set<string>
    requires IsBytes(prefix)
  {
    set key | key in index && InRange(key, prefix)
  }

  /** What the scan makes of one key: an error, nothing, or a record. */
  function Visit(s: State, prefix: string, p: ListParams, key: string): Result<Option<Record>, ListError>
  {
    match ParseTail(TrimPrefix(key, prefix))
    case None => Ok(None)
    case Some((chain, source)) =>
      if p.chainName != "" && chain != p.chainName then Ok(None)
      else if chain == "" || p.protocolPath == "" || source == "" then Err(MissingKeyPart)
      else
        match Load(s, chain, p.protocolPath, source)
        case Some(r) => if RecordMatches(r, p) then Ok(Some(r)) else Ok(None)
        case None => Ok(None)
  }

  /** The scan over `keys` in order, stopping at `limit` records. */
  function ScanKeys(s: State, prefix: string, p: ListParams, keys: seq<string>, limit: nat, found: seq<Record>)
    : Result<seq<Record>, ListError>
  {
    if keys == [] then Ok(found)
    else
      match Visit(s, prefix, p, keys[0])
      case Err(e) => Err(e)
      case Ok(None) => ScanKeys(s, prefix, p, keys[1..], limit, found)
      case Ok(Some(r)) =>
        if |found| + 1 >= limit then Ok(found + [r])
        else ScanKeys(s, prefix, p, keys[1..], limit, found + [r])
  }

  method ScanIdentity(a: Aggregator, prefix: string, p: ListParams, limit: nat)
    returns (r: Result<seq<Record>, ListError>)
    requires IsBytes(prefix)
    ensures r == ScanKeys(a.View(), prefix, p, SortedKeys(Range(a.index, prefix)), limit, [])
  {
    hide Visit, InRange, IsLeast, SortedKeys;
    var upper := PrefixUpperBound(prefix);
    var rest := set key | key in a.index && !Less(key, prefix) && (upper.None? || Less(key, upper.value));
    assert rest == Range(a.index, prefix) by { RangeUnfold(a.index, prefix); }
    var found: seq<Record> := [];
    while rest != {}
      invariant ScanKeys(a.View(), prefix, p, SortedKeys(Range(a.index, prefix)), limit, []) ==
                ScanKeys(a.View(), prefix, p, SortedKeys(rest), limit, found)
      decreases |rest|
    {
      ghost var k := LeastExists(rest);
      var key :| key in rest && IsLeast(key, rest);
      SortedKeysStep(rest, key);
      assert SortedKeys(rest)[0] == key && SortedKeys(rest)[1..] == SortedKeys(rest - {key});
      rest := rest - {key};
      var hit := VisitKey(a, prefix, p, key);
      if hit.Err? {
        return Err(hit.error);
      }
      if hit.value.Some? {
        found := found + [hit.value.value];
        if |found| >= limit {
          return Ok(found);
        }
      }
    }
    SortedKeysEmpty();
    r := Ok(found);
  }

  lemma SortedKeysEmpty()
    ensures SortedKeys({}) == []
  {}

  lemma RangeUnfold(index: set<string>, prefix: string)
    requires IsBytes(prefix)
    ensures Range(index, prefix) == set key | key in index && !Less(key, prefix)
                                      && (UpperBound(prefix).None? || Less(key, UpperBound(prefix).value))
  {}

  method VisitKey(a: Aggregator, prefix: string, p: ListParams, key: string)
    returns (r: Result<Option<Record>, ListError>)
    ensures r == Visit(a.View(), prefix, p, key)
  {
    var parsed := ParseTail(TrimPrefix(key, prefix));
    if parsed.None? {
      return Ok(None);
    }
    var (chain, source) := parsed.value;
    if p.chainName != "" && chain != p.chainName {
      return Ok(None);
    }
    if chain == "" || p.protocolPath == "" || source == "" {
      return Err(MissingKeyPart);
    }
    var rec := a.LoadRecord(chain, p.protocolPath, source);
    if rec.None? || !RecordMatches(rec.value, p) {
      return Ok(None);
    }
    r := Ok(rec);
  }

  // ---- The specification ----

  ghost predicate Stored(s: State, r: Record) { KeyOf(r) in s.records && s.records[KeyOf(r)] == r }

  /** By the bit pattern of the sort timestamp, descending, which puts the newest first among records of one sign and negative
      timestamps before all others; records of one time by "chain:source" in byte order. */
  predicate Before(x: Record, y: Record)
  {
    Uint64(SortTimestamp(x)) > Uint64(SortTimestamp(y))
    || (SortTimestamp(x) == SortTimestamp(y)
        && Less(x.chainName + ":" + x.sourcePinId, y.chainName + ":" + y.sourcePinId))
  }

  /** All stored records that match, in listing order. */
  ghost predicate SortedListing(full: seq<Record>, s: State, p: ListParams)
  {
    && (forall i, j :: 0 <= i < j < |full| ==> Before(full[i], full[j]))
    && (forall r :: r in full <==> Stored(s, r) && RecordMatches(r, p))
  }

  /** A state the invariants allow, with byte-string keys. */
  ghost predicate Listable(s: State)
  {
    && s.index == IndexImage(s.records)
    && (forall k :: k in s.records ==>
          && KeyOf(s.records[k]) == k && PlainRecord(s.records[k]) && k.chain != "" && k.source != "")
    && (forall key :: key in s.index ==> IsBytes(key))
  }

  /** The identity and the protocol asked for contain no colon. */
  ghost predicate PlainParams(p: ListParams)
  {
    Plain(p.protocolPath) && PlainPublisher(Publisher(p.globalMetaId, p.metaId, p.address))
  }

  // ---- The identity scan meets the specification ----

  /** Every key of the scanned range belongs to one record, and the scan makes of it what the filter makes of that record. */
  lemma VisitedKey(s: State, p: ListParams, kind: Kind, identity: string, key: string) returns (r: Record)
    requires Listable(s) && PlainParams(p) && Selected(p) == Some((kind, identity)) && p.protocolPath != ""
    requires IsBytes(IndexPrefix(kind, p.protocolPath, identity))
    requires key in Range(s.index, IndexPrefix(kind, p.protocolPath, identity))
    ensures Stored(s, r) && key == RecordIndexKey(kind, r)
    ensures r.protocolPath == p.protocolPath && Identity(kind, r) == identity
    ensures Visit(s, IndexPrefix(kind, p.protocolPath, identity), p, key) ==
            Ok(if RecordMatches(r, p) then Some(r) else None)
  {
    hide InRange, IndexPrefix, KeyTail, ParseTail, PlainRecord, RecordMatches, IndexKey;
    var prefix := IndexPrefix(kind, p.protocolPath, identity);
    RangeIsPrefix(key, prefix);
    var k :| k in s.records && key in IdentityKeys(s.records[k]);
    r := s.records[k];
    var kind': Kind :| key == RecordIndexKey(kind', r);
    KeyOfRecord(s, p, kind, identity, key, r, kind');
    var tail := KeyTail(SortTimestamp(r), r.chainName, r.sourcePinId);
    KeyIsPrefixAndTail(kind, r.protocolPath, identity, SortTimestamp(r), r.chainName, r.sourcePinId);
    assert key == prefix + tail;
    assert TrimPrefix(key, prefix) == tail;
    PlainChain(r);
    ParseOfTail(SortTimestamp(r), r.chainName, r.sourcePinId);
    ChainFilter(r, p);
  }

  lemma PlainChain(r: Record)
    requires PlainRecord(r)
    ensures Plain(r.chainName) && Plain(r.protocolPath) && forall k :: Plain(Identity(k, r))
  {
    ProtocolsPlain(r.protocolPath);
  }

  lemma ChainFilter(r: Record, p: ListParams)
    ensures p.chainName != "" && r.chainName != p.chainName ==> !RecordMatches(r, p)
  {}

  lemma KeyOfRecord(s: State, p: ListParams, kind: Kind, identity: string, key: string, r: Record, kind': Kind)
    requires PlainParams(p) && Selected(p) == Some((kind, identity)) && PlainRecord(r)
    requires key == RecordIndexKey(kind', r) && IndexPrefix(kind, p.protocolPath, identity) <= key
    ensures kind == kind' && r.protocolPath == p.protocolPath && Identity(kind, r) == identity
  {
    hide IndexPrefix, KeyTail, IndexKey;
    var prefix := IndexPrefix(kind, p.protocolPath, identity);
    PlainChain(r);
    KeyIsPrefixAndTail(kind', r.protocolPath, Identity(kind', r), SortTimestamp(r), r.chainName, r.sourcePinId);
    assert key == prefix + key[|prefix|..];
    PrefixParts(kind, p.protocolPath, identity, kind', r.protocolPath, Identity(kind', r), key[|prefix|..],
                KeyTail(SortTimestamp(r), r.chainName, r.sourcePinId));
  }

  /** Key order is listing order for records under one prefix. */
  lemma KeyOrder(x: Record, y: Record, kind: Kind)
    requires x.protocolPath == y.protocolPath && Identity(kind, x) == Identity(kind, y)
    ensures Less(RecordIndexKey(kind, x), RecordIndexKey(kind, y)) <==> Before(x, y)
  {
    hide IndexPrefix, KeyTail, IndexKey;
    var prefix := IndexPrefix(kind, x.protocolPath, Identity(kind, x));
    KeyIsPrefixAndTail(kind, x.protocolPath, Identity(kind, x), SortTimestamp(x), x.chainName, x.sourcePinId);
    KeyIsPrefixAndTail(kind, y.protocolPath, Identity(kind, y), SortTimestamp(y), y.chainName, y.sourcePinId);
    LessAfterPrefix(prefix, KeyTail(SortTimestamp(x), x.chainName, x.sourcePinId),
                    KeyTail(SortTimestamp(y), y.chainName, y.sourcePinId));
    TailOrder(SortTimestamp(x), x.chainName, x.sourcePinId, SortTimestamp(y), y.chainName, y.sourcePinId);
  }

  /** The records hit by the keys, in key order. */
  ghost function Hits(s: State, prefix: string, p: ListParams, keys: seq<string>): seq<Record>
  {
    if keys == [] then []
    else
      match Visit(s, prefix, p, keys[0])
      case Ok(Some(r)) => [r] + Hits(s, prefix, p, keys[1..])
      case _ => Hits(s, prefix, p, keys[1..])
  }

  function Take(s: seq<Record>, n: nat): seq<Record> { if |s| <= n then s else s[..n] }

  /** Without errors the scan returns the first `limit` hits. */
  lemma {:induction false} ScanTakesHits(s: State, prefix: string, p: ListParams, keys: seq<string>, limit: nat,
                                         found: seq<Record>)
    requires |found| < limit
    requires forall i :: 0 <= i < |keys| ==> Visit(s, prefix, p, keys[i]).Ok?
    ensures ScanKeys(s, prefix, p, keys, limit, found) == Ok(Take(found + Hits(s, prefix, p, keys), limit))
    decreases |keys|
  {
    hide Visit;
    if keys == [] {
      assert found + [] == found;
    } else {
      var tail := Hits(s, prefix, p, keys[1..]);
      assert Visit(s, prefix, p, keys[0]).Ok?;
      match Visit(s, prefix, p, keys[0]).value {
        case None =>
          ScanTakesHits(s, prefix, p, keys[1..], limit, found);
        case Some(r) =>
          assert found + ([r] + tail) == (found + [r]) + tail;
          if |found| + 1 < limit {
            ScanTakesHits(s, prefix, p, keys[1..], limit, found + [r]);
          } else {
            assert Take((found + [r]) + tail, limit) == found + [r];
          }
      }
    }
  }

  /** The hits of an ascending run of scanned keys are the matching records of those keys, in listing order. */
  lemma {:induction false} HitsListed(s: State, p: ListParams, kind: Kind, identity: string, keys: seq<string>)
    requires Listable(s) && PlainParams(p) && Selected(p) == Some((kind, identity)) && p.protocolPath != ""
    requires IsBytes(IndexPrefix(kind, p.protocolPath, identity)) && Ascending(keys)
    requires forall i :: 0 <= i < |keys| ==> keys[i] in Range(s.index, IndexPrefix(kind, p.protocolPath, identity))
    ensures var prefix := IndexPrefix(kind, p.protocolPath, identity);
            var hits := Hits(s, prefix, p, keys);
            && (forall i :: 0 <= i < |keys| ==> Visit(s, prefix, p, keys[i]).Ok?)
            && (forall i, j :: 0 <= i < j < |hits| ==> Before(hits[i], hits[j]))
            && (forall r :: r in hits <==> Stored(s, r) && RecordMatches(r, p) && RecordIndexKey(kind, r) in keys
                                           && r.protocolPath == p.protocolPath && Identity(kind, r) == identity)
    decreases |keys|
  {
    hide Visit, Range, RecordMatches, RecordIndexKey, PlainRecord, IndexPrefix, Before, PlainParams;
    var prefix := IndexPrefix(kind, p.protocolPath, identity);
    if keys != [] {
      var tail := Hits(s, prefix, p, keys[1..]);
      HitsListed(s, p, kind, identity, keys[1..]);
      var r0 := VisitedKey(s, p, kind, identity, keys[0]);
      forall x | x in tail
        ensures Before(r0, x)
      {
        var j :| 0 <= j < |keys[1..]| && keys[1..][j] == RecordIndexKey(kind, x);
        assert keys[1..][j] == keys[j + 1];
        KeyOrder(r0, x, kind);
      }
      forall x | Stored(s, x) && RecordIndexKey(kind, x) == keys[0]
        ensures x == r0
      {
        IndexKeyInjective(kind, x, kind, r0);
      }
      assert keys == [keys[0]] + keys[1..];
    }
  }

  /** Nothing is scanned when no protocol is given, since every stored protocol is non-empty. */
  lemma NoProtocolNoKeys(s: State, p: ListParams, kind: Kind, identity: string)
    requires Listable(s) && PlainParams(p) && Selected(p) == Some((kind, identity)) && p.protocolPath == ""
    requires IsBytes(IndexPrefix(kind, "", identity))
    ensures Range(s.index, IndexPrefix(kind, "", identity)) == {}
  {
    hide InRange, IndexPrefix, RecordIndexKey, PlainRecord;
    var prefix := IndexPrefix(kind, "", identity);
    forall key | key in Range(s.index, prefix)
      ensures false
    {
      RangeIsPrefix(key, prefix);
      var k :| k in s.records && key in IdentityKeys(s.records[k]);
      var kind': Kind :| key == RecordIndexKey(kind', s.records[k]);
      KeyOfRecord(s, p, kind, identity, key, s.records[k], kind');
      PlainNotEmpty(s.records[k]);
    }
  }

  lemma PlainNotEmpty(r: Record)
    requires PlainRecord(r)
    ensures r.protocolPath != ""
  {}

  lemma SelectedPlain(p: ListParams, kind: Kind, identity: string)
    requires Selected(p) == Some((kind, identity))
    ensures identity != "" && forall r :: RecordMatches(r, p) ==> Identity(kind, r) == identity
    ensures forall r :: RecordMatches(r, p) && p.protocolPath != "" ==> r.protocolPath == p.protocolPath
  {}

  /** All hits of the scanned range are the listing the specification asks for. */
  lemma RangeListed(s: State, p: ListParams, kind: Kind, identity: string)
    requires Listable(s) && PlainParams(p) && Selected(p) == Some((kind, identity)) && p.protocolPath != ""
    requires IsBytes(IndexPrefix(kind, p.protocolPath, identity))
    ensures var prefix := IndexPrefix(kind, p.protocolPath, identity);
            var keys := SortedKeys(Range(s.index, prefix));
            && (forall i :: 0 <= i < |keys| ==> Visit(s, prefix, p, keys[i]).Ok?)
            && SortedListing(Hits(s, prefix, p, keys), s, p)
  {
    hide Visit, RecordMatches, IndexPrefix, Before, PlainParams, Range, Listable, RecordIndexKey, SortedKeys, Hits, Stored,
         Identity;
    var prefix := IndexPrefix(kind, p.protocolPath, identity);
    var range := Range(s.index, prefix);
    var keys := SortedKeys(range);
    SortedKeysFacts(range);
    assert forall i :: 0 <= i < |keys| ==> keys[i] in keys;
    HitsListed(s, p, kind, identity, keys);
    SelectedPlain(p, kind, identity);
    forall r | Stored(s, r) && RecordMatches(r, p)
      ensures RecordIndexKey(kind, r) in keys && r.protocolPath == p.protocolPath && Identity(kind, r) == identity
    {
      MatchingKeyInRange(s, p, kind, identity, r);
    }
  }

  lemma MatchingKeyInRange(s: State, p: ListParams, kind: Kind, identity: string, r: Record)
    requires Listable(s) && Selected(p) == Some((kind, identity)) && p.protocolPath != ""
    requires Stored(s, r) && RecordMatches(r, p)
    requires IsBytes(IndexPrefix(kind, p.protocolPath, identity))
    ensures RecordIndexKey(kind, r) in Range(s.index, IndexPrefix(kind, p.protocolPath, identity))
  {
    hide InRange, IndexPrefix, IndexKey, KeyTail, PlainRecord, RecordMatches;
    SelectedPlain(p, kind, identity);
    var prefix, key := IndexPrefix(kind, p.protocolPath, identity), RecordIndexKey(kind, r);
    assert key in IdentityKeys(r);
    assert key in s.index;
    KeyIsPrefixAndTail(kind, r.protocolPath, identity, SortTimestamp(r), r.chainName, r.sourcePinId);
    RangeIsPrefix(key, prefix);
  }

  // ---- Listing without an identity: collect and sort ----

  /** The order of the explicit sort: newest first, then descending chain, then descending source. */
  predicate SortsBefore(x: Record, y: Record)
  {
    if SortTimestamp(x) != SortTimestamp(y) then SortTimestamp(x) > SortTimestamp(y)
    else if x.chainName != y.chainName then Less(y.chainName, x.chainName)
    else Less(y.sourcePinId, x.sourcePinId)
  }

  lemma SortsBeforeIsStrict()
    ensures StrictOrder(SortsBefore)
  {
    forall x: Record {
      LessIrreflexive(x.sourcePinId);
    }
    forall x: Record, y: Record, z: Record | SortsBefore(x, y) && SortsBefore(y, z)
      ensures SortsBefore(x, z)
    {
      SortsBeforeTransitive(x, y, z);
    }
  }

  lemma SortsBeforeTransitive(x: Record, y: Record, z: Record)
    requires SortsBefore(x, y) && SortsBefore(y, z)
    ensures SortsBefore(x, z)
  {
    if x.chainName == y.chainName == z.chainName {
      if SortTimestamp(x) == SortTimestamp(y) == SortTimestamp(z) {
        LessTransitive(z.sourcePinId, y.sourcePinId, x.sourcePinId);
      }
    } else if x.chainName != y.chainName && y.chainName != z.chainName {
      if Less(y.chainName, x.chainName) && Less(z.chainName, y.chainName) {
        LessTransitive(z.chainName, y.chainName, x.chainName);
        LessIrreflexive(x.chainName);
      }
    }
  }

  /** All stored records that match, in the order of the explicit sort. */
  ghost predicate SortedCollection(full: seq<Record>, s: State, p: ListParams)
  {
    && (forall i, j :: 0 <= i < j < |full| ==> full[i] != full[j] && !SortsBefore(full[j], full[i]))
    && (forall r :: r in full <==> Stored(s, r) && RecordMatches(r, p))
  }

  /** `full` holds what is not left in `rest`, sorted and ahead of it. */
  ghost predicate SortedPart(full: seq<Record>, all: set<Record>, rest: set<Record>)
  {
    && rest <= all
    && (forall r :: r in full <==> r in all - rest)
    && (forall i, j :: 0 <= i < j < |full| ==> full[i] != full[j] && !SortsBefore(full[j], full[i]))
    && (forall i, r :: 0 <= i < |full| && r in rest ==> !SortsBefore(r, full[i]))
  }

  lemma SortStep(full: seq<Record>, all: set<Record>, rest: set<Record>, r: Record)
    requires SortedPart(full, all, rest) && r in rest && forall x :: x in rest ==> !SortsBefore(x, r)
    ensures SortedPart(full + [r], all, rest - {r})
  {
    hide SortsBefore;
    assert forall i :: 0 <= i < |full| ==> full[i] in full;
  }

  /** Collects the matching records and sorts them. */
  method ScanRecords(a: Aggregator, p: ListParams) returns (full: seq<Record>)
    requires forall k :: k in a.records ==> KeyOf(a.records[k]) == k
    ensures SortedCollection(full, a.View(), p)
  {
    hide SortsBefore, RecordMatches, SortedPart, KeyOf;
    var rest := set k | k in a.records && RecordMatches(a.records[k], p) :: a.records[k];
    ghost var all := rest;
    full := [];
    assert SortedPart([], all, rest) by { SortStart(all); }
    while rest != {}
      invariant SortedPart(full, all, rest)
      decreases |rest|
    {
      SortsBeforeIsStrict();
      ghost var m := MinimalExists(rest, SortsBefore);
      var r :| r in rest && forall x :: x in rest ==> !SortsBefore(x, r);
      SortStep(full, all, rest, r);
      full := full + [r];
      rest := rest - {r};
    }
    SortEnd(a.View(), p, full, all);
  }

  lemma SortStart(all: set<Record>)
    ensures SortedPart([], all, all)
  {}

  lemma SortEnd(s: State, p: ListParams, full: seq<Record>, all: set<Record>)
    requires forall k :: k in s.records ==> KeyOf(s.records[k]) == k
    requires all == set k | k in s.records && RecordMatches(s.records[k], p) :: s.records[k]
    requires SortedPart(full, all, {})
    ensures SortedCollection(full, s, p)
  {
    hide SortsBefore, RecordMatches;
    assert forall r :: r in all <==> Stored(s, r) && RecordMatches(r, p);
  }

  // ---- Listing ----

  /** The first `size` records of `full`, and whether there are more. */
  predicate IsPage(r: ListResult, full: seq<Record>, size: int)
    requires size >= 1
  {
    r.items == Take(full, size) && r.hasMore == (|full| > size)
  }

  /** A page of the matching records in listing order. */
  ghost predicate ListsIdentity(r: Result<ListResult, ListError>, s: State, p: ListParams)
    requires p.size >= 1
  {
    r.Ok? && exists full :: SortedListing(full, s, p) && IsPage(r.value, full, p.size)
  }

  /** A page of the matching records in the order of the explicit sort. */
  ghost predicate ListsCollection(r: Result<ListResult, ListError>, s: State, p: ListParams)
    requires p.size >= 1
  {
    r.Ok? && exists full :: SortedCollection(full, s, p) && IsPage(r.value, full, p.size)
  }

  /** Looking one record past the page tells whether there are more. */
  function Page(found: seq<Record>, size: int): ListResult
    requires size >= 1
  {
    ListResult(Take(found, size), |found| > size)
  }

  lemma PageOfTake(full: seq<Record>, size: int)
    requires size >= 1
    ensures IsPage(Page(Take(full, size + 1), size), full, size)
  {}

  /** The scan of the selected index yields the specified page; without a protocol it yields nothing. */
  lemma ScanLists(s: State, p: ListParams, kind: Kind, identity: string)
    requires Listable(s) && PlainParams(p) && Selected(p) == Some((kind, identity)) && p.size >= 1
    requires IsBytes(IndexPrefix(kind, p.protocolPath, identity))
    ensures var prefix := IndexPrefix(kind, p.protocolPath, identity);
            var scan := ScanKeys(s, prefix, p, SortedKeys(Range(s.index, prefix)), p.size + 1, []);
            scan.Ok? && if p.protocolPath == "" then Page(scan.value, p.size) == ListResult([], false)
                        else ListsIdentity(Ok(Page(scan.value, p.size)), s, p)
  {
    hide Listable, PlainParams, Selected, Visit, SortedListing, Range, IndexPrefix, InRange, SortedKeys, IsPage;
    var prefix := IndexPrefix(kind, p.protocolPath, identity);
    var keys := SortedKeys(Range(s.index, prefix));
    if p.protocolPath == "" {
      NoProtocolNoKeys(s, p, kind, identity);
      SortedKeysEmpty();
    } else {
      RangeListed(s, p, kind, identity);
      var full := Hits(s, prefix, p, keys);
      ScanTakesHits(s, prefix, p, keys, p.size + 1, []);
      assert [] + full == full;
      PageOfTake(full, p.size);
    }
  }

  /** A filter value with a colon matches no stored record, as stored values have none. */
  lemma {:induction false} ColonMatchesNothing(s: State, p: ListParams, r: Record)
    requires Listable(s) && !PlainParams(p) && Stored(s, r)
    ensures !RecordMatches(r, p)
  {
    hide IsBytes;
    assert PlainRecord(s.records[KeyOf(r)]);
    ProtocolsPlain(r.protocolPath);
  }

  lemma ColonVisit(s: State, prefix: string, p: ListParams, key: string)
    requires Listable(s) && !PlainParams(p)
    ensures Visit(s, prefix, p, key).Err? || Visit(s, prefix, p, key) == Ok(None)
  {
    hide Listable, PlainParams, RecordMatches, ParseTail, TrimPrefix;
    forall k | k in s.records
      ensures !RecordMatches(s.records[k], p)
    {
      StoredThere(s, k);
      ColonMatchesNothing(s, p, s.records[k]);
    }
  }

  lemma StoredThere(s: State, k: RecordKey)
    requires Listable(s) && k in s.records
    ensures Stored(s, s.records[k])
  {
    hide PlainRecord, IsBytes;
  }

  /** The scan fails on a key of the range whose rest names no chain or no source. */
  ghost predicate FailsOn(s: State, prefix: string, p: ListParams, keys: set<string>)
  {
    exists key :: key in keys && Visit(s, prefix, p, key).Err?
  }

  lemma {:induction false} ScanMisses(s: State, prefix: string, p: ListParams, keys: seq<string>, limit: nat)
    requires forall key :: key in keys ==> Visit(s, prefix, p, key).Err? || Visit(s, prefix, p, key) == Ok(None)
    ensures ScanKeys(s, prefix, p, keys, limit, []) ==
            if exists key :: key in keys && Visit(s, prefix, p, key).Err? then Err(MissingKeyPart) else Ok([])
  {
    hide Visit;
    if keys != [] {
      assert keys == [keys[0]] + keys[1..];
      assert keys[0] in keys;
      ScanMisses(s, prefix, p, keys[1..], limit);
      if Visit(s, prefix, p, keys[0]).Err? {
        assert Visit(s, prefix, p, keys[0]).error == MissingKeyPart;
      }
    }
  }

  /** With a colon in a filter value the scan finds nothing, or fails. */
  lemma ColonScan(s: State, p: ListParams, prefix: string, limit: nat)
    requires Listable(s) && !PlainParams(p) && IsBytes(prefix)
    ensures var range := Range(s.index, prefix);
            ScanKeys(s, prefix, p, SortedKeys(range), limit, []) ==
            if FailsOn(s, prefix, p, range) then Err(MissingKeyPart) else Ok([])
  {
    hide Listable, PlainParams, Visit, Range, SortedKeys, ScanKeys;
    var range := Range(s.index, prefix);
    SortedKeysFacts(range);
    forall key | key in SortedKeys(range)
      ensures Visit(s, prefix, p, key).Err? || Visit(s, prefix, p, key) == Ok(None)
    {
      ColonVisit(s, prefix, p, key);
    }
    ScanMisses(s, prefix, p, SortedKeys(range), limit);
  }

  // ---- What the caller gets ----

  /** A record the caller asks for: hidden ones only on demand, and agreeing with every value given. */
  ghost predicate Asked(r: Record, params: ListParams)
  {
    && (r.hidden ==> params.includeHidden)
    && (ProtocolPath(params.protocolPath) in {"", r.protocolPath})
    && (ToLower(TrimSpace(params.chainName)) in {"", r.chainName})
    && (TrimSpace(params.globalMetaId) in {"", r.publisher.globalMetaId})
    && (TrimSpace(params.metaId) in {"", r.publisher.metaId})
    && (TrimSpace(params.address) in {"", r.publisher.address})
  }

  lemma AskedIff(r: Record, params: ListParams)
    ensures RecordMatches(r, Normalise(params)) <==> Asked(r, params)
  {
    hide TrimSpace, ToLower, ProtocolPath;
  }

  /** Stored records asked for, each once; a full page when one is left out, and all of them otherwise. */
  ghost predicate AnswersWith(r: ListResult, s: State, params: ListParams)
  {
    var size := if params.size <= 0 then 20 else if params.size > 100 then 100 else params.size;
    && |r.items| <= size && (r.hasMore ==> |r.items| == size)
    && (forall i :: 0 <= i < |r.items| ==> Stored(s, r.items[i]) && Asked(r.items[i], params))
    && (forall i, j :: 0 <= i < j < |r.items| ==> r.items[i] != r.items[j])
    && (r.hasMore <==> exists rec :: Stored(s, rec) && Asked(rec, params) && rec !in r.items)
  }

  /** An identity without a protocol selects no index range. */
  predicate Askable(params: ListParams)
  {
    ProtocolPath(params.protocolPath) != ""
    || (TrimSpace(params.globalMetaId) == "" && TrimSpace(params.metaId) == "" && TrimSpace(params.address) == "")
  }

  lemma PageAnswers(r: ListResult, full: seq<Record>, s: State, params: ListParams)
    requires IsPage(r, full, Normalise(params).size)
    requires forall i, j :: 0 <= i < j < |full| ==> full[i] != full[j]
    requires forall rec :: rec in full <==> Stored(s, rec) && RecordMatches(rec, Normalise(params))
    ensures AnswersWith(r, s, params)
  {
    var size := Normalise(params).size;
    hide Asked, RecordMatches, Stored;
    forall rec
      ensures RecordMatches(rec, Normalise(params)) <==> Asked(rec, params)
    {
      AskedIff(rec, params);
    }
    if |full| > size {
      assert full[size] in full && full[size] !in r.items;
    }
  }

  lemma CollectionListed(r: Result<ListResult, ListError>, full: seq<Record>, s: State, p: ListParams)
    requires r.Ok? && p.size >= 1 && SortedCollection(full, s, p) && IsPage(r.value, full, p.size)
    ensures ListsCollection(r, s, p)
  {}

  lemma ListingAnswers(r: Result<ListResult, ListError>, s: State, params: ListParams)
    requires ListsIdentity(r, s, Normalise(params)) || ListsCollection(r, s, Normalise(params))
    ensures r.Ok? && AnswersWith(r.value, s, params)
  {
    hide AnswersWith, RecordMatches, Stored, IsPage, Normalise;
    var p := Normalise(params);
    if ListsIdentity(r, s, p) {
      var full :| SortedListing(full, s, p) && IsPage(r.value, full, p.size);
      DistinctListing(full, s, p);
      PageAnswers(r.value, full, s, params);
    } else {
      var full :| SortedCollection(full, s, p) && IsPage(r.value, full, p.size);
      PageAnswers(r.value, full, s, params);
    }
  }

  lemma DistinctListing(full: seq<Record>, s: State, p: ListParams)
    requires SortedListing(full, s, p)
    ensures forall i, j :: 0 <= i < j < |full| ==> full[i] != full[j]
  {
    hide Before, RecordMatches;
    forall i, j | 0 <= i < j < |full|
      ensures full[i] != full[j]
    {
      NotBeforeItself(full[i]);
    }
  }

  lemma NotBeforeItself(x: Record)
    ensures !Before(x, x)
  {
    LessIrreflexive(x.chainName + ":" + x.sourcePinId);
  }

  /** A filter value with a colon leaves nothing to list. */
  lemma ColonAnswers(s: State, params: ListParams)
    requires Listable(s) && !PlainParams(Normalise(params))
    ensures AnswersWith(ListResult([], false), s, params)
  {
    hide Asked, RecordMatches, Normalise, PlainParams, Listable;
    forall rec
      ensures !(Stored(s, rec) && Asked(rec, params))
    {
      AskedIff(rec, params);
      if Stored(s, rec) {
        ColonMatchesNothing(s, Normalise(params), rec);
      }
    }
    SizePositive(params);
  }

  lemma SizePositive(params: ListParams)
    ensures Normalise(params).size >= 1
  {}

  lemma AskableIff(params: ListParams)
    ensures Askable(params) <==> Normalise(params).protocolPath != "" || Selected(Normalise(params)) == None
  {
    hide TrimSpace, ProtocolPath, ToLower;
  }

  /** The listing of a store: by identity, in key order; otherwise collected and sorted. A filter value with a colon
      lists nothing, or fails. */
  method List(a: Aggregator, params: ListParams) returns (r: Result<ListResult, ListError>)
    requires Listable(a.View())
    requires var p := Normalise(params);
             Selected(p).Some? ==> IsBytes(IndexPrefix(Selected(p).value.0, p.protocolPath, Selected(p).value.1))
    ensures var p := Normalise(params);
            Selected(p).Some? && PlainParams(p) ==>
              if p.protocolPath == "" then r == Ok(ListResult([], false)) else ListsIdentity(r, a.View(), p)
    ensures var p := Normalise(params);
            Selected(p).Some? && !PlainParams(p) ==>
              var prefix := IndexPrefix(Selected(p).value.0, p.protocolPath, Selected(p).value.1);
              r == if FailsOn(a.View(), prefix, p, Range(a.index, prefix)) then Err(MissingKeyPart) else Ok(ListResult([], false))
    ensures Selected(Normalise(params)).None? ==> ListsCollection(r, a.View(), Normalise(params))
    ensures Askable(params) && r.Ok? ==> AnswersWith(r.value, a.View(), params)
    ensures !Askable(params) && r.Ok? ==> r.value == ListResult([], false)
  {
    AskableIff(params);
    hide AnswersWith, Askable, ListsIdentity, ListsCollection, Normalise, PlainParams, Selected, Visit, SortedListing,
         SortedCollection, Range, IndexPrefix, ScanKeys, IsPage,
         SortedKeys;
    var p := Normalise(params);
    var limit := p.size + 1;
    var found: seq<Record>;
    match Selected(p) {
      case Some((kind, identity)) =>
        var scan := ScanIdentity(a, IndexPrefix(kind, p.protocolPath, identity), p, limit);
        if PlainParams(p) {
          ScanLists(a.View(), p, kind, identity);
        } else {
          ColonScan(a.View(), p, IndexPrefix(kind, p.protocolPath, identity), limit);
          ColonAnswers(a.View(), params);
        }
        if scan.Err? {
          return Err(scan.error);
        }
        found := scan.value;
        if PlainParams(p) && p.protocolPath != "" {
          ListingAnswers(Ok(Page(found, p.size)), a.View(), params);
        }
      case None =>
        var full := ScanRecords(a, p);
        PageOfTake(full, p.size);
        found := Take(full, limit);
        CollectionListed(Ok(Page(found, p.size)), full, a.View(), p);
        ListingAnswers(Ok(Page(found, p.size)), a.View(), params);
    }
    r := Ok(Page(found, p.size));
  }

  // ---- The specified listing is unique ----

  lemma BeforeIsStrict()
    ensures StrictOrder(Before)
  {
    hide Less;
    forall x: Record
      ensures !Before(x, x)
    {
      LessIrreflexive(x.chainName + ":" + x.sourcePinId);
    }
    forall x: Record, y: Record, z: Record | Before(x, y) && Before(y, z)
      ensures Before(x, z)
    {
      var a, b, c := x.chainName + ":" + x.sourcePinId, y.chainName + ":" + y.sourcePinId, z.chainName + ":" + z.sourcePinId;
      if Less(a, b) && Less(b, c) {
        LessTransitive(a, b, c);
      }
    }
  }

  /** A store and a filter determine the listing, and with it every page. */
  lemma ListingUnique(full: seq<Record>, full': seq<Record>, s: State, p: ListParams)
    requires SortedListing(full, s, p) && SortedListing(full', s, p)
    ensures full == full'
  {
    hide Before, RecordMatches, StrictOrder;
    BeforeIsStrict();
    SortedUnique(Before, full, full');
  }

  // ---- The order of the listing ----

  /** Buzzes are dated by their creation, other records by their last change, or their creation when that is not dated. */
  ghost predicate DatedAt(r: Record, t: int)
  {
    && (r.protocolPath == "/protocols/simplebuzz" ==> t == r.createdAt)
    && (r.protocolPath != "/protocols/simplebuzz" && r.updatedAt > 0 ==> t == r.updatedAt)
    && (r.protocolPath != "/protocols/simplebuzz" && r.updatedAt <= 0 ==> t == r.createdAt)
  }

  /** By identity: dates before the epoch first, then latest first, then by chain and source. */
  lemma ListedOrder(full: seq<Record>, s: State, p: ListParams, i: nat, j: nat, t: int, u: int)
    requires SortedListing(full, s, p) && i < j < |full| && DatedAt(full[i], t) && DatedAt(full[j], u)
    ensures if t < 0 <= u then true else t >= u && (t >= 0 ==> u >= 0)
    ensures t == u ==> Less(full[i].chainName + ":" + full[i].sourcePinId, full[j].chainName + ":" + full[j].sourcePinId)
  {
    hide Less, RecordMatches, Uint64;
    assert Before(full[i], full[j]);
    PatternOrder(SortTimestamp(full[i]), SortTimestamp(full[j]));
  }

  /** Without an identity: latest first, then by descending chain, then by descending source. */
  lemma CollectedOrder(full: seq<Record>, s: State, p: ListParams, i: nat, j: nat, t: int, u: int)
    requires SortedCollection(full, s, p) && i < j < |full| && DatedAt(full[i], t) && DatedAt(full[j], u)
    ensures t >= u
    ensures t == u ==> full[i].chainName == full[j].chainName || Less(full[j].chainName, full[i].chainName)
    ensures t == u && full[i].chainName == full[j].chainName ==>
              full[i].sourcePinId == full[j].sourcePinId || Less(full[j].sourcePinId, full[i].sourcePinId)
  {
    hide Less, RecordMatches;
    LessTotal(full[i].chainName, full[j].chainName);
    LessTotal(full[i].sourcePinId, full[j].sourcePinId);
  }

  // ---- When the listing is newest first ----

  ghost predicate NewestFirst(full: seq<Record>)
  {
    forall i, j :: 0 <= i < j < |full| ==> SortTimestamp(full[i]) >= SortTimestamp(full[j])
  }

  ghost predicate OneSign(full: seq<Record>)
  {
    forall i, j :: 0 <= i < |full| && 0 <= j < |full| ==> (SortTimestamp(full[i]) < 0 <==> SortTimestamp(full[j]) < 0)
  }

  lemma PatternOrder(a: Int64, b: Int64)
    ensures Uint64(a) > Uint64(b) <==> if (a < 0) == (b < 0) then a > b else a < b
    ensures Uint64(a) == Uint64(b) <==> a == b
  {}

  /** A listing by identity is newest first exactly when the matching records have timestamps of one sign. */
  lemma {:induction false} NewestFirstIff(full: seq<Record>, s: State, p: ListParams)
    requires SortedListing(full, s, p)
    ensures NewestFirst(full) <==> OneSign(full)
  {
    hide SortTimestamp, Uint64, Less, RecordMatches;
    forall i, j | 0 <= i < j < |full|
      ensures (SortTimestamp(full[i]) < 0) == (SortTimestamp(full[j]) < 0) <==> SortTimestamp(full[i]) >= SortTimestamp(full[j])
    {
      assert Before(full[i], full[j]);
      PatternOrder(SortTimestamp(full[i]), SortTimestamp(full[j]));
    }
    if NewestFirst(full) {
      forall i, j | 0 <= i < |full| && 0 <= j < |full|
        ensures SortTimestamp(full[i]) < 0 <==> SortTimestamp(full[j]) < 0
      {
        assert i < j ==> SortTimestamp(full[i]) >= SortTimestamp(full[j]);
        assert j < i ==> SortTimestamp(full[j]) >= SortTimestamp(full[i]);
      }
    }
  }

  /** A create pin with an identity and a timestamp. */
  function DatedPin(id: string, timestamp: Int64): Pin
  {
    ExamplePin(id, "create", "").(globalMetaId := "g", timestamp := timestamp)
  }

  function DatedRecord(id: string, timestamp: Int64): Record
  {
    NewRecord(DatedPin(id, timestamp), PATH_SIMPLE_BUZZ, id, false)
  }

  lemma DatedCreate(s: State, id: string, timestamp: Int64)
    requires id != "" && RecordKey("btc", PATH_SIMPLE_BUZZ, id) !in s.records
    ensures var r := DatedRecord(id, timestamp);
            && Process(s, DatedPin(id, timestamp), false).records == s.records[RecordKey("btc", PATH_SIMPLE_BUZZ, id) := r]
            && KeyOf(r) == RecordKey("btc", PATH_SIMPLE_BUZZ, id) && SortTimestamp(r) == timestamp
  {
    hide TrimSpace, ToLower, ProtocolPath, IdentityKeys, PublisherOf, PayloadOf;
    PlainPath();
    ExampleOperations();
    ProtocolNotEmpty(PATH_SIMPLE_BUZZ);
  }

  /** The buzzes of the identity "g". */
  const BUZZES_OF_G := ListParams(PATH_SIMPLE_BUZZ, "", "g", "", "", 20, false)

  /** Two pins, one dated before the epoch: the only listing of the store reached has the older record first. */
  lemma OlderListedFirst()
    ensures var s := Run(EMPTY, [Delivery(DatedPin("a", -1), false), Delivery(DatedPin("b", 1), false)]);
            var x, y := DatedRecord("a", -1), DatedRecord("b", 1);
            && SortTimestamp(x) < SortTimestamp(y) && x != y
            && forall r :: ListsIdentity(r, s, BUZZES_OF_G) <==> r == Ok(ListResult([x, y], false))
  {
    hide Process, RecordIndexKey, Less, TrimSpace, ToLower, PayloadOf, DatedRecord, SortTimestamp, RecordMatches, KeyOf, Before,
         SortedListing;
    var p, q := Delivery(DatedPin("a", -1), false), Delivery(DatedPin("b", 1), false);
    assert [p, q][..1] == [p] && [p][..0] == [];
    assert Run(EMPTY, [p]) == Process(EMPTY, p.pin, false);
    assert "a"[0] != "b"[0];
    DatedCreate(EMPTY, "a", -1);
    DatedCreate(Process(EMPTY, p.pin, false), "b", 1);
    var s := Run(EMPTY, [p, q]);
    var x, y := DatedRecord("a", -1), DatedRecord("b", 1);
    PatternOrder(-1, 1);
    NegativeFirst(x, y);
    DatedMatches("a", -1);
    DatedMatches("b", 1);
    TwoListed(s, x, y, BUZZES_OF_G);
    OneListing(s, [x, y], BUZZES_OF_G);
  }

  lemma NegativeFirst(x: Record, y: Record)
    requires SortTimestamp(x) < 0 <= SortTimestamp(y)
    ensures Before(x, y)
  {
    PatternOrder(SortTimestamp(x), SortTimestamp(y));
  }

  lemma TwoListed(s: State, x: Record, y: Record, p: ListParams)
    requires KeyOf(x) != KeyOf(y) && s.records == map[KeyOf(x) := x, KeyOf(y) := y]
    requires RecordMatches(x, p) && RecordMatches(y, p) && Before(x, y)
    ensures SortedListing([x, y], s, p)
  {
    hide RecordMatches, Before, KeyOf;
  }

  /** A listing that fits its page is the only answer. */
  lemma OneListing(s: State, full: seq<Record>, p: ListParams)
    requires SortedListing(full, s, p) && |full| <= p.size && p.size >= 1
    ensures forall r :: ListsIdentity(r, s, p) <==> r == Ok(ListResult(full, false))
  {
    hide SortedListing;
    forall other | SortedListing(other, s, p)
      ensures other == full
    {
      ListingUnique(other, full, s, p);
    }
    assert IsPage(ListResult(full, false), full, p.size);
  }

  lemma DatedMatches(id: string, timestamp: Int64)
    ensures RecordMatches(DatedRecord(id, timestamp), BUZZES_OF_G)
  {
    hide TrimSpace, ToLower, PayloadOf, EqualFold;
    ExampleIdentity();
    ExampleOperations();
    OperationsDiffer();
  }

  lemma ExampleIdentity()
    ensures TrimSpace("g") == "g" && TrimSpace("") == ""
  {}

  /** A create and a confirmed revoke of it: the record is listed only to those who ask for hidden ones. */
  lemma RevokedNotListed()
    ensures var s := Run(EMPTY, [Delivery(DatedPin("a", 1), false), Delivery(ExamplePin("c", "revoke", "a"), false)]);
            && (forall r :: ListsIdentity(r, s, BUZZES_OF_G) <==> r == Ok(ListResult([], false)))
            && exists x: Record :: x.hidden && x.sourcePinId == "a" && forall r ::
                 ListsIdentity(r, s, BUZZES_OF_G.(includeHidden := true)) <==> r == Ok(ListResult([x], false))
  {
    hide Process, Less, TrimSpace, ToLower, PayloadOf, DatedRecord, SortTimestamp, RecordMatches, KeyOf, Before, SortedListing,
         Revoked;
    var p, q := Delivery(DatedPin("a", 1), false), Delivery(ExamplePin("c", "revoke", "a"), false);
    assert [p, q][..1] == [p] && [p][..0] == [];
    assert Run(EMPTY, [p]) == Process(EMPTY, p.pin, false);
    var s := Run(EMPTY, [p, q]);
    var x := Revoked(DatedRecord("a", 1), q.pin, false);
    RevokedBuzz(x);
    OneListed(s, x, BUZZES_OF_G.(includeHidden := true));
    OneListing(s, [x], BUZZES_OF_G.(includeHidden := true));
    NoneListed(s, x, BUZZES_OF_G);
    OneListing(s, [], BUZZES_OF_G);
  }

  lemma OneListed(s: State, x: Record, p: ListParams)
    requires s.records == map[KeyOf(x) := x] && RecordMatches(x, p)
    ensures SortedListing([x], s, p)
  {
    hide RecordMatches, Before, KeyOf;
  }

  lemma NoneListed(s: State, x: Record, p: ListParams)
    requires s.records == map[KeyOf(x) := x] && !RecordMatches(x, p)
    ensures SortedListing([], s, p)
  {
    hide RecordMatches, Before, KeyOf;
  }

  lemma RevokedBuzz(x: Record)
    requires x == Revoked(DatedRecord("a", 1), ExamplePin("c", "revoke", "a"), false)
    ensures var s := Process(EMPTY, DatedPin("a", 1), false);
            && Process(s, ExamplePin("c", "revoke", "a"), false).records == map[KeyOf(x) := x]
            && KeyOf(x) == RecordKey("btc", PATH_SIMPLE_BUZZ, "a")
    ensures x.hidden && x.sourcePinId == "a" && !RecordMatches(x, BUZZES_OF_G)
    ensures RecordMatches(x, BUZZES_OF_G.(includeHidden := true))
  {
    hide Process, TrimSpace, ToLower, PayloadOf, DatedRecord, SortTimestamp, RecordMatches, Revoked;
    DatedCreate(EMPTY, "a", 1);
    DatedMatches("a", 1);
    BuzzRevoked();
    RevokeHides(DatedRecord("a", 1), ExamplePin("c", "revoke", "a"));
  }

  lemma RevokeHides(previous: Record, pin: Pin)
    requires !previous.isMempool
    ensures var x := Revoked(previous, pin, false);
            && x.hidden && x.sourcePinId == previous.sourcePinId && KeyOf(x) == KeyOf(previous) && !RecordMatches(x, BUZZES_OF_G)
            && (RecordMatches(previous, BUZZES_OF_G) ==> RecordMatches(x, BUZZES_OF_G.(includeHidden := true)))
  {}

  lemma BuzzRevoked()
    ensures var s, x := Process(EMPTY, DatedPin("a", 1), false), DatedRecord("a", 1);
            && !x.isMempool && x.sourcePinId == "a"
            && Process(s, ExamplePin("c", "revoke", "a"), false).records ==
               s.records[RecordKey("btc", PATH_SIMPLE_BUZZ, "a") := Revoked(x, ExamplePin("c", "revoke", "a"), false)]
  {
    hide TrimSpace, ToLower, ProtocolPath, TargetFromPath, PublisherOf, PayloadOf, IdentityKeys, TrimPrefix, Revoked, NewRecord;
    PlainPath();
    ExampleOperations();
    OperationsDiffer();
    ProtocolNotEmpty(PATH_SIMPLE_BUZZ);
    DatedCreate(EMPTY, "a", 1);
    BuzzStored();
    var s, x, pin := Process(EMPTY, DatedPin("a", 1), false), DatedRecord("a", 1), ExamplePin("c", "revoke", "a");
    hide Process;
    assert "a"[0] != "c"[0];
    assert LoadByAnyPin(s, "btc", PATH_SIMPLE_BUZZ, "a") == Some(x);
    RevokeProcessed(s, pin, x);
  }

  lemma BuzzStored()
    ensures var s, x := Process(EMPTY, DatedPin("a", 1), false), DatedRecord("a", 1);
            s.sources == map[PinKey("btc", "a") := "a"] && !x.isMempool && x.sourcePinId == "a"
  {
    hide TrimSpace, ToLower, ProtocolPath, NewRecord, IdentityKeys;
    PlainPath();
    ExampleOperations();
    ProtocolNotEmpty(PATH_SIMPLE_BUZZ);
    BuzzFields();
  }

  lemma BuzzFields()
    ensures var x := DatedRecord("a", 1);
            && !x.isMempool && x.chainName == "btc" && x.protocolPath == PATH_SIMPLE_BUZZ
            && x.sourcePinId == "a" && x.currentPinId == "a"
  {
    hide TrimSpace, ToLower, PublisherOf, PayloadOf, Operation;
    ExampleOperations();
  }

  lemma RevokeProcessed(s: State, pin: Pin, x: Record)
    requires pin == ExamplePin("c", "revoke", "a") && LoadByAnyPin(s, "btc", PATH_SIMPLE_BUZZ, "a") == Some(x)
    requires KeyOf(x) == RecordKey("btc", PATH_SIMPLE_BUZZ, "a")
    ensures Process(s, pin, false).records == s.records[KeyOf(x) := Revoked(x, pin, false)]
  {
    hide TrimSpace, ToLower, ProtocolPath, TargetFromPath, IdentityKeys, TrimPrefix, LoadByAnyPin;
    PlainPath();
    ExampleOperations();
    OperationsDiffer();
    ProtocolNotEmpty(PATH_SIMPLE_BUZZ);
    assert "a"[0] != "c"[0];
  }

  // ---- Reachable stores are listable ----

  ghost predicate BytesPin(pin: Pin)
  {
    && IsBytes(pin.id) && IsBytes(pin.chainName)
    && IsBytes(PublisherOf(pin).globalMetaId) && IsBytes(PublisherOf(pin).metaId) && IsBytes(PublisherOf(pin).address)
  }

  ghost predicate BytesRecord(r: Record)
  {
    && IsBytes(r.sourcePinId) && IsBytes(r.chainName) && IsPublishedProtocol(r.protocolPath)
    && IsBytes(r.publisher.globalMetaId) && IsBytes(r.publisher.metaId) && IsBytes(r.publisher.address)
  }

  ghost predicate BytesState(s: State)
  {
    forall k :: k in s.records ==> BytesRecord(s.records[k])
  }

  lemma NextVersionBytes(previous: Record, pin: Pin, protocol: string, isMempool: bool)
    requires BytesRecord(previous) && BytesPin(pin) && IsPublishedProtocol(protocol)
    requires ToLower(TrimSpace(pin.chainName)) == pin.chainName
    ensures BytesRecord(NextVersion(previous, pin, protocol, isMempool))
  {
    hide TrimSpace, ToLower, Operation, PublisherOf, PayloadOf, IsBytes, IsPublishedProtocol;
  }

  lemma CreatedBytes(pin: Pin, protocol: string, isMempool: bool, existing: Option<Record>)
    requires BytesPin(pin) && IsPublishedProtocol(protocol) && ToLower(TrimSpace(pin.chainName)) == pin.chainName
    requires existing.Some? ==> BytesRecord(existing.value)
    ensures var newest := NewRecord(pin, protocol, pin.id, isMempool);
            BytesRecord(if existing.Some? then MergePending(existing.value, newest, pin.id) else newest)
  {
    hide TrimSpace, ToLower, Operation, PublisherOf, PayloadOf, IsBytes, IsPublishedProtocol;
  }

  lemma ProcessKeepsBytes(s: State, pin: Pin, isMempool: bool, cat: Catalogue)
    requires BytesState(s) && BytesPin(pin) && WellNamed(pin, cat)
    ensures BytesState(Process(s, pin, isMempool))
  {
    hide TrimSpace, ToLower, Operation, PublisherOf, IsBytes, IsPublishedProtocol, NextVersion, NewRecord, MergePending,
         LoadByAnyPin, TargetPinId, ProtocolPath, BytesPin, BytesRecord, MapPin, IdentityKeys;
    var protocol := ProtocolPath(pin.path);
    if IsPublishedProtocol(protocol) {
      if Operation(pin) == CREATE {
        CreatedBytes(pin, protocol, isMempool, Load(s, pin.chainName, protocol, pin.id));
      } else if LoadByAnyPin(s, pin.chainName, protocol, TargetPinId(pin)).Some? {
        LoadedIsStored(s, pin.chainName, protocol, TargetPinId(pin));
        NextVersionBytes(LoadByAnyPin(s, pin.chainName, protocol, TargetPinId(pin)).value, pin, protocol, isMempool);
      }
    }
  }

  lemma LoadedIsStored(s: State, chain: string, protocol: string, pin: string)
    requires BytesState(s) && LoadByAnyPin(s, chain, protocol, pin).Some?
    ensures BytesRecord(LoadByAnyPin(s, chain, protocol, pin).value)
  {
    hide BytesRecord;
  }

  lemma {:induction false} HexBytes(n: nat, k: nat)
    ensures IsBytes(Hex(n, k))
  {
    if k > 0 {
      HexBytes(n / 16, k - 1);
      var d := n % 16;
      assert HEX[d] < 256 as char;
    }
  }

  lemma JoinBytes(a: string, b: string)
    requires IsBytes(a) && IsBytes(b)
    ensures IsBytes(a + ":" + b)
  {}

  lemma StampBytes(ts: Int64)
    ensures IsBytes(InvertedTimestamp(ts))
  {
    hide Hex;
    HexBytes(TWO64 - 1 - Uint64(ts), 16);
  }

  lemma IndexKeyBytes(kind: Kind, r: Record)
    requires BytesRecord(r)
    ensures IsBytes(RecordIndexKey(kind, r))
  {
    hide InvertedTimestamp, SortTimestamp, Hex;
    var ts := InvertedTimestamp(SortTimestamp(r));
    assert IsBytes(KindName(kind)) && IsBytes(r.protocolPath) && IsBytes(Identity(kind, r)) && IsBytes(r.chainName)
           && IsBytes(r.sourcePinId);
    StampBytes(SortTimestamp(r));
    hide IsBytes, KindName;
    var p1 := KindName(kind) + ":" + r.protocolPath;
    JoinBytes(KindName(kind), r.protocolPath);
    var p2 := p1 + ":" + Identity(kind, r);
    JoinBytes(p1, Identity(kind, r));
    var p3 := p2 + ":" + ts;
    JoinBytes(p2, ts);
    var p4 := p3 + ":" + r.chainName;
    JoinBytes(p3, r.chainName);
    JoinBytes(p4, r.sourcePinId);
  }

  lemma IndexBytes(s: State)
    requires s.index == IndexImage(s.records) && BytesState(s)
    ensures forall key :: key in s.index ==> IsBytes(key)
  {
    hide RecordIndexKey, BytesRecord, IsBytes;
    forall key | key in s.index
      ensures IsBytes(key)
    {
      var k :| k in s.records && key in IdentityKeys(s.records[k]);
      var kind: Kind :| key == RecordIndexKey(kind, s.records[k]);
      IndexKeyBytes(kind, s.records[k]);
    }
  }

  lemma StateListable(s: State, cat: Catalogue)
    requires Inv(s, cat) && BytesState(s)
    ensures Listable(s)
  {
    PlainStored(s, cat);
    IndexBytes(s);
    hide PlainRecord, IndexImage, BytesRecord, SortTimestamp, IsBytes;
    forall k | k in s.records
      ensures k.chain != "" && k.source != ""
    {
      assert GoodRecord(s, k, s.records[k], cat);
    }
  }

  /** Every store reached by deliveries of well-named byte-string pins can be listed. */
  lemma ReachableListable(deliveries: seq<Delivery>, cat: Catalogue)
    requires AllWellNamed(deliveries, cat) && forall i :: 0 <= i < |deliveries| ==> BytesPin(deliveries[i].pin)
    ensures Listable(Run(EMPTY, deliveries))
  {
    ReachableStates(deliveries, cat);
    ReachableBytes(deliveries, cat);
    StateListable(Run(EMPTY, deliveries), cat);
  }

  lemma {:induction false} ReachableBytes(deliveries: seq<Delivery>, cat: Catalogue)
    requires AllWellNamed(deliveries, cat) && forall i :: 0 <= i < |deliveries| ==> BytesPin(deliveries[i].pin)
    ensures BytesState(Run(EMPTY, deliveries))
  {
    hide Process, WellNamed, BytesPin, BytesRecord;
    if deliveries != [] {
      var n := |deliveries| - 1;
      ReachableBytes(deliveries[..n], cat);
      ProcessKeepsBytes(Run(EMPTY, deliveries[..n]), deliveries[n].pin, deliveries[n].isMempool, cat);
    }
  }
}
