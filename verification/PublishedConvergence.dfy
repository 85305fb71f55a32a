/** Convergence of the published-content fold: mempool and blocks bringing the pins of a version chain in one order, the
    store ends as if only the confirmed deliveries had been made, however the unconfirmed ones interleave with them.
    Orders that differ may end differently: see `PublishedVisibility.RevokeLost`. */
module PublishedConvergence {
  import opened Wrappers
  import opened GoStrings
  import opened KeyEncoding
  import opened PublishedContent
  import opened PublishedInvariants

  /** The two deliveries of one pin. */
  datatype Twin = Twin(mempool: Pin, confirmed: Pin)

  /** The deliveries differ in timestamp, number and host at most. */
  ghost predicate SamePin(t: Twin)
  {
    t.mempool == t.confirmed.(timestamp := t.mempool.timestamp, number := t.mempool.number, host := t.mempool.host)
  }

  ghost predicate IsVersion(twins: seq<Twin>, k: nat)
    requires k < |twins|
  {
    var pin := twins[k].confirmed;
    && (Operation(pin) == MODIFY || Operation(pin) == REVOKE)
    && (Operation(pin) == REVOKE ==> pin.timestamp > 0)
    && exists j :: 0 <= j < k && TargetPinId(pin) == twins[j].confirmed.id
  }

  /** A create pin followed by modifies and revokes of any earlier pin of the chain, with distinct ids;
      confirmed revokes carry a block time. */
  ghost predicate VersionChain(twins: seq<Twin>, chain: string, protocol: string, cat: Catalogue)
  {
    && twins != [] && chain != "" && IsPublishedProtocol(protocol)
    && (forall k :: 0 <= k < |twins| ==>
          && SamePin(twins[k]) && twins[k].confirmed.id != "" && twins[k].confirmed.chainName == chain
          && ProtocolPath(twins[k].confirmed.path) == protocol
          && WellNamed(twins[k].mempool, cat) && WellNamed(twins[k].confirmed, cat))
    && (forall j, k :: 0 <= j < k < |twins| ==> twins[j].confirmed.id != twins[k].confirmed.id)
    && Operation(twins[0].confirmed) == CREATE
    && (forall k :: 1 <= k < |twins| ==> IsVersion(twins, k))
  }

  // ---- Schedules ----

  /** How many pins have been delivered at all, and how many of them confirmed. */
  datatype Progress = Progress(delivered: nat, confirmed: nat)

  /** A schedule lists, in order, whether the next delivery is unconfirmed (of the next new pin)
      or confirmed (of the next unconfirmed one, or of a new pin when none is pending). */
  type Schedule = seq<bool>

  function After(schedule: Schedule): (p: Progress)
    ensures p.confirmed <= p.delivered
  {
    if schedule == [] then Progress(0, 0)
    else
      var p := After(schedule[..|schedule| - 1]);
      if schedule[|schedule| - 1] then Progress(p.delivered + 1, p.confirmed)
      else Progress(if p.confirmed == p.delivered then p.delivered + 1 else p.delivered, p.confirmed + 1)
  }

  function Follow(s: State, twins: seq<Twin>, schedule: Schedule): State
    requires After(schedule).delivered <= |twins|
  {
    if schedule == [] then s
    else
      var n := |schedule| - 1;
      var p := After(schedule[..n]);
      var before := Follow(s, twins, schedule[..n]);
      if schedule[n] then Process(before, twins[p.delivered].mempool, true)
      else Process(before, twins[p.confirmed].confirmed, false)
  }

  /** The schedule of a run that sees blocks only. */
  function BlocksOnly(n: nat): Schedule { seq(n, i => false) }

  /** Every pin unconfirmed in order, then every pin confirmed in order. */
  function PendingFirst(n: nat): Schedule { seq(n, i => true) + seq(n, i => false) }

  lemma {:induction false} BlocksOnlyProgress(n: nat)
    ensures After(BlocksOnly(n)) == Progress(n, n)
  {
    if n > 0 {
      assert BlocksOnly(n)[..n - 1] == BlocksOnly(n - 1);
      BlocksOnlyProgress(n - 1);
    }
  }

  lemma {:induction false} PendingProgress(n: nat, k: nat)
    requires k <= n
    ensures After(seq(n, i => true) + seq(k, i => false)) == Progress(n, k)
    decreases n + k
  {
    var s := seq(n, i => true) + seq(k, i => false);
    if k > 0 {
      assert s[..|s| - 1] == seq(n, i => true) + seq(k - 1, i => false);
      PendingProgress(n, k - 1);
    } else if n > 0 {
      assert s[..|s| - 1] == seq(n - 1, i => true) + seq(0, i => false);
      PendingProgress(n - 1, 0);
    }
  }

  // ---- What a chain amounts to after its first pins ----

  function OperationAfter(twins: seq<Twin>, m: nat): string
    requires 1 <= m <= |twins|
  {
    if m == 1 then CREATE
    else if OperationAfter(twins, m - 1) == REVOKE then REVOKE
    else Operation(twins[m - 1].confirmed)
  }

  function TypeAfter(twins: seq<Twin>, m: nat): string
    requires 1 <= m <= |twins|
  {
    var pin := twins[m - 1].confirmed;
    if m == 1 || Operation(pin) != REVOKE || pin.contentType != "" then pin.contentType else TypeAfter(twins, m - 1)
  }

  function PayloadAfter(twins: seq<Twin>, m: nat): Payload
    requires 1 <= m <= |twins|
  {
    var pin := twins[m - 1].confirmed;
    if m == 1 || (Operation(pin) != REVOKE && PayloadOf(pin).exposed) then PayloadOf(pin)
    else PayloadAfter(twins, m - 1)
  }

  /** What a version contributes to the identity of its record: a revoke nothing. */
  function Contribution(pin: Pin): Publisher
  {
    if Operation(pin) == REVOKE then Publisher("", "", "") else PublisherOf(pin)
  }

  /** The identity after inheriting through the pins `lo` up to `hi`. */
  function Inherit(p: Publisher, twins: seq<Twin>, lo: nat, hi: nat): Publisher
    requires lo <= hi <= |twins|
    decreases hi - lo
  {
    if lo == hi then p
    else Inherit(InheritedPublisher(Contribution(twins[lo].confirmed), p), twins, lo + 1, hi)
  }

  function PublisherAfter(twins: seq<Twin>, m: nat): Publisher
    requires 1 <= m <= |twins|
  {
    Inherit(PublisherOf(twins[0].confirmed), twins, 1, m)
  }

  lemma {:induction false} InheritSnoc(p: Publisher, twins: seq<Twin>, lo: nat, hi: nat)
    requires lo <= hi < |twins|
    ensures Inherit(p, twins, lo, hi + 1) ==
            InheritedPublisher(Contribution(twins[hi].confirmed), Inherit(p, twins, lo, hi))
    decreases hi - lo
  {
    hide Contribution, InheritedPublisher;
    if lo < hi {
      InheritSnoc(InheritedPublisher(Contribution(twins[lo].confirmed), p), twins, lo + 1, hi);
    }
  }

  lemma SameInherited(q: Publisher, p: Publisher, p': Publisher, c: Publisher)
    requires InheritedPublisher(q, p) == InheritedPublisher(q, p')
    ensures InheritedPublisher(q, InheritedPublisher(c, p)) == InheritedPublisher(q, InheritedPublisher(c, p'))
  {}

  /** A later pin's identity, already seen unconfirmed, does not disturb what is inherited before it. */
  lemma {:induction false} InheritEarly(q: Publisher, p: Publisher, p': Publisher, twins: seq<Twin>, lo: nat, hi: nat)
    requires lo <= hi <= |twins|
    requires InheritedPublisher(q, p) == InheritedPublisher(q, p')
    ensures InheritedPublisher(q, Inherit(p, twins, lo, hi)) == InheritedPublisher(q, Inherit(p', twins, lo, hi))
    decreases hi - lo
  {
    hide Contribution, InheritedPublisher;
    if lo < hi {
      var c := Contribution(twins[lo].confirmed);
      SameInherited(q, p, p', c);
      InheritEarly(q, InheritedPublisher(c, p), InheritedPublisher(c, p'), twins, lo + 1, hi);
    }
  }

  // ---- The record at a point of a schedule ----

  /** The record after `m` pins, `c` of them confirmed. While some pin is pending, the number, host
      and update time of the head are left open. */
  ghost predicate Shape(r: Record, twins: seq<Twin>, chain: string, protocol: string, m: nat, c: nat)
    requires 1 <= m <= |twins| && c <= m
  {
    var source := if c >= 1 then twins[0].confirmed else twins[0].mempool;
    var head := twins[m - 1].confirmed;
    && KeyOf(r) == RecordKey(chain, protocol, twins[0].confirmed.id)
    && r.currentPinId == head.id && r.currentPath == head.path
    && Inherit(r.publisher, twins, c, m) == PublisherAfter(twins, m)
    && r.operation == OperationAfter(twins, m) && r.hidden == (OperationAfter(twins, m) == REVOKE)
    && r.contentType == TypeAfter(twins, m) && r.payload == PayloadAfter(twins, m)
    && r.createdAt == source.timestamp && r.sourceNumber == source.number
    && r.sourcePath == source.path && r.sourceHost == source.host
    && r.isMempool == (c < m)
    && (c == m ==> r.updatedAt == head.timestamp && r.currentNumber == head.number && r.currentHost == head.host)
  }

  /** With every pin confirmed the shape leaves nothing open. */
  lemma ShapeUnique(r: Record, r': Record, twins: seq<Twin>, chain: string, protocol: string, m: nat)
    requires 1 <= m <= |twins|
    requires Shape(r, twins, chain, protocol, m, m) && Shape(r', twins, chain, protocol, m, m)
    ensures r == r'
  {
    hide OperationAfter, TypeAfter, PayloadAfter, PublisherAfter;
  }

  lemma SamePinFacts(t: Twin)
    requires SamePin(t)
    ensures Operation(t.mempool) == Operation(t.confirmed) && TargetPinId(t.mempool) == TargetPinId(t.confirmed)
    ensures PublisherOf(t.mempool) == PublisherOf(t.confirmed) && PayloadOf(t.mempool) == PayloadOf(t.confirmed)
    ensures Contribution(t.mempool) == Contribution(t.confirmed)
    ensures t.mempool.id == t.confirmed.id && t.mempool.path == t.confirmed.path
    ensures t.mempool.chainName == t.confirmed.chainName && t.mempool.contentType == t.confirmed.contentType
  {
    hide TrimSpace, ToLower, TrimPrefix, EqualFold, IsBinary, TargetFromPath, FirstNonEmptyTrimmed;
  }

  lemma FirstShape(twins: seq<Twin>, chain: string, protocol: string, cat: Catalogue, isMempool: bool)
    requires VersionChain(twins, chain, protocol, cat)
    ensures var pin := if isMempool then twins[0].mempool else twins[0].confirmed;
            Shape(NewRecord(pin, protocol, pin.id, isMempool), twins, chain, protocol, 1, if isMempool then 0 else 1)
  {
    hide TrimSpace, ToLower, Operation, PublisherOf, PayloadOf;
    SamePinFacts(twins[0]);
    assert WellNamed(twins[0].mempool, cat) && WellNamed(twins[0].confirmed, cat);
    var p := PublisherOf(twins[0].confirmed);
    assert Contribution(twins[0].confirmed) == p;
    assert InheritedPublisher(p, p) == p;
    assert Inherit(p, twins, 0, 1) == Inherit(p, twins, 1, 1);
  }

  /** The names and the kind of a version of a chain. */
  lemma VersionFacts(twins: seq<Twin>, chain: string, protocol: string, cat: Catalogue, k: nat)
    requires VersionChain(twins, chain, protocol, cat) && 1 <= k < |twins|
    ensures forall pin :: pin == twins[k].mempool || pin == twins[k].confirmed ==>
              && ToLower(TrimSpace(pin.chainName)) == chain && pin.id == twins[k].confirmed.id
              && pin.path == twins[k].confirmed.path && pin.contentType == twins[k].confirmed.contentType
              && Operation(pin) == Operation(twins[k].confirmed) && PayloadOf(pin) == PayloadOf(twins[k].confirmed)
              && PublisherOf(pin) == PublisherOf(twins[k].confirmed)
    ensures Operation(twins[k].confirmed) == MODIFY || Operation(twins[k].confirmed) == REVOKE
    ensures Operation(twins[k].confirmed) == REVOKE ==> twins[k].confirmed.timestamp > 0
  {
    hide TrimSpace, ToLower, Operation, PublisherOf, PayloadOf, TargetPinId;
    SamePinFacts(twins[k]);
    assert IsVersion(twins, k);
    assert WellNamed(twins[k].mempool, cat) && WellNamed(twins[k].confirmed, cat);
  }

  /** What a version passes on before any merge with a pending head. */
  lemma VersionPublisher(previous: Record, pin: Pin, protocol: string, isMempool: bool)
    requires Operation(pin) == MODIFY || Operation(pin) == REVOKE
    ensures NextVersion(previous, pin, protocol, isMempool).publisher ==
            InheritedPublisher(Contribution(pin), previous.publisher)
  {
    hide TrimSpace, ToLower, Operation, PublisherOf, PayloadOf;
  }

  lemma MempoolPublisher(p: Publisher, twins: seq<Twin>, m: nat, c: nat)
    requires 1 <= m < |twins| && c <= m && Inherit(p, twins, c, m) == PublisherAfter(twins, m)
    ensures Inherit(InheritedPublisher(Contribution(twins[m].confirmed), p), twins, c, m + 1) == PublisherAfter(twins, m + 1)
  {
    hide Contribution, PublisherOf;
    var q := Contribution(twins[m].confirmed);
    var p' := InheritedPublisher(q, p);
    InheritSnoc(p', twins, c, m);
    InheritSnoc(PublisherOf(twins[0].confirmed), twins, 1, m);
    InheritEarly(q, p', p, twins, c, m);
  }

  /** An unconfirmed version becomes the pending head. */
  lemma MempoolShape(r: Record, twins: seq<Twin>, chain: string, protocol: string, cat: Catalogue, m: nat, c: nat)
    requires VersionChain(twins, chain, protocol, cat) && 1 <= m < |twins| && c <= m
    requires Shape(r, twins, chain, protocol, m, c)
    ensures Shape(NextVersion(r, twins[m].mempool, protocol, true), twins, chain, protocol, m + 1, c)
  {
    hide TrimSpace, ToLower, Operation, PublisherOf, PayloadOf, VersionChain, Inherit, InheritedPublisher, Contribution,
         PublisherAfter;
    VersionFacts(twins, chain, protocol, cat, m);
    VersionPublisher(r, twins[m].mempool, protocol, true);
    ContributionOfTwin(twins, chain, protocol, cat, m);
    MempoolPublisher(r.publisher, twins, m, c);
  }

  lemma ContributionOfTwin(twins: seq<Twin>, chain: string, protocol: string, cat: Catalogue, k: nat)
    requires VersionChain(twins, chain, protocol, cat) && k < |twins|
    ensures Contribution(twins[k].mempool) == Contribution(twins[k].confirmed)
  {
    SamePinFacts(twins[k]);
  }

  /** A confirmed version under a different pending head joins the confirmed ones. */
  lemma ConfirmedUnderHead(r: Record, twins: seq<Twin>, chain: string, protocol: string, cat: Catalogue, m: nat, c: nat)
    requires VersionChain(twins, chain, protocol, cat) && 1 <= c && c + 1 < m <= |twins|
    requires Shape(r, twins, chain, protocol, m, c)
    ensures Shape(NextVersion(r, twins[c].confirmed, protocol, false), twins, chain, protocol, m, c + 1)
  {
    hide TrimSpace, ToLower, Operation, PublisherOf, PayloadOf, VersionChain, InheritedPublisher, Contribution,
         OperationAfter, TypeAfter, PayloadAfter, PublisherAfter;
    VersionFacts(twins, chain, protocol, cat, c);
    VersionPublisher(r, twins[c].confirmed, protocol, false);
    DistinctIds(twins, chain, protocol, cat, 0, c);
    DistinctIds(twins, chain, protocol, cat, c, m - 1);
    DistinctIds(twins, chain, protocol, cat, 0, m - 1);
  }

  /** The pending head itself is confirmed. */
  lemma HeadConfirmed(r: Record, twins: seq<Twin>, chain: string, protocol: string, cat: Catalogue, m: nat)
    requires VersionChain(twins, chain, protocol, cat) && 2 <= m <= |twins|
    requires Shape(r, twins, chain, protocol, m, m - 1)
    ensures Shape(NextVersion(r, twins[m - 1].confirmed, protocol, false), twins, chain, protocol, m, m)
  {
    hide TrimSpace, ToLower, Operation, PublisherOf, PayloadOf, VersionChain, InheritedPublisher, Contribution, PublisherAfter;
    VersionFacts(twins, chain, protocol, cat, m - 1);
    VersionPublisher(r, twins[m - 1].confirmed, protocol, false);
    DistinctIds(twins, chain, protocol, cat, 0, m - 1);
  }

  /** A confirmed version of which nothing was pending becomes the confirmed head. */
  lemma ConfirmedAsHead(r: Record, twins: seq<Twin>, chain: string, protocol: string, cat: Catalogue, m: nat)
    requires VersionChain(twins, chain, protocol, cat) && 1 <= m < |twins|
    requires Shape(r, twins, chain, protocol, m, m)
    ensures Shape(NextVersion(r, twins[m].confirmed, protocol, false), twins, chain, protocol, m + 1, m + 1)
  {
    hide TrimSpace, ToLower, Operation, PublisherOf, PayloadOf, VersionChain, InheritedPublisher, Contribution;
    VersionFacts(twins, chain, protocol, cat, m);
    VersionPublisher(r, twins[m].confirmed, protocol, false);
    DistinctIds(twins, chain, protocol, cat, 0, m);
    InheritSnoc(PublisherOf(twins[0].confirmed), twins, 1, m);
  }

  /** A confirmed version joins the confirmed ones; a different pending head stays. */
  lemma ConfirmedShape(r: Record, twins: seq<Twin>, chain: string, protocol: string, cat: Catalogue, m: nat, c: nat)
    requires VersionChain(twins, chain, protocol, cat) && 1 <= c <= m <= |twins| && c < |twins|
    requires Shape(r, twins, chain, protocol, m, c)
    ensures Shape(NextVersion(r, twins[c].confirmed, protocol, false), twins, chain, protocol,
                  if c == m then m + 1 else m, c + 1)
  {
    hide VersionChain, Shape, NextVersion;
    if c + 1 == m {
      HeadConfirmed(r, twins, chain, protocol, cat, m);
    } else if c < m {
      ConfirmedUnderHead(r, twins, chain, protocol, cat, m, c);
    } else {
      ConfirmedAsHead(r, twins, chain, protocol, cat, m);
    }
  }

  lemma DistinctIds(twins: seq<Twin>, chain: string, protocol: string, cat: Catalogue, j: nat, k: nat)
    requires VersionChain(twins, chain, protocol, cat) && j <= k < |twins|
    ensures twins[j].confirmed.id == twins[k].confirmed.id <==> j == k
    ensures twins[j].confirmed.id != "" && twins[k].confirmed.id != ""
  {}

  /** The confirmed create replaces the unconfirmed one under a pending head. */
  lemma CreateShape(r: Record, twins: seq<Twin>, chain: string, protocol: string, cat: Catalogue, m: nat)
    requires VersionChain(twins, chain, protocol, cat) && 1 <= m <= |twins|
    requires Shape(r, twins, chain, protocol, m, 0)
    ensures var pin := twins[0].confirmed;
            Shape(MergePending(r, NewRecord(pin, protocol, pin.id, false), pin.id), twins, chain, protocol, m, 1)
  {
    hide TrimSpace, ToLower, Operation, PublisherOf, PayloadOf, VersionChain, InheritedPublisher, Contribution;
    FirstShape(twins, chain, protocol, cat, false);
    DistinctIds(twins, chain, protocol, cat, 0, m - 1);
    var pin := twins[0].confirmed;
    var newest := NewRecord(pin, protocol, pin.id, false);
    var r' := MergePending(r, newest, pin.id);
    assert Inherit(r'.publisher, twins, 1, m) == PublisherAfter(twins, m);
    assert m == 1 ==> r' == newest;
  }

  // ---- The store at a point of a schedule ----

  /** The pin-to-source map with the first `m` pins of the chain added. */
  function SourcesAfter(base: map<PinKey, string>, twins: seq<Twin>, chain: string, m: nat): map<PinKey, string>
    requires m <= |twins|
  {
    if m == 0 then base
    else SourcesAfter(base, twins, chain, m - 1)[PinKey(chain, twins[m - 1].confirmed.id) := twins[0].confirmed.id]
  }

  lemma {:induction false} SourcesAfterMaps(base: map<PinKey, string>, twins: seq<Twin>, chain: string, m: nat, j: nat)
    requires j < m <= |twins|
    ensures var p := PinKey(chain, twins[j].confirmed.id); var all := SourcesAfter(base, twins, chain, m);
            p in all && all[p] == twins[0].confirmed.id
  {
    if j < m - 1 {
      SourcesAfterMaps(base, twins, chain, m - 1, j);
    }
  }

  /** No pin of the chain has been delivered. */
  ghost predicate Untouched(s: State, twins: seq<Twin>, chain: string)
  {
    forall k :: 0 <= k < |twins| ==> PinKey(chain, twins[k].confirmed.id) !in s.sources
  }

  /** The store `s0` with the chain's record and mappings as they are after `m` pins, `c` of them confirmed. */
  ghost predicate At(s0: State, s: State, twins: seq<Twin>, chain: string, protocol: string, cat: Catalogue, m: nat, c: nat)
    requires 1 <= m <= |twins| && c <= m
  {
    var k := RecordKey(chain, protocol, twins[0].confirmed.id);
    && k in s.records && s.records == s0.records[k := s.records[k]]
    && Shape(s.records[k], twins, chain, protocol, m, c)
    && s.sources == SourcesAfter(s0.sources, twins, chain, m)
    && Inv(s, cat)
  }

  /** How a delivery of the chain's `k`-th pin is dispatched. */
  lemma Dispatch(s: State, twins: seq<Twin>, chain: string, protocol: string, cat: Catalogue, k: nat, isMempool: bool)
    requires VersionChain(twins, chain, protocol, cat) && k < |twins|
    ensures var pin := if isMempool then twins[k].mempool else twins[k].confirmed;
            && WellNamed(pin, cat) && pin.chainName == chain && ToLower(TrimSpace(pin.chainName)) == chain
            && pin.id == twins[k].confirmed.id && pin.id != ""
            && Process(s, pin, isMempool) ==
               if k == 0 then ProcessCreate(s, pin, protocol, isMempool) else ProcessVersion(s, pin, protocol, isMempool)
  {
    hide TrimSpace, ToLower, Operation, PublisherOf, PayloadOf, ProtocolPath, IsPublishedProtocol, TargetPinId,
         ProcessCreate, ProcessVersion;
    SamePinFacts(twins[k]);
    assert k >= 1 ==> IsVersion(twins, k);
    assert WellNamed(if isMempool then twins[k].mempool else twins[k].confirmed, cat);
  }

  lemma ShapeKey(r: Record, twins: seq<Twin>, chain: string, protocol: string, m: nat, c: nat)
    requires 1 <= m <= |twins| && c <= m && Shape(r, twins, chain, protocol, m, c)
    ensures KeyOf(r) == RecordKey(chain, protocol, twins[0].confirmed.id)
    ensures r.currentPinId == twins[m - 1].confirmed.id && r.isMempool == (c < m)
  {}

  lemma ChainFacts(twins: seq<Twin>, chain: string, protocol: string, cat: Catalogue)
    requires VersionChain(twins, chain, protocol, cat)
    ensures twins != [] && chain != "" && protocol != "" && IsPublishedProtocol(protocol)
  {}

  /** Saving the chain's record, once its pins are mapped, changes that record only. */
  lemma SavedAt(s0: State, s: State, s': State, r: Record, twins: seq<Twin>, chain: string, protocol: string,
                cat: Catalogue, m: nat, c: nat)
    requires 1 <= m <= |twins| && c <= m && Inv(s', cat)
    requires Shape(r, twins, chain, protocol, m, c)
    requires var k := RecordKey(chain, protocol, twins[0].confirmed.id);
             k in s.records ==> s.records == s0.records[k := s.records[k]]
    requires RecordKey(chain, protocol, twins[0].confirmed.id) !in s.records ==> s.records == s0.records
    requires s'.records == s.records[KeyOf(r) := r]
    requires s'.sources == SourcesAfter(s0.sources, twins, chain, m)
    ensures At(s0, s', twins, chain, protocol, cat, m, c)
  {
    hide Shape, Inv, SourcesAfter;
    ShapeKey(r, twins, chain, protocol, m, c);
  }

  /** The first delivery of a create stores its record and maps it. */
  lemma CreateStores(s: State, pin: Pin, protocol: string, isMempool: bool)
    requires Load(s, pin.chainName, protocol, pin.id) == None && pin.id != ""
    requires Saveable(NewRecord(pin, protocol, pin.id, isMempool))
    ensures var s', r := ProcessCreate(s, pin, protocol, isMempool), NewRecord(pin, protocol, pin.id, isMempool);
            && s'.records == s.records[KeyOf(r) := r]
            && s'.sources == s.sources[PinKey(r.chainName, r.currentPinId) := r.sourcePinId]
  {
    hide IdentityKeys, PublisherOf, PayloadOf, Operation, TrimSpace, ToLower;
  }

  /** An untouched chain has no record, as a stored source is mapped. */
  lemma NotStored(s: State, twins: seq<Twin>, chain: string, protocol: string, cat: Catalogue)
    requires Inv(s, cat) && twins != [] && Untouched(s, twins, chain)
    ensures RecordKey(chain, protocol, twins[0].confirmed.id) !in s.records
  {
    hide IsPublishedProtocol, Plain, GoodMapping;
    var k := RecordKey(chain, protocol, twins[0].confirmed.id);
    assert k in s.records ==> GoodRecord(s, k, s.records[k], cat);
  }

  lemma FirstSource(base: map<PinKey, string>, twins: seq<Twin>, chain: string)
    requires twins != []
    ensures SourcesAfter(base, twins, chain, 1) == base[PinKey(chain, twins[0].confirmed.id) := twins[0].confirmed.id]
  {
    assert SourcesAfter(base, twins, chain, 0) == base;
  }

  lemma FirstDelivery(s0: State, twins: seq<Twin>, chain: string, protocol: string, cat: Catalogue, isMempool: bool)
    requires VersionChain(twins, chain, protocol, cat) && Inv(s0, cat) && Untouched(s0, twins, chain)
    ensures var pin := if isMempool then twins[0].mempool else twins[0].confirmed;
            At(s0, Process(s0, pin, isMempool), twins, chain, protocol, cat, 1, if isMempool then 0 else 1)
  {
    hide TrimSpace, ToLower, IdentityKeys, Shape, NewRecord, Process, ProcessCreate, VersionChain, IsPublishedProtocol,
         WellNamed, Inv, SourcesAfter, Untouched, At;
    ChainFacts(twins, chain, protocol, cat);
    var pin := if isMempool then twins[0].mempool else twins[0].confirmed;
    Dispatch(s0, twins, chain, protocol, cat, 0, isMempool);
    ProcessKeeps(s0, pin, isMempool, cat);
    FirstShape(twins, chain, protocol, cat, isMempool);
    var r := NewRecord(pin, protocol, pin.id, isMempool);
    ShapeKey(r, twins, chain, protocol, 1, if isMempool then 0 else 1);
    NotStored(s0, twins, chain, protocol, cat);
    CreateStores(s0, pin, protocol, isMempool);
    FirstSource(s0.sources, twins, chain);
    SavedAt(s0, s0, Process(s0, pin, isMempool), r, twins, chain, protocol, cat, 1, if isMempool then 0 else 1);
  }

  /** Mapping a delivered pin again changes nothing. */
  lemma MappedAgain(base: map<PinKey, string>, twins: seq<Twin>, chain: string, m: nat, j: nat)
    requires j < m <= |twins|
    ensures var all := SourcesAfter(base, twins, chain, m);
            all[PinKey(chain, twins[j].confirmed.id) := twins[0].confirmed.id] == all
  {
    hide SourcesAfter;
    SourcesAfterMaps(base, twins, chain, m, j);
  }

  /** The confirmed create rewrites the unconfirmed record. */
  lemma CreateRewrites(s: State, pin: Pin, protocol: string, previous: Record)
    requires Load(s, pin.chainName, protocol, pin.id) == Some(previous) && previous.isMempool
    requires var r := MergePending(previous, NewRecord(pin, protocol, pin.id, false), pin.id);
             Saveable(r) && r.currentPinId != ""
    ensures var s', r := ProcessCreate(s, pin, protocol, false), MergePending(previous, NewRecord(pin, protocol, pin.id, false), pin.id);
            && s'.records == s.records[KeyOf(r) := r]
            && s'.sources == s.sources[PinKey(r.chainName, r.currentPinId) := r.sourcePinId]
  {
    hide NewRecord, MergePending, IdentityKeys;
  }

  lemma CreateConfirmed(s0: State, s: State, twins: seq<Twin>, chain: string, protocol: string, cat: Catalogue, m: nat)
    requires VersionChain(twins, chain, protocol, cat) && 1 <= m <= |twins|
    requires At(s0, s, twins, chain, protocol, cat, m, 0)
    ensures At(s0, Process(s, twins[0].confirmed, false), twins, chain, protocol, cat, m, 1)
  {
    hide TrimSpace, ToLower, IdentityKeys, Shape, NewRecord, Process, VersionChain, IsPublishedProtocol, MergePending,
         SourcesAfter, ProcessCreate, WellNamed, Inv;
    var pin := twins[0].confirmed;
    var k := RecordKey(chain, protocol, pin.id);
    var previous := s.records[k];
    ChainFacts(twins, chain, protocol, cat);
    Dispatch(s, twins, chain, protocol, cat, 0, false);
    ProcessKeeps(s, pin, false, cat);
    ShapeKey(previous, twins, chain, protocol, m, 0);
    CreateShape(previous, twins, chain, protocol, cat, m);
    var r := MergePending(previous, NewRecord(pin, protocol, pin.id, false), pin.id);
    ShapeKey(r, twins, chain, protocol, m, 1);
    MappedAgain(s0.sources, twins, chain, m, m - 1);
    DistinctIds(twins, chain, protocol, cat, 0, m - 1);
    CreateRewrites(s, pin, protocol, previous);
    SavedAt(s0, s, Process(s, pin, false), r, twins, chain, protocol, cat, m, 1);
  }

  /** A version finds the chain's record through its target. */
  lemma TargetFound(s0: State, s: State, twins: seq<Twin>, chain: string, protocol: string, cat: Catalogue,
                    m: nat, c: nat, k: nat, isMempool: bool)
    requires VersionChain(twins, chain, protocol, cat) && 1 <= m <= |twins| && c <= m && 1 <= k <= m && k < |twins|
    requires At(s0, s, twins, chain, protocol, cat, m, c)
    ensures var pin := if isMempool then twins[k].mempool else twins[k].confirmed;
            && TargetPinId(pin) != ""
            && LoadByAnyPin(s, chain, protocol, TargetPinId(pin)) ==
               Some(s.records[RecordKey(chain, protocol, twins[0].confirmed.id)])
  {
    hide TrimSpace, ToLower, IdentityKeys, Shape, IsPublishedProtocol, SourcesAfter, TargetPinId, Operation, SourceOf,
         PublisherOf, WellNamed;
    SamePinFacts(twins[k]);
    assert IsVersion(twins, k);
    var target := TargetPinId(twins[k].confirmed);
    var j :| 0 <= j < k && target == twins[j].confirmed.id;
    DistinctIds(twins, chain, protocol, cat, 0, j);
    SourcesAfterMaps(s0.sources, twins, chain, m, j);
    SourceResolves(s, cat, chain, target);
  }

  /** What a version writes once its target is resolved. */
  lemma VersionEffect(s: State, pin: Pin, protocol: string, isMempool: bool, previous: Record, r: Record)
    requires TargetPinId(pin) != "" && LoadByAnyPin(s, pin.chainName, protocol, TargetPinId(pin)) == Some(previous)
    requires r == NextVersion(previous, pin, protocol, isMempool) && KeyOf(r) == KeyOf(previous)
    requires r.chainName == pin.chainName != "" && r.protocolPath != "" && r.sourcePinId != ""
    requires pin.id != "" && r.currentPinId != ""
    ensures var s' := ProcessVersion(s, pin, protocol, isMempool);
            && s'.records == s.records[KeyOf(r) := r]
            && s'.sources == s.sources[PinKey(r.chainName, r.currentPinId) := r.sourcePinId]
                                      [PinKey(r.chainName, pin.id) := r.sourcePinId]
  {
    hide TargetPinId, LoadByAnyPin, NextVersion, IdentityKeys;
  }

  lemma VersionDelivered(s0: State, s: State, twins: seq<Twin>, chain: string, protocol: string, cat: Catalogue,
                         m: nat, c: nat, k: nat, isMempool: bool, m': nat, c': nat)
    requires VersionChain(twins, chain, protocol, cat) && 1 <= m <= |twins| && c <= m && 1 <= k <= m && k < |twins|
    requires At(s0, s, twins, chain, protocol, cat, m, c)
    requires m' == (if k == m then m + 1 else m) && c' <= m'
    requires var pin := if isMempool then twins[k].mempool else twins[k].confirmed;
             Shape(NextVersion(s.records[RecordKey(chain, protocol, twins[0].confirmed.id)], pin, protocol, isMempool),
                   twins, chain, protocol, m', c')
    ensures var pin := if isMempool then twins[k].mempool else twins[k].confirmed;
            At(s0, Process(s, pin, isMempool), twins, chain, protocol, cat, m', c')
  {
    hide TrimSpace, ToLower, Shape, Process, ProcessVersion, VersionChain, IsPublishedProtocol, NextVersion, SourcesAfter,
         TargetPinId, LoadByAnyPin, WellNamed, Inv;
    var pin := if isMempool then twins[k].mempool else twins[k].confirmed;
    ChainFacts(twins, chain, protocol, cat);
    Dispatch(s, twins, chain, protocol, cat, k, isMempool);
    ProcessKeeps(s, pin, isMempool, cat);
    TargetFound(s0, s, twins, chain, protocol, cat, m, c, k, isMempool);
    var previous := s.records[RecordKey(chain, protocol, twins[0].confirmed.id)];
    var r := NextVersion(previous, pin, protocol, isMempool);
    ShapeKey(previous, twins, chain, protocol, m, c);
    ShapeKey(r, twins, chain, protocol, m', c');
    DistinctIds(twins, chain, protocol, cat, 0, m' - 1);
    VersionEffect(s, pin, protocol, isMempool, previous, r);
    SourcesStep(s0.sources, twins, chain, m, k);
    SavedAt(s0, s, Process(s, pin, isMempool), r, twins, chain, protocol, cat, m', c');
  }

  /** Mapping the current pin and the delivered pin adds the delivered pin if it is new. */
  lemma SourcesStep(base: map<PinKey, string>, twins: seq<Twin>, chain: string, m: nat, k: nat)
    requires 1 <= m <= |twins| && k <= m && k < |twins|
    ensures var m' := if k == m then m + 1 else m;
            var source := twins[0].confirmed.id;
            SourcesAfter(base, twins, chain, m)[PinKey(chain, twins[m' - 1].confirmed.id) := source]
              [PinKey(chain, twins[k].confirmed.id) := source] == SourcesAfter(base, twins, chain, m')
  {
    if k < m {
      MappedAgain(base, twins, chain, m, m - 1);
      MappedAgain(base, twins, chain, m, k);
    }
  }

  /** At every point of every schedule the store is the starting store with the chain's record in its shape. */
  lemma {:induction false} FollowShape(s0: State, twins: seq<Twin>, chain: string, protocol: string, cat: Catalogue,
                                       schedule: Schedule)
    requires VersionChain(twins, chain, protocol, cat) && Inv(s0, cat) && Untouched(s0, twins, chain)
    requires schedule != [] && After(schedule).delivered <= |twins|
    ensures After(schedule).delivered >= 1
    ensures At(s0, Follow(s0, twins, schedule), twins, chain, protocol, cat,
               After(schedule).delivered, After(schedule).confirmed)
  {
    hide VersionChain, Inv, Untouched, At, Process, Shape, NextVersion;
    var n := |schedule| - 1;
    var p := After(schedule[..n]);
    if n == 0 {
      FirstDelivery(s0, twins, chain, protocol, cat, schedule[0]);
      assert schedule[..0] == [];
    } else {
      FollowShape(s0, twins, chain, protocol, cat, schedule[..n]);
      var s := Follow(s0, twins, schedule[..n]);
      var m, c := p.delivered, p.confirmed;
      DeliveredNext(s0, s, twins, chain, protocol, cat, m, c, schedule[n]);
    }
  }

  lemma DeliveredNext(s0: State, s: State, twins: seq<Twin>, chain: string, protocol: string, cat: Catalogue,
                      m: nat, c: nat, isMempool: bool)
    requires VersionChain(twins, chain, protocol, cat) && 1 <= m <= |twins| && c <= m
    requires At(s0, s, twins, chain, protocol, cat, m, c)
    requires (isMempool || c == m) ==> m < |twins|
    ensures if isMempool then At(s0, Process(s, twins[m].mempool, true), twins, chain, protocol, cat, m + 1, c)
            else At(s0, Process(s, twins[c].confirmed, false), twins, chain, protocol, cat,
                    if c == m then m + 1 else m, c + 1)
  {
    hide VersionChain, Inv, Process, Shape, NextVersion;
    var r := s.records[RecordKey(chain, protocol, twins[0].confirmed.id)];
    if isMempool {
      MempoolShape(r, twins, chain, protocol, cat, m, c);
      VersionDelivered(s0, s, twins, chain, protocol, cat, m, c, m, true, m + 1, c);
    } else if c == 0 {
      CreateConfirmed(s0, s, twins, chain, protocol, cat, m);
    } else {
      ConfirmedShape(r, twins, chain, protocol, cat, m, c);
      VersionDelivered(s0, s, twins, chain, protocol, cat, m, c, c, false, if c == m then m + 1 else m, c + 1);
    }
  }

  /** Any two schedules that confirm the whole chain end in the same store: records, mappings and indexes. */
  lemma SchedulesConverge(s0: State, twins: seq<Twin>, chain: string, protocol: string, cat: Catalogue,
                          a: Schedule, b: Schedule)
    requires VersionChain(twins, chain, protocol, cat) && Inv(s0, cat) && Untouched(s0, twins, chain)
    requires After(a) == Progress(|twins|, |twins|) && After(b) == Progress(|twins|, |twins|)
    ensures Follow(s0, twins, a) == Follow(s0, twins, b)
  {
    hide Follow, VersionChain, Shape, Untouched, Lineage, SourcesAfter;
    ChainFacts(twins, chain, protocol, cat);
    assert a != [] && b != [];
    var n := |twins|;
    var s, t := Follow(s0, twins, a), Follow(s0, twins, b);
    var k := RecordKey(chain, protocol, twins[0].confirmed.id);
    FollowShape(s0, twins, chain, protocol, cat, a);
    FollowShape(s0, twins, chain, protocol, cat, b);
    ShapeUnique(s.records[k], t.records[k], twins, chain, protocol, n);
  }

  /** The run that sees every pin in the mempool first ends like the run that sees blocks only. */
  lemma PendingThenConfirmedConverges(s0: State, twins: seq<Twin>, chain: string, protocol: string, cat: Catalogue)
    requires VersionChain(twins, chain, protocol, cat) && Inv(s0, cat) && Untouched(s0, twins, chain)
    ensures After(PendingFirst(|twins|)).delivered <= |twins| && After(BlocksOnly(|twins|)).delivered <= |twins|
    ensures Follow(s0, twins, PendingFirst(|twins|)) == Follow(s0, twins, BlocksOnly(|twins|))
  {
    hide Follow, VersionChain, Inv, Untouched;
    PendingProgress(|twins|, |twins|);
    BlocksOnlyProgress(|twins|);
    SchedulesConverge(s0, twins, chain, protocol, cat, PendingFirst(|twins|), BlocksOnly(|twins|));
  }
}
