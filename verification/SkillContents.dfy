/** What a stored skill service says: its contents are determined by its accepted pins alone, in terms of the
    first, the last and the latest declaring ones. */
module SkillContents {
  import opened Wrappers
  import opened SkillService
  import opened SkillHistory

  /** The pins accepted for service `k`, in order of delivery. */
  function AcceptedPins(pins: seq<Pin>, k: Key): seq<Pin>
  {
    if pins == [] then []
    else
      var n := |pins| - 1;
      AcceptedPins(pins[..n], k) + if Accepted(Run(EMPTY, pins[..n]), pins[n]) == Some(k) then [pins[n]] else []
  }

  function Ids(pins: seq<Pin>): seq<string>
  {
    seq(|pins|, i requires 0 <= i < |pins| => pins[i].id)
  }

  // ---- A service in terms of its accepted pins ----

  predicate IsRevoke(pin: Pin) { Operation(pin) == REVOKE }

  predicate Declares(pin: Pin) { !IsRevoke(pin) && ServiceSummary(pin).Some? }

  /** A pin that moves the update time: a declaration, or a revoke with a block time. */
  predicate Dates(pin: Pin) { !IsRevoke(pin) || pin.timestamp > 0 }

  ghost predicate IsLatestDeclaration(summary: Summary, vs: seq<Pin>)
  {
    exists i :: 0 <= i < |vs| && Declares(vs[i]) && ServiceSummary(vs[i]) == Some(summary)
                && forall j :: i < j < |vs| ==> !Declares(vs[j])
  }

  ghost predicate IsLatestDate(time: int, vs: seq<Pin>)
  {
    exists i :: 0 <= i < |vs| && Dates(vs[i]) && vs[i].timestamp == time && forall j :: i < j < |vs| ==> !Dates(vs[j])
  }

  predicate IsLastNonEmpty(v: string, values: seq<string>)
  {
    if v == "" then forall i :: 0 <= i < |values| ==> values[i] == ""
    else exists i :: 0 <= i < |values| && values[i] == v && forall j :: i < j < |values| ==> values[j] == ""
  }

  /** What each accepted pin says of a field of the provider; revokes say nothing. */
  function Said(vs: seq<Pin>, field: Provider -> string): (values: seq<string>)
    ensures |values| == |vs|
  {
    seq(|vs|, i requires 0 <= i < |vs| => if IsRevoke(vs[i]) then "" else field(ProviderOf(vs[i])))
  }

  function MetaIdOf(p: Provider): string { p.metaId }

  function GlobalMetaIdOf(p: Provider): string { p.globalMetaId }

  function AddressOf(p: Provider): string { p.address }

  ghost predicate ProviderSaid(p: Provider, vs: seq<Pin>)
  {
    && IsLastNonEmpty(p.metaId, Said(vs, MetaIdOf))
    && IsLastNonEmpty(p.globalMetaId, Said(vs, GlobalMetaIdOf))
    && IsLastNonEmpty(p.address, Said(vs, AddressOf))
  }

  /** `r` is what the accepted pins `vs` amount to. */
  ghost predicate Describes(r: Service, vs: seq<Pin>, k: Key)
  {
    && vs != [] && Key(r.chain, r.source) == k
    && r.source == vs[0].id && r.createdAt == vs[0].timestamp && r.current == vs[|vs| - 1].id
    && IsLatestDeclaration(r.summary, vs) && IsLatestDate(r.updatedAt, vs) && ProviderSaid(r.provider, vs)
    && r.operation == OperationOf(vs) && r.status == 0
  }

  /** Revoked as soon as one pin revokes, otherwise as the last pin says. */
  function OperationOf(vs: seq<Pin>): string
    requires vs != []
  {
    if exists v <- vs :: IsRevoke(v) then REVOKE else Operation(vs[|vs| - 1])
  }

  // ---- One more accepted pin ----

  lemma SaidOne(pin: Pin, field: Provider -> string)
    ensures !IsRevoke(pin) ==> Said([pin], field) == [field(ProviderOf(pin))]
  {}

  lemma OneSaid(v: string)
    ensures IsLastNonEmpty(v, [v])
  {
    assert [v][0] == v;
  }

  lemma DescribesCreated(pin: Pin)
    requires Operation(pin) == CREATE && ServiceSummary(pin).Some?
    ensures Describes(NewService(pin, ServiceSummary(pin).value, pin.id), [pin], Key(pin.chainName, pin.id))
  {
    hide Operation, ServiceSummary, ProviderOf;
    var vs := [pin];
    assert vs[0] == pin;
    assert CREATE[0] != REVOKE[0];
    assert !IsRevoke(pin);
    SaidOne(pin, MetaIdOf);
    SaidOne(pin, GlobalMetaIdOf);
    SaidOne(pin, AddressOf);
    var r := NewService(pin, ServiceSummary(pin).value, pin.id);
    OneSaid(r.provider.metaId);
    OneSaid(r.provider.globalMetaId);
    OneSaid(r.provider.address);
    assert ProviderSaid(r.provider, vs);
    assert IsLatestDeclaration(r.summary, vs) && IsLatestDate(r.updatedAt, vs);
    assert forall v :: v in vs <==> v == pin;
  }

  lemma DeclarationNext(summary: Summary, vs: seq<Pin>, pin: Pin)
    requires IsLatestDeclaration(summary, vs)
    ensures IsLatestDeclaration(if Declares(pin) then ServiceSummary(pin).value else summary, vs + [pin])
  {
    hide IsRevoke, ServiceSummary;
    var more := vs + [pin];
    assert more[|vs|] == pin;
    var i :| 0 <= i < |vs| && Declares(vs[i]) && ServiceSummary(vs[i]) == Some(summary)
             && forall j :: i < j < |vs| ==> !Declares(vs[j]);
    assert more[i] == vs[i];
  }

  lemma DateNext(time: int, vs: seq<Pin>, pin: Pin)
    requires IsLatestDate(time, vs)
    ensures IsLatestDate(if Dates(pin) then pin.timestamp else time, vs + [pin])
  {
    hide IsRevoke;
    var more := vs + [pin];
    assert more[|vs|] == pin;
    var i :| 0 <= i < |vs| && Dates(vs[i]) && vs[i].timestamp == time && forall j :: i < j < |vs| ==> !Dates(vs[j]);
    assert more[i] == vs[i];
  }

  lemma LastNext(v: string, values: seq<string>, next: string)
    requires IsLastNonEmpty(v, values)
    ensures IsLastNonEmpty(if next == "" then v else next, values + [next])
  {
    var more := values + [next];
    assert more[|values|] == next;
    assert forall i :: 0 <= i < |values| ==> more[i] == values[i];
    if v != "" {
      var i :| 0 <= i < |values| && values[i] == v && forall j :: i < j < |values| ==> values[j] == "";
      assert more[i] == v;
    }
  }

  lemma SaidNext(vs: seq<Pin>, pin: Pin, field: Provider -> string)
    ensures Said(vs + [pin], field) == Said(vs, field) + [if IsRevoke(pin) then "" else field(ProviderOf(pin))]
  {
    hide IsRevoke, ProviderOf;
  }

  lemma ProviderNext(p: Provider, vs: seq<Pin>, pin: Pin)
    requires ProviderSaid(p, vs)
    ensures IsRevoke(pin) ==> ProviderSaid(p, vs + [pin])
    ensures var own := ProviderOf(pin);
            !IsRevoke(pin) ==>
              ProviderSaid(Provider(if own.metaId == "" then p.metaId else own.metaId,
                                    if own.globalMetaId == "" then p.globalMetaId else own.globalMetaId,
                                    if own.address == "" then p.address else own.address), vs + [pin])
  {
    hide IsRevoke, ProviderOf, Said, IsLastNonEmpty;
    SaidNext(vs, pin, MetaIdOf);
    SaidNext(vs, pin, GlobalMetaIdOf);
    SaidNext(vs, pin, AddressOf);
    var own := ProviderOf(pin);
    LastNext(p.metaId, Said(vs, MetaIdOf), if IsRevoke(pin) then "" else MetaIdOf(own));
    LastNext(p.globalMetaId, Said(vs, GlobalMetaIdOf), if IsRevoke(pin) then "" else GlobalMetaIdOf(own));
    LastNext(p.address, Said(vs, AddressOf), if IsRevoke(pin) then "" else AddressOf(own));
  }

  lemma OperationNext(vs: seq<Pin>, pin: Pin)
    requires vs != [] && Operation(pin) != CREATE
    ensures OperationOf(vs + [pin]) == if OperationOf(vs) == REVOKE then REVOKE else Operation(pin)
  {
    hide Operation;
    var more := vs + [pin];
    assert more[|vs|] == pin;
    assert vs[|vs| - 1] in vs;
    assert forall v :: v in more <==> v in vs || v == pin;
  }

  lemma DescribesVersion(r: Service, vs: seq<Pin>, k: Key, pin: Pin)
    requires Describes(r, vs, k) && pin.chainName == k.chain
    ensures Operation(pin) == MODIFY && ServiceSummary(pin).Some? ==>
              Describes(Modified(r, pin, ServiceSummary(pin).value), vs + [pin], k)
    ensures Operation(pin) == REVOKE ==> Describes(Revoked(r, pin), vs + [pin], k)
  {
    hide Operation, ServiceSummary, ProviderOf, IsLatestDeclaration, IsLatestDate, ProviderSaid, OperationOf;
    DeclarationNext(r.summary, vs, pin);
    DateNext(r.updatedAt, vs, pin);
    ProviderNext(r.provider, vs, pin);
    if Operation(pin) == MODIFY || Operation(pin) == REVOKE {
      OperationNext(vs, pin);
    }
  }

  // ---- Every reachable service ----

  /** What one delivery does to the service it is accepted for, and to the others. */
  lemma AcceptedWrites(s: State, h: History, cat: Catalogue, pin: Pin, k: Key)
    requires Inv(s, h, cat) && Accepted(s, pin) == Some(k)
    ensures var s' := Process(s, pin);
            && k in s'.services && k.chain == pin.chainName
            && (forall l :: l != k ==> (l in s'.services <==> l in s.services))
            && (forall l :: l != k && l in s.services ==> s'.services[l] == s.services[l])
            && (Operation(pin) == CREATE ==> k !in s.services && k.pin == pin.id && ServiceSummary(pin).Some?
                                             && s'.services[k] == NewService(pin, ServiceSummary(pin).value, pin.id))
            && (Operation(pin) != CREATE ==> k in s.services && VersionOf(s.services[k], s'.services[k], pin))
  {
    hide Process, Operation, IsServiceDelivery, IndexKeys, StaleKeys, ServiceSummary, ProviderOf, VersionTarget, Inv;
    AcceptedIsProcessed(s, pin);
    if Operation(pin) != CREATE {
      var l := VersionIsWritten(s, h, cat, pin);
      VersionStored(s, pin, k);
    }
  }

  predicate VersionOf(previous: Service, next: Service, pin: Pin)
  {
    || (Operation(pin) == MODIFY && ServiceSummary(pin).Some? && next == Modified(previous, pin, ServiceSummary(pin).value))
    || (Operation(pin) == REVOKE && next == Revoked(previous, pin))
  }

  lemma VersionStored(s: State, pin: Pin, k: Key)
    requires AcceptedFor(s, pin) == Some(k) && Operation(pin) != CREATE && k in s.services && k.chain == pin.chainName
    requires VersionTarget(s, pin) == Some(s.services[k])
    requires Key(s.services[k].chain, s.services[k].source) == k
    ensures var s' := ProcessService(s, pin);
            && s'.services.Keys == s.services.Keys
            && (forall l :: l != k && l in s.services ==> s'.services[l] == s.services[l])
            && VersionOf(s.services[k], s'.services[k], pin)
  {
    hide Operation, SaveVersion, ServiceSummary, ProviderOf, VersionTarget, Load;
    var previous := s.services[k];
    if Operation(pin) == MODIFY && ServiceSummary(pin).Some? {
      SavedVersion(s, Modified(previous, pin, ServiceSummary(pin).value), previous, pin);
    } else {
      SavedVersion(s, Revoked(previous, pin), previous, pin);
    }
  }

  lemma NothingWritten(s: State, pin: Pin)
    requires Accepted(s, pin).None?
    ensures Process(s, pin).services == s.services
  {
    hide Process, Accepted, ProtocolPath, ProcessRating;
    if ProtocolPath(pin.path) == PATH_RATE {
      RatingProcessed(s, pin);
      RatingKeepsServices(s, pin);
    } else {
      NotAccepted(s, pin);
    }
  }

  lemma IdsNext(vs: seq<Pin>, pin: Pin)
    ensures Ids(vs + [pin]) == Ids(vs) + [pin.id]
  {}

  /** In every reachable store each service is what its accepted pins amount to, and these are the pins of its
      history. */
  lemma {:induction false} ServiceIsItsHistory(pins: seq<Pin>, cat: Catalogue, k: Key)
    requires AllWellNamed(pins, cat)
    ensures k in Run(EMPTY, pins).services ==>
              Describes(Run(EMPTY, pins).services[k], AcceptedPins(pins, k), k)
              && k in HistoryOf(pins) && HistoryOf(pins)[k] == Ids(AcceptedPins(pins, k))
    ensures k !in Run(EMPTY, pins).services ==> AcceptedPins(pins, k) == [] && k !in HistoryOf(pins)
  {
    hide Process, WellNamed, Accepted, Describes, Operation, ServiceSummary, ProviderOf, Inv, Ids;
    if pins != [] {
      var n := |pins| - 1;
      var before, pin := pins[..n], pins[n];
      ServiceIsItsHistory(before, cat, k);
      ReachableStates(before, cat);
      var s, h := Run(EMPTY, before), HistoryOf(before);
      var accepted := Accepted(s, pin);
      if accepted.None? {
        NothingWritten(s, pin);
        assert AcceptedPins(before, k) + [] == AcceptedPins(before, k);
      } else {
        AcceptedWrites(s, h, cat, pin, accepted.value);
        IdsNext(AcceptedPins(before, k), pin);
        if accepted.value != k {
          assert AcceptedPins(before, k) + [] == AcceptedPins(before, k);
        } else if Operation(pin) == CREATE {
          DescribesCreated(pin);
          OneId(pin);
          assert AcceptedPins(pins, k) == [] + [pin];
        } else {
          DescribesVersion(s.services[k], AcceptedPins(before, k), k, pin);
        }
      }
    }
  }

  lemma OneId(pin: Pin)
    ensures Ids([] + [pin]) == [pin.id] && [] + [pin] == [pin]
  {}
}
