/** What a delivery stores, field by field, in terms of the fields of the pin itself. */
module PublishedFields {
  import opened Wrappers
  import opened GoStrings
  import opened KeyEncoding
  import opened PinPaths
  import opened PublishedContent
  import opened PublishedInvariants
  import opened PublishedVisibility

  // ---- Reading a pin ----

  const PROTOCOLS: set<string> := {"/protocols/simplebuzz", "/protocols/metaapp", "/protocols/metabot-skill"}

  /** The protocol is read in any case, before slashes or a target. */
  lemma ProtocolRead(base: string, rest: string)
    requires ToLower(base) in PROTOCOLS
    ensures ProtocolPath(base) == ToLower(base) && ProtocolPath(base + "/") == ToLower(base)
    ensures ProtocolPath(base + "@" + rest) == ToLower(base) && IsPublishedProtocol(ToLower(base))
  {
    PlainProtocol(base);
    NothingToTrim(base);
    NothingToTrim(base + "/");
    NothingToCut(base);
    OneSlash(base);
    NoneFound(base, '@');
    BaseStays(base, rest);
    hide TrimSpace, TrimRight, TrimLeft, Index;
    var t := TrimRight(TrimSpace(base + "@" + rest), c => c == '/');
    assert t[..|base|] == base;
  }

  /** Letters, slashes and a hyphen. */
  lemma PlainProtocol(base: string)
    requires ToLower(base) in PROTOCOLS
    ensures base != "" && '@' !in base && base[0] == '/' && !IsSpace(base[|base| - 1]) && base[|base| - 1] != '/'
  {
    var p := ToLower(base);
    ProtocolLetters();
    assert |base| == |p|;
    assert p[0] == LowerChar(base[0]) && p[|p| - 1] == LowerChar(base[|p| - 1]);
    assert forall i :: 0 <= i < |base| ==> p[i] == LowerChar(base[i]) && p[i] in p;
  }

  lemma ProtocolLetters()
    ensures forall p <- PROTOCOLS :: p != "" && '@' !in p && p[0] == '/' && 'a' <= p[|p| - 1] <= 'z'
  {}

  lemma PublishedProtocols(protocol: string)
    ensures IsPublishedProtocol(protocol) <==> protocol in PROTOCOLS
  {}

  /** The target after the "@" of the path comes first, then the original id, without its "@" if it has one. */
  lemma TargetRead(pin: Pin, base: string, id: string)
    requires '@' !in base && PlainId(id) && id != pin.id
    ensures pin.path == base + "@" + id ==> TargetPinId(pin) == id
    ensures pin.path == base && (pin.originalId == id || pin.originalId == "@" + id) ==> TargetPinId(pin) == id
  {
    hide TrimSpace, TrimRight, TrimLeft, Index;
    var path := base + "@" + id;
    assert path[..|base|] == base && path[|base| + 1..] == id;
    FirstIndex(path, |base|, '@');
    NoneFound(base, '@');
    NothingToTrim(id);
    NothingToTrim("@" + id);
    NoSlashes(id);
    assert ("@" + id)[1..] == id;
  }

  /** A pin without a mapping, or mapped to itself, is its own source; one that leads around in a circle has none. */
  lemma SourceRead(sources: map<PinKey, string>, chain: string, a: string, b: string)
    requires chain != "" && a != "" && b != "" && a != b && TrimSpace(a) == a && TrimSpace(b) == b
    ensures PinKey(chain, a) !in sources ==> SourceOf(sources, chain, a) == a
    ensures PinKey(chain, a) in sources && sources[PinKey(chain, a)] == a ==> SourceOf(sources, chain, a) == a
    ensures PinKey(chain, a) in sources && sources[PinKey(chain, a)] == b && PinKey(chain, b) !in sources ==>
              SourceOf(sources, chain, a) == b
    ensures (PinKey(chain, a) in sources && sources[PinKey(chain, a)] == b
             && PinKey(chain, b) in sources && sources[PinKey(chain, b)] == a) ==> SourceOf(sources, chain, a) == ""
  {
    hide TrimSpace;
    if PinKey(chain, a) in sources && sources[PinKey(chain, a)] == b {
      assert SourceOf(sources, chain, a) == SourceFrom(sources, chain, b, {} + {a}, 31);
      if PinKey(chain, b) in sources && sources[PinKey(chain, b)] == a {
        assert SourceFrom(sources, chain, b, {} + {a}, 31) == SourceFrom(sources, chain, a, {} + {a} + {b}, 30);
      }
    }
  }

  // ---- Contents ----

  /** A declared binary type, or a zero byte. */
  ghost predicate BinaryContent(contentType: string, raw: string)
  {
    || (exists marker, i: nat ::
          marker in {"octet-stream", "zip", "image/", "audio/", "video/"} && OccursAt(marker, ToLower(TrimSpace(contentType)), i))
    || (exists i :: 0 <= i < |raw| && raw[i] as int == 0)
  }

  lemma BinaryRead(contentType: string, raw: string)
    ensures IsBinary(contentType, raw) <==> BinaryContent(contentType, raw)
  {
    hide Contains, TrimSpace, ToLower;
    var ct := ToLower(TrimSpace(contentType));
    forall marker: string
      ensures Contains(ct, marker) <==> exists i: nat :: OccursAt(marker, ct, i)
    {
      ContainsOccurrence(ct, marker);
    }
  }

  /** The body, or the summary when the body is blank, as text or as a JSON object; nothing when it is blank or binary. */
  ghost predicate PayloadRead(payload: Payload, pin: Pin)
  {
    var raw := if TrimSpace(pin.contentBody) != "" then TrimSpace(pin.contentBody) else TrimSpace(pin.contentSummary);
    if raw == "" || BinaryContent(pin.contentType, raw) then payload == Payload("", None, false)
    else if raw[0] == '{' && pin.json != None then payload == Payload("", pin.json, true)
    else payload == Payload(raw, None, true)
  }

  lemma PayloadIsRead(pin: Pin)
    ensures PayloadRead(PayloadOf(pin), pin)
  {
    hide TrimSpace, IsBinary, BinaryContent;
    BinaryRead(pin.contentType, TrimSpace(pin.contentBody));
    BinaryRead(pin.contentType, TrimSpace(pin.contentSummary));
  }

  // ---- Identity ----

  /** The pin's own value, or that of the pin that created it when the own one is blank. */
  predicate OwnOrCreated(v: string, own: string, created: string)
  {
    (TrimSpace(own) != "" ==> v == TrimSpace(own)) && (TrimSpace(own) == "" ==> v == TrimSpace(created))
  }

  /** The declared global identity, unless it is blank or only repeats the address: then the encoded address, if there
      is one. */
  predicate GlobalRead(v: string, pin: Pin, address: string)
  {
    var declared := TrimSpace(pin.globalMetaId);
    if address == "" || pin.encodedGlobal == "" then v == declared
    else if declared == "" || ToLower(declared) == ToLower(address) then v == pin.encodedGlobal
    else v == declared
  }

  ghost predicate PublisherRead(p: Publisher, pin: Pin)
  {
    && OwnOrCreated(p.metaId, pin.metaId, pin.createMetaId)
    && OwnOrCreated(p.address, pin.address, pin.createAddress)
    && GlobalRead(p.globalMetaId, pin, p.address)
  }

  lemma PublisherIsRead(pin: Pin)
    ensures PublisherRead(PublisherOf(pin), pin)
  {
    hide TrimSpace, ToLower;
  }

  // ---- What a delivery stores ----

  /** Position in the chain, path and host of the pin that created the record, and of its current version. */
  ghost predicate SourceIs(r: Record, pin: Pin)
  {
    r.createdAt == pin.timestamp && r.sourceNumber == pin.number && r.sourcePath == pin.path && r.sourceHost == pin.host
  }

  ghost predicate SameSource(r: Record, previous: Record)
  {
    && r.sourcePinId == previous.sourcePinId && r.createdAt == previous.createdAt
    && r.sourceNumber == previous.sourceNumber && r.sourcePath == previous.sourcePath && r.sourceHost == previous.sourceHost
  }

  ghost predicate HeadIs(r: Record, pin: Pin)
  {
    r.currentPinId == pin.id && r.currentNumber == pin.number && r.currentPath == pin.path && r.currentHost == pin.host
  }

  ghost predicate SameHead(r: Record, previous: Record)
  {
    && r.currentPinId == previous.currentPinId && r.currentNumber == previous.currentNumber
    && r.currentPath == previous.currentPath && r.currentHost == previous.currentHost
    && r.operation == previous.operation && r.hidden == previous.hidden && r.isMempool
    && r.contentType == previous.contentType && r.payload == previous.payload && r.updatedAt == previous.updatedAt
  }

  /** A create that is not stored yet is stored with the fields of its pin. */
  lemma CreateStored(s: State, pin: Pin, isMempool: bool)
    requires ProtocolPath(pin.path) in PROTOCOLS && ToLower(TrimSpace(pin.operation)) == "create"
    requires pin.id != "" && ToLower(TrimSpace(pin.chainName)) == pin.chainName != ""
    requires RecordKey(pin.chainName, ProtocolPath(pin.path), pin.id) !in s.records
    ensures var k := RecordKey(pin.chainName, ProtocolPath(pin.path), pin.id);
            var s' := Process(s, pin, isMempool);
            && k in s'.records && s'.records == s.records[k := s'.records[k]]
            && var r := s'.records[k];
               && r.sourcePinId == pin.id && r.chainName == pin.chainName && r.protocolPath == ProtocolPath(pin.path)
               && SourceIs(r, pin) && HeadIs(r, pin) && r.updatedAt == pin.timestamp
               && r.operation == "create" && !r.hidden && r.isMempool == isMempool
               && PublisherRead(r.publisher, pin) && r.contentType == pin.contentType && PayloadRead(r.payload, pin)
  {
    hide TrimSpace, ToLower, ProtocolPath, PublisherOf, PayloadOf, IdentityKeys, PublisherRead, PayloadRead;
    PublishedProtocols(ProtocolPath(pin.path));
    ProtocolNotEmpty(ProtocolPath(pin.path));
    OperationsDiffer();
    PublisherIsRead(pin);
    PayloadIsRead(pin);
  }

  /** A confirmed create takes the place of the same one pending, under a different pending head. */
  lemma CreateConfirmed(s: State, pin: Pin, previous: Record)
    requires ProtocolPath(pin.path) in PROTOCOLS && ToLower(TrimSpace(pin.operation)) == "create"
    requires pin.id != "" && ToLower(TrimSpace(pin.chainName)) == pin.chainName != ""
    requires var k := RecordKey(pin.chainName, ProtocolPath(pin.path), pin.id);
             k in s.records && s.records[k] == previous && previous.isMempool && previous.sourcePinId == pin.id
    ensures var k := RecordKey(pin.chainName, ProtocolPath(pin.path), pin.id);
            var s' := Process(s, pin, false);
            && k in s'.records
            && var r := s'.records[k];
               && r.sourcePinId == pin.id && SourceIs(r, pin) && PublisherRead(r.publisher, pin)
               && if previous.currentPinId != "" && previous.currentPinId != pin.id then SameHead(r, previous)
                  else HeadIs(r, pin) && r.updatedAt == pin.timestamp && r.operation == "create" && !r.hidden && !r.isMempool
                       && r.contentType == pin.contentType && PayloadRead(r.payload, pin)
  {
    hide TrimSpace, ToLower, ProtocolPath, PublisherOf, PayloadOf, IdentityKeys, PublisherRead, PayloadRead;
    PublishedProtocols(ProtocolPath(pin.path));
    ProtocolNotEmpty(ProtocolPath(pin.path));
    OperationsDiffer();
    PublisherIsRead(pin);
    PayloadIsRead(pin);
  }

  /** Nothing happens to a create that is stored already, unless it is confirmed and was pending. */
  lemma CreateRepeated(s: State, pin: Pin, isMempool: bool)
    requires ToLower(TrimSpace(pin.operation)) == "create"
    requires var k := RecordKey(pin.chainName, ProtocolPath(pin.path), pin.id);
             k in s.records && (isMempool || !s.records[k].isMempool)
    ensures Process(s, pin, isMempool) == s
  {
    hide TrimSpace, ToLower, ProtocolPath, PublisherOf, PayloadOf;
  }

  /** The identity field of a version is its own, or inherited when it has none. */
  ghost predicate Inherited(p: Publisher, own: Publisher, previous: Publisher)
  {
    && (p.metaId == if own.metaId != "" then own.metaId else previous.metaId)
    && (p.address == if own.address != "" then own.address else previous.address)
    && (p.globalMetaId == if own.globalMetaId != "" then own.globalMetaId else previous.globalMetaId)
  }

  /** A modify that reaches its record becomes its head, with its own fields or inherited ones; under another pending
      head only the identity changes. */
  lemma ModifyStored(s: State, pin: Pin, isMempool: bool, cat: Catalogue)
    requires Inv(s, cat) && WellNamed(pin, cat)
    requires ToLower(TrimSpace(pin.operation)) == "modify" && Reached(s, pin).Some?
    ensures var previous, s' := Reached(s, pin).value, Process(s, pin, isMempool);
            && KeyOf(previous) in s'.records && s'.records == s.records[KeyOf(previous) := s'.records[KeyOf(previous)]]
            && var r := s'.records[KeyOf(previous)];
               && SameSource(r, previous)
               && (exists own, payload ::
                     && PublisherRead(own, pin) && Inherited(r.publisher, own, previous.publisher)
                     && PayloadRead(payload, pin)
                     && if KeepsPendingHead(previous, pin, isMempool) then SameHead(r, previous)
                        else && HeadIs(r, pin) && r.updatedAt == pin.timestamp && r.isMempool == isMempool
                             && r.contentType == pin.contentType
                             && r.payload == (if payload.exposed then payload else previous.payload)
                             && r.operation == (if previous.operation == "revoke" then "revoke" else "modify")
                             && r.hidden == (previous.operation == "revoke"))
  {
    hide TrimSpace, ToLower, ProtocolPath, PublisherOf, PayloadOf, IdentityKeys, PublisherRead, PayloadRead, Plain,
         TargetPinId, SourceOf, IsPublishedProtocol, Inherited, SameHead, HeadIs, SameSource;
    ReachedIsStored(s, pin, cat);
    var previous := Reached(s, pin).value;
    var protocol := ProtocolPath(pin.path);
    ReachedKey(s, pin, cat);
    OperationsDiffer();
    PublisherIsRead(pin);
    PayloadIsRead(pin);
    ModifyFields(previous, pin, protocol, isMempool);
    NextKey(previous, pin, protocol, isMempool);
  }

  lemma ReachedKey(s: State, pin: Pin, cat: Catalogue)
    requires Inv(s, cat) && WellNamed(pin, cat) && Reached(s, pin).Some?
    ensures var r := Reached(s, pin).value; r.protocolPath == ProtocolPath(pin.path) && r.chainName == ToLower(TrimSpace(pin.chainName))
  {
    hide TrimSpace, ToLower, ProtocolPath, PublisherOf, TargetPinId, SourceOf, Operation;
    var k := RecordKey(pin.chainName, ProtocolPath(pin.path), SourceOf(s.sources, pin.chainName, TargetPinId(pin)));
    assert GoodRecord(s, k, s.records[k], cat);
  }

  lemma ModifyFields(previous: Record, pin: Pin, protocol: string, isMempool: bool)
    requires Operation(pin) == "modify"
    ensures var r := Modified(previous, pin, protocol, isMempool);
            && SameSource(r, previous) && Inherited(r.publisher, PublisherOf(pin), previous.publisher)
            && if KeepsPendingHead(previous, pin, isMempool) then SameHead(r, previous)
               else && HeadIs(r, pin) && r.updatedAt == pin.timestamp && r.isMempool == isMempool
                    && r.contentType == pin.contentType
                    && r.payload == (if PayloadOf(pin).exposed then PayloadOf(pin) else previous.payload)
                    && r.operation == (if previous.operation == "revoke" then "revoke" else "modify")
                    && r.hidden == (previous.operation == "revoke")
  {
    hide TrimSpace, ToLower, Operation, PublisherOf, PayloadOf;
    OperationsDiffer();
  }

  /** A revoke that reaches its record hides it and becomes its head, unless another head is pending; identity, payload
      and source stay. */
  lemma RevokeStored(s: State, pin: Pin, isMempool: bool, cat: Catalogue)
    requires Inv(s, cat) && WellNamed(pin, cat)
    requires ToLower(TrimSpace(pin.operation)) == "revoke" && Reached(s, pin).Some?
    ensures var previous, s' := Reached(s, pin).value, Process(s, pin, isMempool);
            && KeyOf(previous) in s'.records && s'.records == s.records[KeyOf(previous) := s'.records[KeyOf(previous)]]
            && var r := s'.records[KeyOf(previous)];
               && SameSource(r, previous) && r.publisher == previous.publisher && r.payload == previous.payload
               && if KeepsPendingHead(previous, pin, isMempool) then SameHead(r, previous)
                  else && HeadIs(r, pin) && r.isMempool == isMempool && r.operation == "revoke" && r.hidden
                       && r.contentType == (if pin.contentType != "" then pin.contentType else previous.contentType)
                       && r.updatedAt == (if pin.timestamp > 0 then pin.timestamp else previous.updatedAt)
  {
    hide TrimSpace, ToLower, ProtocolPath, PublisherOf, PayloadOf, IdentityKeys, Plain, TargetPinId, SourceOf,
         IsPublishedProtocol, SameHead, HeadIs, SameSource, Revoked;
    ReachedIsStored(s, pin, cat);
    ReachedKey(s, pin, cat);
    OperationsDiffer();
    RevokeFields(Reached(s, pin).value, pin, isMempool);
    NextKey(Reached(s, pin).value, pin, ProtocolPath(pin.path), isMempool);
  }

  lemma RevokeFields(previous: Record, pin: Pin, isMempool: bool)
    ensures var r := Revoked(previous, pin, isMempool);
            && SameSource(r, previous) && r.publisher == previous.publisher && r.payload == previous.payload
            && if KeepsPendingHead(previous, pin, isMempool) then SameHead(r, previous)
               else && HeadIs(r, pin) && r.isMempool == isMempool && r.operation == "revoke" && r.hidden
                    && r.contentType == (if pin.contentType != "" then pin.contentType else previous.contentType)
                    && r.updatedAt == (if pin.timestamp > 0 then pin.timestamp else previous.updatedAt)
  {
  }

  /** All other deliveries store nothing. */
  lemma NothingStored(s: State, pin: Pin, isMempool: bool)
    requires || ProtocolPath(pin.path) !in PROTOCOLS || pin.id == "" || pin.chainName == ""
             || (ToLower(TrimSpace(pin.operation)) != "create" && Reached(s, pin) == None)
             || ToLower(TrimSpace(pin.operation)) !in {"create", "modify", "revoke"}
    ensures Process(s, pin, isMempool) == s
  {
    hide TrimSpace, ToLower, ProtocolPath, TargetPinId, LoadByAnyPin, ProcessCreate;
    PublishedProtocols(ProtocolPath(pin.path));
  }
}
