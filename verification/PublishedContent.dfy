/** The published-content fold: create, modify and revoke pins, each delivered unconfirmed, confirmed or both,
    folded into one record per source pin with a pin-to-source map and identity indexes. */
module PublishedContent {
  import opened Wrappers
  import opened GoStrings
  import opened KeyEncoding

  const PATH_SIMPLE_BUZZ := "/protocols/simplebuzz"
  const PATH_META_APP := "/protocols/metaapp"
  const PATH_METABOT_SKILL := "/protocols/metabot-skill"

  const CREATE := "create"
  const MODIFY := "modify"
  const REVOKE := "revoke"

  // ---- Pins ----

  /** A pin as delivered. `json` is the JSON decoder's answer for its payload text, `encodedGlobal`
      the address encoder's answer for its address. */
  datatype Pin = Pin(id: string, chainName: string, path: string, operation: string, originalId: string,
                     contentType: string, contentBody: string, contentSummary: string, json: Option<string>,
                     metaId: string, createMetaId: string, globalMetaId: string,
                     address: string, createAddress: string, encodedGlobal: string,
                     timestamp: Int64, number: Int64, host: string)

  datatype Payload = Payload(text: string, json: Option<string>, exposed: bool)

  datatype Publisher = Publisher(globalMetaId: string, metaId: string, address: string)

  datatype Record = Record(sourcePinId: string, currentPinId: string, chainName: string, protocolPath: string,
                           publisher: Publisher, operation: string, hidden: bool, isMempool: bool,
                           contentType: string, payload: Payload, createdAt: Int64, updatedAt: Int64,
                           sourceNumber: Int64, currentNumber: Int64, sourcePath: string, currentPath: string,
                           sourceHost: string, currentHost: string)

  function Operation(pin: Pin): string { ToLower(TrimSpace(pin.operation)) }

  function ProtocolPath(path: string): string
  {
    var base := TrimRight(TrimSpace(path), c => c == '/');
    var cut := match Index(base, '@')
               case Some(at) => if at > 0 then base[..at] else base
               case None => base;
    ToLower(cut)
  }

  predicate IsPublishedProtocol(protocol: string)
  {
    protocol == PATH_SIMPLE_BUZZ || protocol == PATH_META_APP || protocol == PATH_METABOT_SKILL
  }

  function TargetFromPath(path: string): string
  {
    match Index(path, '@')
    case None => ""
    case Some(at) => TrimRight(TrimLeft(TrimSpace(path[at + 1..]), c => c == '/'), c => c == '/')
  }

  /** The pin a modify or revoke refers to; empty when it names none but itself. */
  function TargetPinId(pin: Pin): (t: string)
    ensures t != "" ==> t != pin.id
  {
    var fromPath := TargetFromPath(pin.path);
    if fromPath != "" && fromPath != pin.id then fromPath
    else
      var original := TrimPrefix(TrimSpace(pin.originalId), "@");
      if original != "" && original != pin.id then original else ""
  }

  function CanonicalGlobal(pin: Pin): string
  {
    var global := TrimSpace(pin.globalMetaId);
    var address := FirstNonEmptyTrimmed(pin.address, pin.createAddress);
    if address == "" then global
    else if global != "" && !EqualFold(global, address) then global
    else if pin.encodedGlobal != "" then pin.encodedGlobal
    else global
  }

  function PublisherOf(pin: Pin): Publisher
  {
    Publisher(CanonicalGlobal(pin),
              FirstNonEmptyTrimmed(pin.metaId, pin.createMetaId),
              FirstNonEmptyTrimmed(pin.address, pin.createAddress))
  }

  predicate IsBinary(contentType: string, raw: string)
  {
    var ct := ToLower(TrimSpace(contentType));
    || Contains(ct, "octet-stream") || Contains(ct, "zip") || Contains(ct, "image/") || Contains(ct, "audio/")
    || Contains(ct, "video/") || 0 as char in raw
  }

  function PayloadOf(pin: Pin): Payload
  {
    var body := TrimSpace(pin.contentBody);
    var raw := if body == "" then TrimSpace(pin.contentSummary) else body;
    if raw == "" || IsBinary(pin.contentType, raw) then Payload("", None, false)
    else if raw[0] == '{' && pin.json.Some? then Payload("", pin.json, true)
    else Payload(raw, None, true)
  }

  function NewRecord(pin: Pin, protocol: string, source: string, isMempool: bool): Record
  {
    Record(source, pin.id, ToLower(TrimSpace(pin.chainName)), protocol, PublisherOf(pin),
           Operation(pin), Operation(pin) == REVOKE, isMempool, pin.contentType, PayloadOf(pin),
           pin.timestamp, pin.timestamp, pin.number, pin.number, pin.path, pin.path, pin.host, pin.host)
  }

  /** A confirmed delivery of an older version keeps the pending head of the record. */
  function MergePending(previous: Record, candidate: Record, confirmedId: string): Record
  {
    if candidate.isMempool || !previous.isMempool then candidate
    else if previous.currentPinId == "" || previous.currentPinId == previous.sourcePinId
            || previous.currentPinId == confirmedId then candidate
    else candidate.(currentPinId := previous.currentPinId, currentNumber := previous.currentNumber,
                    currentPath := previous.currentPath, currentHost := previous.currentHost,
                    operation := previous.operation, hidden := previous.hidden, isMempool := true,
                    contentType := previous.contentType, payload := previous.payload,
                    updatedAt := previous.updatedAt)
  }

  function InheritedPublisher(own: Publisher, previous: Publisher): Publisher
  {
    Publisher(if own.globalMetaId == "" then previous.globalMetaId else own.globalMetaId,
              if own.metaId == "" then previous.metaId else own.metaId,
              if own.address == "" then previous.address else own.address)
  }

  function Modified(previous: Record, pin: Pin, protocol: string, isMempool: bool): Record
  {
    var newest := NewRecord(pin, protocol, previous.sourcePinId, isMempool);
    var updated := newest.(createdAt := previous.createdAt, sourceNumber := previous.sourceNumber,
                          sourcePath := previous.sourcePath, sourceHost := previous.sourceHost,
                          publisher := InheritedPublisher(newest.publisher, previous.publisher),
                          payload := if newest.payload.exposed then newest.payload else previous.payload);
    var kept := if previous.operation == REVOKE then updated.(operation := REVOKE, hidden := true) else updated;
    MergePending(previous, kept, pin.id)
  }

  function Revoked(previous: Record, pin: Pin, isMempool: bool): Record
  {
    var updated := previous.(operation := REVOKE, hidden := true, isMempool := isMempool, currentPinId := pin.id,
                             currentNumber := pin.number, currentPath := pin.path, currentHost := pin.host,
                             contentType := if pin.contentType != "" then pin.contentType else previous.contentType,
                             updatedAt := if pin.timestamp > 0 then pin.timestamp else previous.updatedAt);
    MergePending(previous, updated, pin.id)
  }

  // ---- The store ----

  datatype RecordKey = RecordKey(chain: string, protocol: string, source: string)

  datatype PinKey = PinKey(chain: string, pin: string)

  datatype State = State(records: map<RecordKey, Record>, sources: map<PinKey, string>, index: set<string>)

  const EMPTY := State(map[], map[], {})

  function KeyOf(r: Record): RecordKey { RecordKey(r.chainName, r.protocolPath, r.sourcePinId) }

  function SortTimestamp(r: Record): Int64
  {
    if r.protocolPath == PATH_SIMPLE_BUZZ then r.createdAt
    else if r.updatedAt > 0 then r.updatedAt
    else r.createdAt
  }

  function Identity(kind: Kind, r: Record): string
  {
    match kind
    case ByGlobal => r.publisher.globalMetaId
    case ByMetaId => r.publisher.metaId
    case ByAddress => r.publisher.address
  }

  function RecordIndexKey(kind: Kind, r: Record): string
  {
    IndexKey(kind, r.protocolPath, Identity(kind, r), SortTimestamp(r), r.chainName, r.sourcePinId)
  }

  function IdentityKeys(r: Record): set<string>
  {
    (if r.publisher.globalMetaId != "" then {RecordIndexKey(ByGlobal, r)} else {})
    + (if r.publisher.metaId != "" then {RecordIndexKey(ByMetaId, r)} else {})
    + (if r.publisher.address != "" then {RecordIndexKey(ByAddress, r)} else {})
  }

  function Save(s: State, r: Record, previous: Option<Record>): State
  {
    var removed := if previous.Some? then IdentityKeys(previous.value) else {};
    State(s.records[KeyOf(r) := r],
          MapPin(s.sources, r.chainName, r.currentPinId, r.sourcePinId),
          s.index - removed + IdentityKeys(r))
  }

  function MapPin(sources: map<PinKey, string>, chain: string, pin: string, source: string): map<PinKey, string>
  {
    if chain == "" || pin == "" || source == "" then sources else sources[PinKey(chain, pin) := source]
  }

  const MAX_LOOKUPS: nat := 32

  /** Following the pin-to-source map from `current`, at most `steps` more times. */
  function SourceFrom(sources: map<PinKey, string>, chain: string, current: string, seen: set<string>, steps: nat): string
    decreases steps
  {
    if steps == 0 || current in seen then ""
    else if PinKey(chain, current) !in sources then current
    else
      var next := TrimSpace(sources[PinKey(chain, current)]);
      if next == "" || next == current then current
      else SourceFrom(sources, chain, next, seen + {current}, steps - 1)
  }

  function SourceOf(sources: map<PinKey, string>, chain: string, pin: string): string
  {
    if chain == "" || pin == "" then "" else SourceFrom(sources, chain, pin, {}, MAX_LOOKUPS)
  }

  function Load(s: State, chain: string, protocol: string, source: string): Option<Record>
  {
    var k := RecordKey(chain, protocol, source);
    if k in s.records then Some(s.records[k]) else None
  }

  function LoadByAnyPin(s: State, chain: string, protocol: string, pin: string): Option<Record>
  {
    var source := SourceOf(s.sources, chain, pin);
    if source == "" then None else Load(s, chain, protocol, source)
  }

  // ---- One delivery ----

  function ProcessCreate(s: State, pin: Pin, protocol: string, isMempool: bool): State
  {
    var newest := NewRecord(pin, protocol, pin.id, isMempool);
    match Load(s, pin.chainName, protocol, pin.id)
    case Some(existing) =>
      if !isMempool && existing.isMempool
      then SaveOrFail(s, MergePending(existing, newest, pin.id), Some(existing))
      else s
    case None => SaveOrFail(s, newest, None)
  }

  /** Saving fails, without effect, when a key field is missing. */
  function SaveOrFail(s: State, r: Record, previous: Option<Record>): State
  {
    if Saveable(r) then Save(s, r, previous) else s
  }

  predicate Saveable(r: Record)
  {
    r.chainName != "" && r.protocolPath != "" && r.sourcePinId != ""
  }

  function SaveVersion(s: State, r: Record, previous: Record, pin: Pin): State
  {
    if !Saveable(r) then s
    else
      var saved := Save(s, r, Some(previous));
      saved.(sources := MapPin(saved.sources, pin.chainName, pin.id, previous.sourcePinId))
  }

  function ProcessVersion(s: State, pin: Pin, protocol: string, isMempool: bool): State
  {
    if TargetPinId(pin) == "" then s
    else
      match LoadByAnyPin(s, pin.chainName, protocol, TargetPinId(pin))
      case None => s
      case Some(previous) => SaveVersion(s, NextVersion(previous, pin, protocol, isMempool), previous, pin)
  }

  function NextVersion(previous: Record, pin: Pin, protocol: string, isMempool: bool): Record
  {
    if Operation(pin) == MODIFY then Modified(previous, pin, protocol, isMempool)
    else Revoked(previous, pin, isMempool)
  }

  function Process(s: State, pin: Pin, isMempool: bool): State
  {
    var protocol := ProtocolPath(pin.path);
    if pin.id == "" || pin.chainName == "" || !IsPublishedProtocol(protocol) then s
    else if Operation(pin) == CREATE then ProcessCreate(s, pin, protocol, isMempool)
    else if Operation(pin) == MODIFY || Operation(pin) == REVOKE then ProcessVersion(s, pin, protocol, isMempool)
    else s
  }
}
