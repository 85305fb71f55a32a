/** Skill services: create, modify and revoke pins folded into one record per service, and rating pins
    folded into one aggregate per service. */
module SkillService {
  import opened Wrappers
  import opened GoStrings

  const PATH_SERVICE := "/protocols/skill-service"
  const PATH_RATE := "/protocols/skill-service-rate"

  const CREATE := "create"
  const MODIFY := "modify"
  const REVOKE := "revoke"

  /** The declaration in a service pin; the parts the aggregator only copies are kept together in `details`. */
  datatype Summary = Summary(serviceName: string, displayName: string, disabled: bool, details: seq<string>)

  datatype RatingSummary = RatingSummary(serviceId: string, paidTx: string, rate: int, comment: string)

  /** A pin as delivered; `summary` and `rating` are the JSON decoder's answers for its body. */
  datatype Pin = Pin(id: string, chainName: string, path: string, operation: string, originalId: string,
                     contentBody: string, summary: Option<Summary>, rating: Option<RatingSummary>,
                     metaId: string, createMetaId: string, globalMetaId: string,
                     address: string, createAddress: string, timestamp: int)

  datatype Key = Key(chain: string, pin: string)

  datatype Provider = Provider(metaId: string, globalMetaId: string, address: string)

  datatype Service = Service(source: string, current: string, chain: string, provider: Provider, summary: Summary,
                             status: int, operation: string, createdAt: int, updatedAt: int)

  datatype RatingPin = RatingPin(pinId: string, chain: string, rater: Provider, serviceId: string, source: string,
                                 paidTx: string, rate: int, comment: string, timestamp: int)

  datatype Aggregate = Aggregate(chain: string, source: string, sum: int, count: int)

  /** Secondary indexes by provider and by update time. */
  datatype IndexKey = ByProvider(chain: string, metaId: string, source: string)
                    | ByProviderMeta(metaId: string, updatedAt: int, chain: string, source: string)
                    | ByUpdated(chain: string, updatedAt: int, source: string)

  datatype State = State(services: map<Key, Service>, sources: map<Key, string>, index: set<IndexKey>,
                         ratings: map<Key, RatingPin>, aggregates: map<Key, Aggregate>)

  const EMPTY := State(map[], map[], {}, map[], map[])

  // ---- Reading a pin ----

  function Operation(pin: Pin): string { ToLower(TrimSpace(pin.operation)) }

  function ProtocolPath(path: string): string
  {
    var base := ToLower(TrimRight(TrimSpace(path), c => c == '/'));
    match Index(base, '@')
    case Some(at) => if at > 0 then base[..at] else base
    case None => base
  }

  function TargetFromPath(path: string): string
  {
    match Index(path, '@')
    case None => ""
    case Some(at) => TrimRight(TrimLeft(TrimSpace(path[at + 1..]), c => c == '/'), c => c == '/')
  }

  function Target(pin: Pin): (t: Option<string>)
    ensures t.Some? ==> t.value != pin.id && t.value != ""
  {
    var fromPath := TargetFromPath(pin.path);
    var original := TrimPrefix(TrimSpace(pin.originalId), "@");
    if fromPath != "" && fromPath != pin.id then Some(fromPath)
    else if original != "" && original != pin.id then Some(original)
    else None
  }

  function FirstNonBlank(a: string, b: string): string
  {
    if TrimSpace(a) != "" then a else if TrimSpace(b) != "" then b else ""
  }

  function ProviderOf(pin: Pin): Provider
  {
    Provider(FirstNonBlank(pin.metaId, pin.createMetaId), pin.globalMetaId,
             FirstNonBlank(pin.address, pin.createAddress))
  }

  /** The declaration of a service pin; one without any name is rejected. */
  function ServiceSummary(pin: Pin): Option<Summary>
  {
    if pin.contentBody == "" || pin.summary.None? then None
    else if TrimSpace(pin.summary.value.serviceName) == "" && TrimSpace(pin.summary.value.displayName) == "" then None
    else pin.summary
  }

  function RateSummary(pin: Pin): (r: Option<RatingSummary>)
    ensures r.Some? ==> 1 <= r.value.rate <= 5
  {
    if pin.contentBody == "" || pin.rating.None? then None
    else if pin.rating.value.rate < 1 || pin.rating.value.rate > 5 then None
    else if TrimSpace(pin.rating.value.serviceId) == "" then None
    else pin.rating
  }

  // ---- Services ----

  function NewService(pin: Pin, summary: Summary, source: string): Service
  {
    Service(source, pin.id, pin.chainName, ProviderOf(pin), summary, 0, Operation(pin), pin.timestamp, pin.timestamp)
  }

  function IndexKeys(r: Service): set<IndexKey>
  {
    (if r.provider.metaId != ""
     then {ByProvider(r.chain, r.provider.metaId, r.source),
           ByProviderMeta(r.provider.metaId, r.updatedAt, r.chain, r.source)} else {})
    + (if r.updatedAt > 0 then {ByUpdated(r.chain, r.updatedAt, r.source)} else {})
  }

  /** The keys removed before a rewrite; the update-time key stays when the time does not change. */
  function StaleKeys(r: Service, previous: Service): set<IndexKey>
  {
    (if previous.provider.metaId != ""
     then {ByProvider(previous.chain, previous.provider.metaId, previous.source),
           ByProviderMeta(previous.provider.metaId, previous.updatedAt, previous.chain, previous.source)} else {})
    + (if previous.updatedAt > 0 && previous.updatedAt != r.updatedAt
       then {ByUpdated(previous.chain, previous.updatedAt, previous.source)} else {})
  }

  function Save(s: State, r: Service, previous: Option<Service>): State
  {
    s.(services := s.services[Key(r.chain, r.source) := r],
       index := s.index - (if previous.Some? then StaleKeys(r, previous.value) else {}) + IndexKeys(r))
  }

  function MapPin(sources: map<Key, string>, chain: string, pin: string, source: string): map<Key, string>
  {
    if chain == "" || pin == "" || source == "" || pin == source then sources else sources[Key(chain, pin) := source]
  }

  function Load(s: State, chain: string, source: string): Option<Service>
  {
    if Key(chain, source) in s.services then Some(s.services[Key(chain, source)]) else None
  }

  function LoadByAnyPin(s: State, chain: string, pin: string): Option<Service>
  {
    if chain == "" || pin == "" then None
    else Load(s, chain, if Key(chain, pin) in s.sources then s.sources[Key(chain, pin)] else pin)
  }

  function ProcessCreate(s: State, pin: Pin): State
  {
    if ServiceSummary(pin).None? || Load(s, pin.chainName, pin.id).Some? then s
    else Save(s, NewService(pin, ServiceSummary(pin).value, pin.id), None)
  }

  function Modified(previous: Service, pin: Pin, summary: Summary): Service
  {
    var updated := NewService(pin, summary, previous.source);
    var own := updated.provider;
    updated.(createdAt := previous.createdAt,
             provider := Provider(if own.metaId == "" then previous.provider.metaId else own.metaId,
                                  if own.globalMetaId == "" then previous.provider.globalMetaId else own.globalMetaId,
                                  if own.address == "" then previous.provider.address else own.address),
             operation := if previous.operation == REVOKE then REVOKE else updated.operation)
  }

  function Revoked(previous: Service, pin: Pin): Service
  {
    previous.(operation := REVOKE, current := pin.id,
              updatedAt := if pin.timestamp > 0 then pin.timestamp else previous.updatedAt)
  }

  /** The service a version pin is accepted for: its target must be the current version. */
  function VersionTarget(s: State, pin: Pin): (r: Option<Service>)
    ensures r.Some? ==> Target(pin) == Some(r.value.current)
  {
    if Target(pin).None? then None
    else
      match LoadByAnyPin(s, pin.chainName, Target(pin).value)
      case None => None
      case Some(previous) => if Target(pin).value == previous.current then Some(previous) else None
  }

  function SaveVersion(s: State, r: Service, previous: Service, pin: Pin): State
  {
    var saved := Save(s, r, Some(previous));
    saved.(sources := MapPin(saved.sources, pin.chainName, pin.id, previous.source))
  }

  function ProcessModify(s: State, pin: Pin): State
  {
    if VersionTarget(s, pin).None? || ServiceSummary(pin).None? then s
    else
      var previous := VersionTarget(s, pin).value;
      SaveVersion(s, Modified(previous, pin, ServiceSummary(pin).value), previous, pin)
  }

  function ProcessRevoke(s: State, pin: Pin): State
  {
    if VersionTarget(s, pin).None? then s
    else
      var previous := VersionTarget(s, pin).value;
      SaveVersion(s, Revoked(previous, pin), previous, pin)
  }

  function ProcessService(s: State, pin: Pin): State
  {
    if pin.chainName == "" || pin.id == "" then s
    else if Operation(pin) == CREATE then ProcessCreate(s, pin)
    else if Operation(pin) == MODIFY then ProcessModify(s, pin)
    else if Operation(pin) == REVOKE then ProcessRevoke(s, pin)
    else s
  }

  function ProcessTargeted(s: State, pin: Pin): State
  {
    var target := TargetFromPath(pin.path);
    if target == "" || pin.chainName == "" || LoadByAnyPin(s, pin.chainName, target).None? then s
    else ProcessService(s, pin)
  }

  // ---- Indexes by global identity ----

  /** The global identity of the profile found for a provider at the time of a save; empty when none is found. */
  type Profiles = Provider -> string

  datatype GlobalKey = ByGlobal(id: string, updatedAt: int, chain: string, source: string)
                     | ByGlobalChain(id: string, chain: string, updatedAt: int, source: string)

  /** The identity a record carries and that of its profile, the second only when it differs by more than case. */
  function GlobalIds(p: Provider, profiles: Profiles): set<string>
  {
    var own, found := TrimSpace(p.globalMetaId), TrimSpace(profiles(p));
    (if own == "" then {} else {own}) + if found == "" || (own != "" && ToLower(own) == ToLower(found)) then {} else {found}
  }

  function GlobalKeys(r: Service, profiles: Profiles): set<GlobalKey>
  {
    (set id | id in GlobalIds(r.provider, profiles) :: ByGlobal(id, r.updatedAt, r.chain, r.source))
    + set id | id in GlobalIds(r.provider, profiles) :: ByGlobalChain(id, r.chain, r.updatedAt, r.source)
  }

  /** The keys of the replaced record are removed as its profile is now, not as it was when they were written. */
  function SaveGlobals(g: set<GlobalKey>, r: Service, previous: Option<Service>, profiles: Profiles): set<GlobalKey>
  {
    g - (if previous.Some? then GlobalKeys(previous.value, profiles) else {}) + GlobalKeys(r, profiles)
  }

  function GlobalsAfterCreate(s: State, g: set<GlobalKey>, pin: Pin, profiles: Profiles): set<GlobalKey>
  {
    if ServiceSummary(pin).None? || Load(s, pin.chainName, pin.id).Some? then g
    else SaveGlobals(g, NewService(pin, ServiceSummary(pin).value, pin.id), None, profiles)
  }

  function GlobalsAfterModify(s: State, g: set<GlobalKey>, pin: Pin, profiles: Profiles): set<GlobalKey>
  {
    if VersionTarget(s, pin).None? || ServiceSummary(pin).None? then g
    else
      var previous := VersionTarget(s, pin).value;
      SaveGlobals(g, Modified(previous, pin, ServiceSummary(pin).value), Some(previous), profiles)
  }

  function GlobalsAfterRevoke(s: State, g: set<GlobalKey>, pin: Pin, profiles: Profiles): set<GlobalKey>
  {
    if VersionTarget(s, pin).None? then g
    else
      var previous := VersionTarget(s, pin).value;
      SaveGlobals(g, Revoked(previous, pin), Some(previous), profiles)
  }

  function GlobalsAfterService(s: State, g: set<GlobalKey>, pin: Pin, profiles: Profiles): set<GlobalKey>
  {
    if pin.chainName == "" || pin.id == "" then g
    else if Operation(pin) == CREATE then GlobalsAfterCreate(s, g, pin, profiles)
    else if Operation(pin) == MODIFY then GlobalsAfterModify(s, g, pin, profiles)
    else if Operation(pin) == REVOKE then GlobalsAfterRevoke(s, g, pin, profiles)
    else g
  }

  function GlobalsAfter(s: State, g: set<GlobalKey>, pin: Pin, profiles: Profiles): set<GlobalKey>
  {
    var target := TargetFromPath(pin.path);
    if pin.path == "" then g
    else if ProtocolPath(pin.path) == PATH_SERVICE then GlobalsAfterService(s, g, pin, profiles)
    else if ProtocolPath(pin.path) == PATH_RATE then g
    else if (Operation(pin) == MODIFY || Operation(pin) == REVOKE) && target != "" && pin.chainName != ""
            && LoadByAnyPin(s, pin.chainName, target).Some? then GlobalsAfterService(s, g, pin, profiles)
    else g
  }

  // ---- Ratings ----

  /** The source of the service a rating names by any of its pins; empty when the service is unknown. */
  function RatedSource(s: State, chain: string, serviceId: string): string
  {
    match LoadByAnyPin(s, chain, serviceId)
    case None => ""
    case Some(r) => if r.chain != "" && r.chain != chain then "" else r.source
  }

  function NewRating(pin: Pin, summary: RatingSummary, source: string): RatingPin
  {
    RatingPin(pin.id, pin.chainName, ProviderOf(pin), summary.serviceId, source, summary.paidTx, summary.rate,
              summary.comment, pin.timestamp)
  }

  function Bump(aggregates: map<Key, Aggregate>, chain: string, source: string, rate: int): map<Key, Aggregate>
  {
    var k := Key(chain, source);
    var agg := if k in aggregates then aggregates[k] else Aggregate(chain, source, 0, 0);
    aggregates[k := agg.(sum := agg.sum + rate, count := agg.count + 1)]
  }

  function ProcessRating(s: State, pin: Pin): State
  {
    if pin.id == "" || pin.chainName == "" || RateSummary(pin).None? || Key(pin.chainName, pin.id) in s.ratings then s
    else
      var summary := RateSummary(pin).value;
      var source := RatedSource(s, pin.chainName, summary.serviceId);
      s.(ratings := s.ratings[Key(pin.chainName, pin.id) := NewRating(pin, summary, source)],
         aggregates := if source == "" then s.aggregates else Bump(s.aggregates, pin.chainName, source, summary.rate))
  }

  function Process(s: State, pin: Pin): State
  {
    var base := ProtocolPath(pin.path);
    if pin.path == "" then s
    else if base == PATH_SERVICE then ProcessService(s, pin)
    else if base == PATH_RATE then ProcessRating(s, pin)
    else if Operation(pin) == MODIFY || Operation(pin) == REVOKE then ProcessTargeted(s, pin)
    else s
  }

  function Run(s: State, pins: seq<Pin>): State
  {
    if pins == [] then s else Process(Run(s, pins[..|pins| - 1]), pins[|pins| - 1])
  }
}
