/** What a delivery to the skill-service aggregator stores, field by field, in terms of the fields of the pin itself. */
module SkillFields {
  import opened Wrappers
  import opened GoStrings
  import opened PinPaths
  import opened SkillService
  import opened SkillHistory

  const SERVICE: string := "/protocols/skill-service"
  const RATE: string := "/protocols/skill-service-rate"

  // ---- Reading a pin ----

  /** The protocol is read in any case, before slashes or a target. */
  lemma ProtocolRead(base: string, rest: string)
    requires ToLower(base) == SERVICE || ToLower(base) == RATE
    ensures ProtocolPath(base) == ToLower(base) && ProtocolPath(base + "/") == ToLower(base)
    ensures ProtocolPath(base + "@" + rest) == ToLower(base)
  {
    hide TrimSpace, TrimRight, Index, ToLower;
    PlainProtocol(base);
    NothingToTrim(base);
    NothingToTrim(base + "/");
    NothingToCut(base);
    OneSlash(base);
    NoneFound(ToLower(base), '@');
    BeforeTarget(base, rest);
  }

  lemma BeforeTarget(base: string, rest: string)
    requires base != "" && !IsSpace(base[0]) && '@' !in base && '@' !in ToLower(base)
    ensures ProtocolPath(base + "@" + rest) == ToLower(base)
  {
    hide TrimSpace, TrimRight, Index, ToLower;
    BaseStays(base, rest);
    LowerBase(base, TrimRight(TrimSpace(base + "@" + rest), c => c == '/'));
  }

  lemma LowerBase(base: string, t: string)
    requires base + "@" <= t && '@' !in ToLower(base)
    ensures Index(ToLower(t), '@') == Some(|base|) && ToLower(t)[..|base|] == ToLower(base)
  {
    hide Index;
    assert t == base + "@" + t[|base| + 1..];
    ToLowerConcat(base + "@", t[|base| + 1..]);
    ToLowerConcat(base, "@");
    assert ToLower("@") == "@";
    assert ToLower(t)[..|base|] == ToLower(base) && ToLower(t)[|base|] == '@';
    FirstIndex(ToLower(t), |base|, '@');
  }

  lemma PlainProtocol(base: string)
    requires ToLower(base) == SERVICE || ToLower(base) == RATE
    ensures base != "" && '@' !in base && '@' !in ToLower(base) && base[0] == '/'
    ensures !IsSpace(base[|base| - 1]) && base[|base| - 1] != '/'
  {
    var p := ToLower(base);
    ProtocolLetters();
    assert |base| == |p|;
    assert p[0] == LowerChar(base[0]) && p[|p| - 1] == LowerChar(base[|p| - 1]);
    assert forall i :: 0 <= i < |base| ==> p[i] == LowerChar(base[i]) && p[i] in p;
  }

  lemma ProtocolLetters()
    ensures '@' !in SERVICE && SERVICE[0] == '/' && SERVICE[|SERVICE| - 1] == 'e' && SERVICE == PATH_SERVICE
    ensures '@' !in RATE && RATE[0] == '/' && RATE[|RATE| - 1] == 'e' && RATE == PATH_RATE && |RATE| != |SERVICE|
  {}

  /** The target after the "@" of the path comes first, then the original id, without its "@" if it has one. */
  lemma TargetRead(pin: Pin, base: string, id: string)
    requires '@' !in base && PlainId(id)
    ensures pin.path == base + "@" + id ==> TargetFromPath(pin.path) == id && (id != pin.id ==> Target(pin) == Some(id))
    ensures pin.path == base && (pin.originalId == id || pin.originalId == "@" + id) && id != pin.id ==> Target(pin) == Some(id)
    ensures pin.path == base ==> TargetFromPath(pin.path) == ""
  {
    hide TrimSpace, TrimRight, TrimLeft, Index;
    var path := base + "@" + id;
    assert path[..|base|] == base && path[|base| + 1..] == id;
    FirstIndex(path, |base|, '@');
    NoneFound(base, '@');
    NothingToTrim(id);
    NothingToTrim("@" + id);
    NoSlashes(id);
    assert ("@" + id)[1..] == id;
  }

  // ---- Provider and declaration ----

  /** The pin's own value, or that of the pin that created it when the own one is blank; both are kept as written. */
  predicate OwnOrCreated(v: string, own: string, created: string)
  {
    if TrimSpace(own) != "" then v == own else if TrimSpace(created) != "" then v == created else v == ""
  }

  predicate ProviderRead(p: Provider, pin: Pin)
  {
    && OwnOrCreated(p.metaId, pin.metaId, pin.createMetaId) && OwnOrCreated(p.address, pin.address, pin.createAddress)
    && p.globalMetaId == pin.globalMetaId
  }

  lemma ProviderIsRead(pin: Pin)
    ensures ProviderRead(ProviderOf(pin), pin)
  {
    hide TrimSpace;
  }

  /** The decoded body, which must name the service. */
  predicate Declared(pin: Pin, summary: Summary)
  {
    && pin.contentBody != "" && pin.summary == Some(summary)
    && (TrimSpace(summary.serviceName) != "" || TrimSpace(summary.displayName) != "")
  }

  lemma SummaryIff(pin: Pin, summary: Summary)
    ensures ServiceSummary(pin) == Some(summary) <==> Declared(pin, summary)
  {
    hide TrimSpace;
  }

  /** The decoded body, which must rate from one to five and name a service. */
  predicate Rated(pin: Pin, rating: RatingSummary)
  {
    pin.contentBody != "" && pin.rating == Some(rating) && rating.rate in {1, 2, 3, 4, 5} && TrimSpace(rating.serviceId) != ""
  }

  lemma RatingIff(pin: Pin, rating: RatingSummary)
    ensures RateSummary(pin) == Some(rating) <==> Rated(pin, rating)
  {
    hide TrimSpace;
  }

  // ---- What a delivery stores ----

  /** A create with a declaration that is not stored yet is stored with the fields of its pin. */
  lemma CreateStored(s: State, pin: Pin, summary: Summary)
    requires pin.path != "" && ProtocolPath(pin.path) == SERVICE && ToLower(TrimSpace(pin.operation)) == "create"
    requires pin.id != "" && pin.chainName != "" && Declared(pin, summary) && Key(pin.chainName, pin.id) !in s.services
    ensures var k, s' := Key(pin.chainName, pin.id), Process(s, pin);
            && s'.sources == s.sources && s'.ratings == s.ratings && s'.aggregates == s.aggregates
            && k in s'.services && s'.services == s.services[k := s'.services[k]]
            && var r := s'.services[k];
               && r.source == pin.id && r.current == pin.id && r.chain == pin.chainName && ProviderRead(r.provider, pin)
               && r.summary == summary && r.status == 0 && r.operation == "create"
               && r.createdAt == pin.timestamp && r.updatedAt == pin.timestamp
  {
    hide TrimSpace, ToLower, ProtocolPath, ProviderOf, ProviderRead, Declared, ServiceSummary, IndexKeys;
    SummaryIff(pin, summary);
    ProviderIsRead(pin);
    ProtocolLetters();
  }

  /** The fields of a provider are the pin's own, or inherited when it has none. */
  predicate Inherited(p: Provider, own: Provider, previous: Provider)
  {
    && p.metaId == (if own.metaId != "" then own.metaId else previous.metaId)
    && p.globalMetaId == (if own.globalMetaId != "" then own.globalMetaId else previous.globalMetaId)
    && p.address == (if own.address != "" then own.address else previous.address)
  }

  /** The pin targets the current version of a stored service, found by its own id or by a mapped one. */
  predicate Targets(s: State, pin: Pin, previous: Service)
  {
    Target(pin) == Some(previous.current) && LoadByAnyPin(s, pin.chainName, previous.current) == Some(previous)
  }

  lemma TargetsIff(s: State, pin: Pin, previous: Service)
    ensures VersionTarget(s, pin) == Some(previous) <==> Targets(s, pin, previous)
  {
    hide Target, LoadByAnyPin;
  }

  /** A service is found by its own id, or by an id mapped to it. */
  lemma FoundIff(s: State, chain: string, id: string, r: Service)
    ensures LoadByAnyPin(s, chain, id) == Some(r) <==>
            && chain != "" && id != ""
            && var k := Key(chain, if Key(chain, id) in s.sources then s.sources[Key(chain, id)] else id);
               k in s.services && s.services[k] == r
  {}

  /** The pin reaches the service aggregator: by its protocol, or as a version of a known service under another path. */
  predicate Routed(s: State, pin: Pin)
  {
    && pin.path != "" && pin.id != "" && pin.chainName != ""
    && (ProtocolPath(pin.path) == SERVICE
        || (ProtocolPath(pin.path) != RATE && ToLower(TrimSpace(pin.operation)) in {"modify", "revoke"}
            && TargetFromPath(pin.path) != "" && LoadByAnyPin(s, pin.chainName, TargetFromPath(pin.path)) != None))
  }

  lemma RoutedToService(s: State, pin: Pin)
    requires Routed(s, pin)
    ensures Process(s, pin) == ProcessService(s, pin)
  {
    hide TrimSpace, ToLower, ProtocolPath, LoadByAnyPin, TargetFromPath, ProcessService;
    ProtocolLetters();
  }

  /** A modify of the current version becomes it, with its own fields or inherited ones. */
  lemma ModifyStored(s: State, pin: Pin, summary: Summary, previous: Service)
    requires Routed(s, pin) && ToLower(TrimSpace(pin.operation)) == "modify" && Declared(pin, summary) && Targets(s, pin, previous)
    ensures var k, s' := Key(pin.chainName, previous.source), Process(s, pin);
            && s'.ratings == s.ratings && s'.aggregates == s.aggregates
            && k in s'.services && s'.services == s.services[k := s'.services[k]]
            && var r := s'.services[k];
               && r.source == previous.source && r.current == pin.id && r.chain == pin.chainName
               && (exists own :: ProviderRead(own, pin) && Inherited(r.provider, own, previous.provider))
               && r.summary == summary && r.status == 0 && r.createdAt == previous.createdAt && r.updatedAt == pin.timestamp
               && r.operation == (if previous.operation == "revoke" then "revoke" else "modify")
    ensures previous.source != "" && pin.id != previous.source ==>
              Process(s, pin).sources == s.sources[Key(pin.chainName, pin.id) := previous.source]
  {
    hide TrimSpace, ToLower, ProtocolPath, ProviderOf, ProviderRead, Declared, ServiceSummary, IndexKeys, StaleKeys, Target,
         LoadByAnyPin, TargetFromPath, VersionTarget, Targets, Inherited;
    hide Process, Routed, Modified;
    RoutedToService(s, pin);
    SummaryIff(pin, summary);
    ProviderIsRead(pin);
    OperationsDiffer();
    TargetsIff(s, pin, previous);
    ModifyFields(previous, pin, summary);
    NamedPin(s, pin);
  }

  lemma ModifyFields(previous: Service, pin: Pin, summary: Summary)
    requires Operation(pin) == "modify"
    ensures var r := Modified(previous, pin, summary);
            && r.source == previous.source && r.current == pin.id && r.chain == pin.chainName
            && Inherited(r.provider, ProviderOf(pin), previous.provider)
            && r.summary == summary && r.status == 0 && r.createdAt == previous.createdAt && r.updatedAt == pin.timestamp
            && r.operation == (if previous.operation == "revoke" then "revoke" else "modify")
  {
    hide Operation, ProviderOf;
  }

  /** A revoke of the current version becomes it and marks the service revoked; all else stays. */
  lemma RevokeStored(s: State, pin: Pin, previous: Service)
    requires Routed(s, pin) && ToLower(TrimSpace(pin.operation)) == "revoke" && Targets(s, pin, previous)
    ensures var k, s' := Key(previous.chain, previous.source), Process(s, pin);
            && s'.ratings == s.ratings && s'.aggregates == s.aggregates
            && s'.services == s.services[k := previous.(operation := "revoke", current := pin.id,
                 updatedAt := if pin.timestamp > 0 then pin.timestamp else previous.updatedAt)]
    ensures previous.source != "" && pin.id != previous.source ==>
              Process(s, pin).sources == s.sources[Key(pin.chainName, pin.id) := previous.source]
  {
    hide TrimSpace, ToLower, ProtocolPath, ProviderOf, IndexKeys, StaleKeys, Target, LoadByAnyPin, TargetFromPath, VersionTarget,
         Targets, ServiceSummary;
    hide Process, Routed;
    RoutedToService(s, pin);
    OperationsDiffer();
    TargetsIff(s, pin, previous);
    NamedPin(s, pin);
  }

  lemma OperationsDiffer()
    ensures CREATE != MODIFY && CREATE != REVOKE && MODIFY != REVOKE
  {
    assert CREATE[0] == 'c' && MODIFY[0] == 'm' && REVOKE[0] == 'r';
  }

  lemma NamedPin(s: State, pin: Pin)
    requires Routed(s, pin)
    ensures pin.id != "" && pin.chainName != ""
  {
    hide TrimSpace, ToLower, ProtocolPath, LoadByAnyPin, TargetFromPath;
  }

  /** A rating pin that is not stored yet is stored as it was decoded, and counts for its service when that is known. */
  lemma RatingStored(s: State, pin: Pin, rating: RatingSummary)
    requires pin.path != "" && ProtocolPath(pin.path) == RATE && pin.id != "" && pin.chainName != ""
    requires Rated(pin, rating) && Key(pin.chainName, pin.id) !in s.ratings
    ensures var p, s' := Key(pin.chainName, pin.id), Process(s, pin);
            var found := LoadByAnyPin(s, pin.chainName, rating.serviceId);
            && s'.services == s.services && s'.sources == s.sources && s'.index == s.index
            && p in s'.ratings && s'.ratings == s.ratings[p := s'.ratings[p]]
            && var x := s'.ratings[p];
               && x.pinId == pin.id && x.chain == pin.chainName && ProviderRead(x.rater, pin)
               && x.serviceId == rating.serviceId && x.paidTx == rating.paidTx && x.rate == rating.rate
               && x.comment == rating.comment && x.timestamp == pin.timestamp
               && (found.Some? && found.value.chain in {"", pin.chainName} ==> x.source == found.value.source)
               && (found == None || found.value.chain !in {"", pin.chainName} ==> x.source == "")
               && if x.source == "" then s'.aggregates == s.aggregates
                  else var k := Key(pin.chainName, x.source);
                       && s'.aggregates == s.aggregates[k := s'.aggregates[k]]
                       && s'.aggregates[k].sum == (if k in s.aggregates then s.aggregates[k].sum else 0) + rating.rate
                       && s'.aggregates[k].count == (if k in s.aggregates then s.aggregates[k].count else 0) + 1
  {
    hide TrimSpace, ToLower, ProtocolPath, ProviderOf, ProviderRead, Rated, RateSummary, LoadByAnyPin;
    RatingIff(pin, rating);
    ProviderIsRead(pin);
    ProtocolLetters();
  }

  /** All other deliveries store nothing. */
  lemma NothingStored(s: State, pin: Pin)
    requires var op := ToLower(TrimSpace(pin.operation));
             if pin.path != "" && ProtocolPath(pin.path) == RATE then
               pin.id == "" || pin.chainName == "" || (forall rating :: !Rated(pin, rating)) || Key(pin.chainName, pin.id) in s.ratings
             else
               || !Routed(s, pin)
               || (op == "create" && ((forall summary :: !Declared(pin, summary)) || Key(pin.chainName, pin.id) in s.services))
               || (op == "modify" && ((forall summary :: !Declared(pin, summary)) || forall r :: !Targets(s, pin, r)))
               || (op == "revoke" && forall r :: !Targets(s, pin, r))
               || op !in {"create", "modify", "revoke"}
    ensures Process(s, pin) == s
  {
    hide TrimSpace, ToLower, ProtocolPath, ProviderOf, Rated, RateSummary, LoadByAnyPin, Declared, ServiceSummary, Targets,
         VersionTarget, TargetFromPath, Save, NewService, Modified, Revoked;
    ProtocolLetters();
    if ServiceSummary(pin).Some? {
      SummaryIff(pin, ServiceSummary(pin).value);
    }
    if RateSummary(pin).Some? {
      RatingIff(pin, RateSummary(pin).value);
    }
    if VersionTarget(s, pin).Some? {
      TargetsIff(s, pin, VersionTarget(s, pin).value);
    }
  }

  // ---- Identities ----

  /** A service is listed under the identity it carries, and under that of its profile when the two differ by more than
      case. */
  lemma GlobalIdsRead(p: Provider, profiles: Profiles, id: string)
    ensures id in GlobalIds(p, profiles) <==>
            id != "" && (id == TrimSpace(p.globalMetaId)
                         || (id == TrimSpace(profiles(p)) && ToLower(id) != ToLower(TrimSpace(p.globalMetaId))))
  {
    hide TrimSpace;
  }
}
