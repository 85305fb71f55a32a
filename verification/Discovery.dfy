/** One discovery round: registry pins compete for their nodes, the newest of each node decides whether the
    node is removed or accepted, and the round does not depend on the order of the pins. */
module Discovery {
  import opened Federation
  import opened FederationStore
  import opened GoStrings
  import opened KeyEncoding
  import opened Sorting
  import opened Wrappers

  datatype RegistryPin = RegistryPin(id: string, operation: string, chainName: string, timestamp: int,
                                     contentBody: string, contentSummary: string)

  /** Settings of the discovery loop. Decoding of pin contents, derivation of an address from a public key and
      the test of a URL are oracles. */
  datatype Config = Config(selfNodeId: string, network: string, maxPeers: int,
                           decode: string -> Option<RegistryNode>,
                           address: string -> Option<string>,
                           urlAllowed: string -> bool)

  datatype Candidate = Candidate(pin: RegistryPin, node: RegistryNode, remove: bool)

  const PROTOCOL_NODE: string := "metaso-p2p-node"

  const PRESENCE_CAPABILITY: string := "presence-v1"

  // ---- Candidates ----

  function Trimmed(n: RegistryNode): RegistryNode
  {
    n.(protocol := TrimSpace(n.protocol), version := TrimSpace(n.version), nodeId := TrimSpace(n.nodeId),
       network := TrimSpace(n.network), presenceUrl := TrimSpace(n.presenceUrl), publicKey := TrimSpace(n.publicKey))
  }

  function NodeFromPin(c: Config, pin: RegistryPin): Option<RegistryNode>
  {
    var content := FirstNonEmptyTrimmed(pin.contentBody, pin.contentSummary);
    if content == "" then None
    else
      match c.decode(content)
      case None => None
      case Some(node) => Some(Trimmed(node))
  }

  predicate Includes(capabilities: seq<string>, capability: string)
  {
    exists item <- capabilities :: EqualFold(TrimSpace(item), capability)
  }

  /** The node id is the address of the node's own key. */
  predicate OwnsId(c: Config, nodeId: string, publicKey: string)
  {
    c.address(publicKey).Some? && nodeId == "mvc:" + c.address(publicKey).value
  }

  predicate AcceptNode(c: Config, node: RegistryNode)
  {
    && node.protocol == PROTOCOL_NODE
    && TrimSpace(node.version) != "" && TrimSpace(node.network) != ""
    && TrimSpace(node.presenceUrl) != "" && TrimSpace(node.publicKey) != ""
    && OwnsId(c, TrimSpace(node.nodeId), node.publicKey)
    && Includes(node.capabilities, PRESENCE_CAPABILITY)
    && c.urlAllowed(node.presenceUrl)
  }

  function CandidateFromPin(c: Config, now: int, pin: RegistryPin): Option<Candidate>
  {
    var operation := ToLower(TrimSpace(pin.operation));
    if !EqualFold(TrimSpace(pin.chainName), "mvc") then None
    else if operation !in {"create", "modify", "revoke"} then None
    else
      match NodeFromPin(c, pin)
      case None => None
      case Some(raw) =>
        var node := raw.(nodeId := TrimSpace(raw.nodeId));
        if node.nodeId == "" then None
        else if c.selfNodeId != "" && node.nodeId == c.selfNodeId then None
        else if c.network != "" && !EqualFold(TrimSpace(node.network), c.network) then None
        else if !AcceptNode(c, node) then None
        else Some(Candidate(pin, node, operation == "revoke" || PeerExpired(node, now)))
  }

  /** What every candidate satisfies. */
  predicate Acceptable(c: Config, now: int, k: Candidate)
  {
    && k.node.nodeId != "" && (c.selfNodeId != "" ==> k.node.nodeId != c.selfNodeId)
    && AcceptNode(c, k.node) && OwnsId(c, k.node.nodeId, k.node.publicKey) && (!k.remove ==> !PeerExpired(k.node, now))
  }

  lemma CandidatesAcceptable(c: Config, now: int, pin: RegistryPin)
    ensures var k := CandidateFromPin(c, now, pin); k.Some? ==> Acceptable(c, now, k.value) && k.value.pin == pin
  {
    hide NodeFromPin, EqualFold, TrimSpace, ToLower, PeerExpired, Includes, OwnsId;
    var raw := NodeFromPin(c, pin);
    if raw.Some? {
      TrimSpaceIdempotent(raw.value.nodeId);
    }
  }

  /** The texts of the node are those decoded, trimmed. */
  predicate DecodedAs(node: RegistryNode, raw: RegistryNode)
  {
    && node.protocol == TrimSpace(raw.protocol) && node.version == TrimSpace(raw.version)
    && node.nodeId == TrimSpace(raw.nodeId) && node.network == TrimSpace(raw.network)
    && node.presenceUrl == TrimSpace(raw.presenceUrl) && node.publicKey == TrimSpace(raw.publicKey)
    && node.capabilities == raw.capabilities && node.publishedAt == raw.publishedAt && node.validUntil == raw.validUntil
  }

  /** The node speaks the protocol, has the capability, may be reached, and its id is the address of its key. */
  ghost predicate Qualified(c: Config, node: RegistryNode)
  {
    && node.protocol == "metaso-p2p-node" && "" !in {node.version, node.network, node.presenceUrl, node.publicKey}
    && (exists a :: c.address(node.publicKey) == Some(a) && node.nodeId == "mvc:" + a)
    && (exists item :: item in node.capabilities && ToLower(TrimSpace(item)) == "presence-v1")
    && c.urlAllowed(node.presenceUrl)
  }

  /** What makes a pin a candidate. */
  ghost predicate IsCandidate(c: Config, now: int, pin: RegistryPin, k: Candidate)
  {
    var operation := ToLower(TrimSpace(pin.operation));
    var content := if TrimSpace(pin.contentBody) != "" then TrimSpace(pin.contentBody) else TrimSpace(pin.contentSummary);
    && k.pin == pin && ToLower(TrimSpace(pin.chainName)) == "mvc" && operation in {"create", "modify", "revoke"}
    && content != "" && c.decode(content).Some? && DecodedAs(k.node, c.decode(content).value) && Qualified(c, k.node)
    && k.node.nodeId != "" && (c.selfNodeId != "" ==> k.node.nodeId != c.selfNodeId)
    && (c.network != "" ==> ToLower(k.node.network) == ToLower(c.network))
    && k.remove == (operation == "revoke" || (k.node.validUntil > 0 && now > k.node.validUntil))
  }

  lemma QualifiedIff(c: Config, node: RegistryNode, raw: RegistryNode)
    requires DecodedAs(node, raw)
    ensures AcceptNode(c, node) <==> Qualified(c, node)
  {
    hide TrimSpace, ToLower;
    TrimSpaceIdempotent(raw.version);
    TrimSpaceIdempotent(raw.network);
    TrimSpaceIdempotent(raw.presenceUrl);
    TrimSpaceIdempotent(raw.publicKey);
    TrimSpaceIdempotent(raw.nodeId);
    LowerWords();
  }

  lemma LowerWords()
    ensures ToLower("mvc") == "mvc" && ToLower(PRESENCE_CAPABILITY) == "presence-v1"
  {}

  /** The candidates are the create, modify and revoke pins on the chain "mvc" whose content decodes to a qualified node
      of the network other than this one; a revoked or expired node is to be removed. */
  lemma CandidateIff(c: Config, now: int, pin: RegistryPin, k: Candidate)
    ensures CandidateFromPin(c, now, pin) == Some(k) <==> IsCandidate(c, now, pin, k)
  {
    hide TrimSpace, ToLower, AcceptNode, Qualified;
    LowerWords();
    var content := FirstNonEmptyTrimmed(pin.contentBody, pin.contentSummary);
    if c.decode(content).Some? {
      var raw := c.decode(content).value;
      TrimSpaceIdempotent(raw.nodeId);
      TrimSpaceIdempotent(raw.network);
      QualifiedIff(c, Trimmed(raw), raw);
    }
  }

  /** Newer by timestamp, then by publication, then by pin id. */
  predicate Newer(a: Candidate, b: Candidate)
  {
    if a.pin.timestamp != b.pin.timestamp then a.pin.timestamp > b.pin.timestamp
    else if a.node.publishedAt != b.node.publishedAt then a.node.publishedAt > b.node.publishedAt
    else Less(b.pin.id, a.pin.id)
  }

  lemma NewerTransitive(a: Candidate, b: Candidate, d: Candidate)
    requires Newer(a, b) && Newer(b, d)
    ensures Newer(a, d)
  {
    hide Less;
    if Less(b.pin.id, a.pin.id) && Less(d.pin.id, b.pin.id) {
      LessTransitive(d.pin.id, b.pin.id, a.pin.id);
    }
  }

  /** Candidates of equal rank: neither is newer. */
  lemma TieMeansEqual(a: Candidate, b: Candidate)
    ensures !Newer(a, b) && !Newer(b, a) <==>
            a.pin.timestamp == b.pin.timestamp && a.node.publishedAt == b.node.publishedAt && a.pin.id == b.pin.id
  {
    hide Less;
    LessTotal(a.pin.id, b.pin.id);
    LessIrreflexive(a.pin.id);
  }

  // ---- Competition ----

  function Compete(kept: map<string, Candidate>, k: Option<Candidate>): map<string, Candidate>
  {
    if k.None? then kept
    else
      var id := k.value.node.nodeId;
      if id !in kept || Newer(k.value, kept[id]) then kept[id := k.value] else kept
  }

  function Kept(c: Config, now: int, pins: seq<RegistryPin>): map<string, Candidate>
  {
    if pins == [] then map[]
    else Compete(Kept(c, now, pins[..|pins| - 1]), CandidateFromPin(c, now, pins[|pins| - 1]))
  }

  /** A pin stands for node `id` with candidate `k`. */
  predicate StandsFor(c: Config, now: int, pin: RegistryPin, id: string, k: Candidate)
  {
    CandidateFromPin(c, now, pin) == Some(k) && k.node.nodeId == id
  }

  ghost predicate HasCandidate(c: Config, now: int, pins: seq<RegistryPin>, id: string)
  {
    exists pin, k :: pin in pins && StandsFor(c, now, pin, id, k)
  }

  /** `k` is a candidate for node `id` and none is newer. */
  ghost predicate IsNewest(c: Config, now: int, pins: seq<RegistryPin>, id: string, k: Candidate)
  {
    && (exists pin :: pin in pins && StandsFor(c, now, pin, id, k))
    && (forall pin, other :: pin in pins && StandsFor(c, now, pin, id, other) ==> !Newer(other, k))
  }

  /** The round keeps a newest candidate for each node that has one. */
  lemma {:induction false} NewestKept(c: Config, now: int, pins: seq<RegistryPin>, id: string)
    ensures id in Kept(c, now, pins) <==> HasCandidate(c, now, pins, id)
    ensures id in Kept(c, now, pins) ==> IsNewest(c, now, pins, id, Kept(c, now, pins)[id])
  {
    hide CandidateFromPin, Newer;
    if pins != [] {
      var front, pin := pins[..|pins| - 1], pins[|pins| - 1];
      NewestKept(c, now, front, id);
      InSnoc(front, pin);
      assert front + [pin] == pins;
      var kept := Kept(c, now, front);
      var k := CandidateFromPin(c, now, pin);
      if k.Some? && k.value.node.nodeId == id {
        assert StandsFor(c, now, pin, id, k.value);
        if id in kept {
          NewestAgainst(c, now, front, pin, id, kept[id], k.value);
        } else {
          NewestAlone(c, now, front, pin, id, k.value);
        }
      } else {
        NewestStays(c, now, front, pin, id);
      }
    }
  }

  /** Of the candidates of a node none has a later timestamp than the one kept, none of its timestamp a later
      publication, and none of both a greater pin id. */
  lemma KeptIsLatest(c: Config, now: int, pins: seq<RegistryPin>, id: string, pin: RegistryPin, other: Candidate)
    requires pin in pins && StandsFor(c, now, pin, id, other)
    ensures id in Kept(c, now, pins) && var k := Kept(c, now, pins)[id];
            && other.pin.timestamp <= k.pin.timestamp
            && (other.pin.timestamp == k.pin.timestamp ==> other.node.publishedAt <= k.node.publishedAt)
            && (other.pin.timestamp == k.pin.timestamp && other.node.publishedAt == k.node.publishedAt ==>
                  !Less(k.pin.id, other.pin.id))
  {
    hide CandidateFromPin, Less;
    NewestKept(c, now, pins, id);
  }

  lemma InSnoc(front: seq<RegistryPin>, pin: RegistryPin)
    ensures forall p :: p in front + [pin] <==> p in front || p == pin
  {}

  lemma NotNewerThanItself(k: Candidate)
    ensures !Newer(k, k)
  {
    TieMeansEqual(k, k);
  }

  lemma NewestAlone(c: Config, now: int, front: seq<RegistryPin>, pin: RegistryPin, id: string, k: Candidate)
    requires !HasCandidate(c, now, front, id) && StandsFor(c, now, pin, id, k)
    ensures IsNewest(c, now, front + [pin], id, k)
  {
    hide CandidateFromPin, Newer;
    InSnoc(front, pin);
    NotNewerThanItself(k);
  }

  lemma NewestAgainst(c: Config, now: int, front: seq<RegistryPin>, pin: RegistryPin, id: string,
                      best: Candidate, k: Candidate)
    requires IsNewest(c, now, front, id, best) && StandsFor(c, now, pin, id, k)
    ensures IsNewest(c, now, front + [pin], id, if Newer(k, best) then k else best)
  {
    hide CandidateFromPin, Newer;
    InSnoc(front, pin);
    var winner := if Newer(k, best) then k else best;
    NotNewerThanItself(k);
    forall p, other | p in front + [pin] && StandsFor(c, now, p, id, other)
      ensures !Newer(other, winner)
    {
      if p in front && Newer(k, best) && Newer(other, k) {
        NewerTransitive(other, k, best);
      }
    }
  }

  lemma NewestStays(c: Config, now: int, front: seq<RegistryPin>, pin: RegistryPin, id: string)
    requires var k := CandidateFromPin(c, now, pin); k.Some? ==> k.value.node.nodeId != id
    ensures HasCandidate(c, now, front + [pin], id) <==> HasCandidate(c, now, front, id)
    ensures forall k :: IsNewest(c, now, front, id, k) ==> IsNewest(c, now, front + [pin], id, k)
  {
    hide CandidateFromPin, Newer;
    InSnoc(front, pin);
  }

  lemma CompeteKeeps(kept: map<string, Candidate>, id: string, k: Candidate, other: Option<Candidate>)
    requires id in kept && kept[id] == k
    requires other.Some? && other.value.node.nodeId == id ==> !Newer(other.value, k)
    ensures id in Compete(kept, other) && Compete(kept, other)[id] == k
  {
    hide Newer;
  }

  lemma KeptSnoc(c: Config, now: int, front: seq<RegistryPin>, pin: RegistryPin)
    ensures Kept(c, now, front + [pin]) == Compete(Kept(c, now, front), CandidateFromPin(c, now, pin))
  {
    assert (front + [pin])[..|front|] == front;
  }

  /** Among newest candidates of equal rank the one that comes first is kept. */
  lemma {:induction false} FirstNewestKept(c: Config, now: int, pins: seq<RegistryPin>, id: string, k: Candidate)
    requires pins != [] && StandsFor(c, now, pins[0], id, k) && IsNewest(c, now, pins, id, k)
    ensures id in Kept(c, now, pins) && Kept(c, now, pins)[id] == k
  {
    hide CandidateFromPin, Newer, Kept, Compete;
    var front, pin := pins[..|pins| - 1], pins[|pins| - 1];
    assert front + [pin] == pins;
    KeptSnoc(c, now, front, pin);
    if front == [] {
      OneKept(c, now, pin, id, k);
    } else {
      InSnoc(front, pin);
      assert front[0] == pins[0];
      FirstNewestKept(c, now, front, id, k);
      var other := CandidateFromPin(c, now, pin);
      assert other.Some? && other.value.node.nodeId == id ==> StandsFor(c, now, pin, id, other.value);
      CompeteKeeps(Kept(c, now, front), id, k, other);
    }
  }

  lemma OneKept(c: Config, now: int, pin: RegistryPin, id: string, k: Candidate)
    requires StandsFor(c, now, pin, id, k)
    ensures var kept := Compete(Kept(c, now, []), CandidateFromPin(c, now, pin)); id in kept && kept[id] == k
  {
    hide CandidateFromPin, Newer;
  }

  // ---- The round ----

  /** What becomes of a node: removed from the store, or recorded there. */
  datatype Fate = Removed | Recorded(node: RegistryNode)

  function FateOf(k: Candidate): Fate { if k.remove then Removed else Recorded(k.node) }

  function Fates(kept: map<string, Candidate>): map<string, Fate>
  {
    map id | id in kept :: FateOf(kept[id])
  }

  datatype Effect = Remove(nodeId: string) | Accept(node: RegistryNode)

  function Removals(fates: map<string, Fate>, ids: seq<string>): seq<Effect>
    requires forall id <- ids :: id in fates
  {
    if ids == [] then []
    else Removals(fates, ids[..|ids| - 1])
         + if fates[ids[|ids| - 1]].Removed? then [Remove(ids[|ids| - 1])] else []
  }

  function Accepted(fates: map<string, Fate>, ids: seq<string>): seq<RegistryNode>
    requires forall id <- ids :: id in fates
  {
    if ids == [] then []
    else Accepted(fates, ids[..|ids| - 1])
         + if fates[ids[|ids| - 1]].Recorded? then [fates[ids[|ids| - 1]].node] else []
  }

  function Capped(nodes: seq<RegistryNode>, maxPeers: int): seq<RegistryNode>
  {
    if 0 < maxPeers < |nodes| then nodes[..maxPeers] else nodes
  }

  function Accepts(nodes: seq<RegistryNode>): seq<Effect>
  {
    seq(|nodes|, i requires 0 <= i < |nodes| => Accept(nodes[i]))
  }

  /** The nodes a round accepts, by node id. */
  ghost function RoundAccepted(c: Config, fates: map<string, Fate>): seq<RegistryNode>
  {
    Capped(Accepted(fates, SortedList(fates.Keys)), c.maxPeers)
  }

  /** The store changes of a round: removals, then the accepted nodes. */
  ghost function RoundEffects(c: Config, fates: map<string, Fate>): seq<Effect>
  {
    Removals(fates, SortedList(fates.Keys)) + Accepts(RoundAccepted(c, fates))
  }

  function Apply(s: State, e: Effect): State
  {
    match e
    case Remove(id) => WithoutPeer(s, id)
    case Accept(node) => WithPeer(s, node)
  }

  function ApplyAll(s: State, effects: seq<Effect>): State
  {
    if effects == [] then s else Apply(ApplyAll(s, effects[..|effects| - 1]), effects[|effects| - 1])
  }

  lemma ApplyOneMore(s: State, effects: seq<Effect>, e: Effect)
    ensures ApplyAll(s, effects + [e]) == Apply(ApplyAll(s, effects), e)
  {
    assert (effects + [e])[..|effects|] == effects;
  }

  method CollectCandidates(c: Config, pins: seq<RegistryPin>, now: int) returns (candidates: map<string, Candidate>)
    ensures candidates == Kept(c, now, pins)
  {
    hide CandidateFromPin, Newer;
    candidates := map[];
    for i := 0 to |pins|
      invariant candidates == Kept(c, now, pins[..i])
    {
      assert pins[..i + 1][..i] == pins[..i];
      var candidate := CandidateFromPin(c, now, pins[i]);
      if candidate.None? {
        continue;
      }
      var id := candidate.value.node.nodeId;
      if id !in candidates || Newer(candidate.value, candidates[id]) {
        candidates := candidates[id := candidate.value];
      }
    }
    assert pins[..|pins|] == pins;
  }

  lemma RoundStep(fates: map<string, Fate>, ids: seq<string>, i: nat)
    requires i < |ids| && forall id <- ids :: id in fates
    ensures Removals(fates, ids[..i + 1]) ==
            if fates[ids[i]].Removed? then Removals(fates, ids[..i]) + [Remove(ids[i])] else Removals(fates, ids[..i])
    ensures Accepted(fates, ids[..i + 1]) ==
            if fates[ids[i]].Removed? then Accepted(fates, ids[..i]) else Accepted(fates, ids[..i]) + [fates[ids[i]].node]
  {
    assert ids[..i + 1][..i] == ids[..i];
    assert Removals(fates, ids[..i]) + [] == Removals(fates, ids[..i]);
    assert Accepted(fates, ids[..i]) + [] == Accepted(fates, ids[..i]);
  }

  method RemoveAndCollect(candidates: map<string, Candidate>, ids: seq<string>, store: Store) returns (accepted: seq<RegistryNode>)
    requires forall id <- ids :: id in candidates
    modifies store
    ensures accepted == Accepted(Fates(candidates), ids)
    ensures store.Contents() == ApplyAll(old(store.Contents()), Removals(Fates(candidates), ids))
  {
    hide ApplyAll, Removals, Accepted;
    accepted := [];
    NoEffects(store.Contents(), Fates(candidates));
    assert ids[..0] == [];
    for i := 0 to |ids|
      invariant accepted == Accepted(Fates(candidates), ids[..i])
      invariant store.Contents() == ApplyAll(old(store.Contents()), Removals(Fates(candidates), ids[..i]))
    {
      RoundStep(Fates(candidates), ids, i);
      var candidate := candidates[ids[i]];
      if candidate.remove {
        ApplyOneMore(old(store.Contents()), Removals(Fates(candidates), ids[..i]), Remove(ids[i]));
        store.RemovePeer(ids[i]);
        continue;
      }
      accepted := accepted + [candidate.node];
    }
    assert ids[..|ids|] == ids;
  }

  lemma NoEffects(s: State, fates: map<string, Fate>)
    ensures ApplyAll(s, []) == s && Removals(fates, []) == [] && Accepted(fates, []) == []
  {}

  /** One round on the pins fetched: the accepted nodes, and the changes of the store in order. */
  method DiscoverOnce(c: Config, pins: seq<RegistryPin>, now: int, store: Store) returns (accepted: seq<RegistryNode>)
    modifies store
    ensures accepted == RoundAccepted(c, Fates(Kept(c, now, pins)))
    ensures store.Contents() == ApplyAll(old(store.Contents()), RoundEffects(c, Fates(Kept(c, now, pins))))
  {
    hide ApplyAll, Removals, Accepted, Kept;
    var candidates := CollectCandidates(c, pins, now);
    var nodeIds := SortStrings(candidates.Keys);
    SameList(nodeIds, candidates.Keys);
    assert Fates(candidates).Keys == candidates.Keys;
    accepted := RemoveAndCollect(candidates, nodeIds, store);
    if c.maxPeers > 0 && |accepted| > c.maxPeers {
      accepted := accepted[..c.maxPeers];
    }
    ghost var removals := Removals(Fates(candidates), nodeIds);
    assert removals + Accepts(accepted[..0]) == removals;
    for i := 0 to |accepted|
      invariant store.Contents() == ApplyAll(old(store.Contents()), removals + Accepts(accepted[..i]))
    {
      ApplyOneMore(old(store.Contents()), removals + Accepts(accepted[..i]), Accept(accepted[i]));
      assert removals + Accepts(accepted[..i + 1]) == removals + Accepts(accepted[..i]) + [Accept(accepted[i])];
      store.UpsertPeer(accepted[i]);
    }
    assert accepted[..|accepted|] == accepted;
  }

  // ---- What a round accepts ----

  lemma {:induction false} AcceptedFrom(fates: map<string, Fate>, ids: seq<string>, i: nat) returns (k: nat)
    requires (forall id <- ids :: id in fates) && i < |Accepted(fates, ids)|
    ensures k < |ids| && fates[ids[k]] == Recorded(Accepted(fates, ids)[i])
  {
    var last := |ids| - 1;
    if i < |Accepted(fates, ids[..last])| {
      k := AcceptedFrom(fates, ids[..last], i);
    } else {
      k := last;
    }
  }

  lemma {:induction false} AcceptedSorted(fates: map<string, Fate>, ids: seq<string>)
    requires (forall id <- ids :: id in fates && (fates[id].Recorded? ==> fates[id].node.nodeId == id)) && Sorted(Less, ids)
    ensures Sorted(PeerBefore, Accepted(fates, ids))
  {
    hide Less;
    if ids != [] {
      var last := |ids| - 1;
      AcceptedSorted(fates, ids[..last]);
      var front := Accepted(fates, ids[..last]);
      forall i | 0 <= i < |front|
        ensures Less(front[i].nodeId, ids[last])
      {
        var k := AcceptedFrom(fates, ids[..last], i);
        assert Less(ids[k], ids[last]);
      }
    }
  }

  lemma FateNamed(c: Config, now: int, pins: seq<RegistryPin>, id: string)
    requires id in Kept(c, now, pins)
    ensures Acceptable(c, now, Kept(c, now, pins)[id]) && Kept(c, now, pins)[id].node.nodeId == id
  {
    hide CandidateFromPin, Newer, Acceptable;
    NewestKept(c, now, pins, id);
    var k := Kept(c, now, pins)[id];
    var pin :| pin in pins && StandsFor(c, now, pin, id, k);
    CandidatesAcceptable(c, now, pin);
  }

  /** The accepted list is sorted by node id without repetition, within the cap, and holds only acceptable,
      unexpired nodes other than this one, each the newest word on its node. */
  lemma AcceptedNodes(c: Config, now: int, pins: seq<RegistryPin>)
    ensures var accepted := RoundAccepted(c, Fates(Kept(c, now, pins)));
            && Sorted(PeerBefore, accepted)
            && (c.maxPeers > 0 ==> |accepted| <= c.maxPeers)
            && (forall node <- accepted ::
                  && AcceptNode(c, node) && !PeerExpired(node, now) && node.nodeId != ""
                  && OwnsId(c, node.nodeId, node.publicKey)
                  && (c.selfNodeId != "" ==> node.nodeId != c.selfNodeId)
                  && (exists k :: IsNewest(c, now, pins, node.nodeId, k) && !k.remove && k.node == node))
  {
    hide CandidateFromPin, Newer, AcceptNode, OwnsId, PeerExpired, Kept, IsNewest, Less, Accepted;
    var kept := Kept(c, now, pins);
    var fates := Fates(kept);
    var ids := SortedList(fates.Keys);
    forall id | id in fates
      ensures fates[id].Recorded? ==> fates[id].node.nodeId == id
    {
      FateNamed(c, now, pins, id);
    }
    AcceptedSorted(fates, ids);
    var all := Accepted(fates, ids);
    forall i | 0 <= i < |all|
      ensures && AcceptNode(c, all[i]) && !PeerExpired(all[i], now) && all[i].nodeId != ""
              && OwnsId(c, all[i].nodeId, all[i].publicKey)
              && (c.selfNodeId != "" ==> all[i].nodeId != c.selfNodeId)
              && (exists k :: IsNewest(c, now, pins, all[i].nodeId, k) && !k.remove && k.node == all[i])
    {
      var at := AcceptedFrom(fates, ids, i);
      FateNamed(c, now, pins, ids[at]);
      NewestKept(c, now, pins, ids[at]);
    }
  }

  // ---- Order of the pins ----

  /** All newest candidates of a node mean the same for it. */
  ghost predicate NewestAgree(c: Config, now: int, pins: seq<RegistryPin>)
  {
    forall id, k, l :: IsNewest(c, now, pins, id, k) && IsNewest(c, now, pins, id, l) ==> FateOf(k) == FateOf(l)
  }

  /** No two candidates of a node tie. */
  ghost predicate NoTies(c: Config, now: int, pins: seq<RegistryPin>)
  {
    forall p, q, id, k, l ::
      (p in pins && q in pins && StandsFor(c, now, p, id, k) && StandsFor(c, now, q, id, l)
       && !Newer(k, l) && !Newer(l, k)) ==> k == l
  }

  lemma NoTiesAgree(c: Config, now: int, pins: seq<RegistryPin>)
    requires NoTies(c, now, pins)
    ensures NewestAgree(c, now, pins)
  {
    hide StandsFor, Newer;
  }

  ghost predicate SameFates(c: Config, now: int, pins: seq<RegistryPin>)
  {
    forall p, q :: multiset(p) == multiset(pins) && multiset(q) == multiset(pins) ==>
      Fates(Kept(c, now, p)) == Fates(Kept(c, now, q))
  }

  lemma SameMembers(p: seq<RegistryPin>, pins: seq<RegistryPin>)
    requires multiset(p) == multiset(pins)
    ensures forall pin :: pin in p <==> pin in pins
  {
    forall pin
      ensures pin in p <==> pin in pins
    {
      assert pin in p <==> pin in multiset(p);
    }
  }

  lemma PermutedNewest(c: Config, now: int, p: seq<RegistryPin>, pins: seq<RegistryPin>, id: string)
    requires multiset(p) == multiset(pins)
    ensures id in Kept(c, now, p) <==> HasCandidate(c, now, pins, id)
    ensures id in Kept(c, now, p) ==> IsNewest(c, now, pins, id, Kept(c, now, p)[id])
  {
    hide StandsFor, Newer, Kept;
    SameMembers(p, pins);
    NewestKept(c, now, p, id);
  }

  lemma AgreeingFates(c: Config, now: int, pins: seq<RegistryPin>, p: seq<RegistryPin>, q: seq<RegistryPin>)
    requires NewestAgree(c, now, pins) && multiset(p) == multiset(pins) && multiset(q) == multiset(pins)
    ensures Fates(Kept(c, now, p)) == Fates(Kept(c, now, q))
  {
    hide IsNewest, HasCandidate, Kept;
    forall id: string
      ensures id in Kept(c, now, p) <==> id in Kept(c, now, q)
      ensures id in Kept(c, now, p) ==> FateOf(Kept(c, now, p)[id]) == FateOf(Kept(c, now, q)[id])
    {
      PermutedNewest(c, now, p, pins, id);
      PermutedNewest(c, now, q, pins, id);
    }
    assert Fates(Kept(c, now, p)).Keys == Fates(Kept(c, now, q)).Keys;
  }

  lemma BroughtForward(pins: seq<RegistryPin>, pin: RegistryPin) returns (p: seq<RegistryPin>)
    requires pin in pins
    ensures p != [] && p[0] == pin && multiset(p) == multiset(pins)
  {
    var i :| 0 <= i < |pins| && pins[i] == pin;
    p := [pin] + (pins[..i] + pins[i + 1..]);
    assert pins == pins[..i] + [pin] + pins[i + 1..];
  }

  /** A newest candidate decides in some order of the pins. */
  lemma SomeOrderKeeps(c: Config, now: int, pins: seq<RegistryPin>, id: string, k: Candidate) returns (p: seq<RegistryPin>)
    requires IsNewest(c, now, pins, id, k)
    ensures multiset(p) == multiset(pins) && id in Kept(c, now, p) && Kept(c, now, p)[id] == k
  {
    hide StandsFor, Newer, Kept;
    var pin :| pin in pins && StandsFor(c, now, pin, id, k);
    p := BroughtForward(pins, pin);
    SameMembers(p, pins);
    FirstNewestKept(c, now, p, id, k);
  }

  /** The fates of the nodes do not depend on the order of the pins exactly when all newest candidates of a
      node mean the same for it. */
  lemma OrderIrrelevantIff(c: Config, now: int, pins: seq<RegistryPin>)
    ensures SameFates(c, now, pins) <==> NewestAgree(c, now, pins)
  {
    hide IsNewest, Kept, Fates;
    if NewestAgree(c, now, pins) {
      forall p, q | multiset(p) == multiset(pins) && multiset(q) == multiset(pins)
        ensures Fates(Kept(c, now, p)) == Fates(Kept(c, now, q))
      {
        AgreeingFates(c, now, pins, p, q);
      }
    }
    if SameFates(c, now, pins) {
      forall id, k, l | IsNewest(c, now, pins, id, k) && IsNewest(c, now, pins, id, l)
        ensures FateOf(k) == FateOf(l)
      {
        var p := SomeOrderKeeps(c, now, pins, id, k);
        var q := SomeOrderKeeps(c, now, pins, id, l);
        FateAt(Kept(c, now, p), id);
        FateAt(Kept(c, now, q), id);
      }
    }
  }

  lemma FateAt(kept: map<string, Candidate>, id: string)
    requires id in kept
    ensures id in Fates(kept) && Fates(kept)[id] == FateOf(kept[id])
  {}

  /** Then one round accepts the same list and makes the same changes for every order of its pins. */
  lemma RoundDeterministic(c: Config, now: int, pins: seq<RegistryPin>, p: seq<RegistryPin>)
    requires NewestAgree(c, now, pins) && multiset(p) == multiset(pins)
    ensures var f, g := Fates(Kept(c, now, p)), Fates(Kept(c, now, pins));
            RoundAccepted(c, f) == RoundAccepted(c, g) && RoundEffects(c, f) == RoundEffects(c, g)
  {
    hide NewestAgree, Kept, Fates, RoundAccepted, RoundEffects;
    AgreeingFates(c, now, pins, p, pins);
  }

  // ---- What a round shows ----

  /** Every order of the pins gives the same accepted list and the same store changes. */
  ghost predicate SameRounds(c: Config, now: int, pins: seq<RegistryPin>)
  {
    forall p, q :: multiset(p) == multiset(pins) && multiset(q) == multiset(pins) ==> RoundsEqual(c, now, p, q)
  }

  ghost predicate RoundsEqual(c: Config, now: int, p: seq<RegistryPin>, q: seq<RegistryPin>)
  {
    var f, g := Fates(Kept(c, now, p)), Fates(Kept(c, now, q));
    RoundAccepted(c, f) == RoundAccepted(c, g) && RoundEffects(c, f) == RoundEffects(c, g)
  }

  /** The cap lets the node through. */
  ghost predicate Shown(c: Config, fates: map<string, Fate>, id: string)
  {
    exists node :: node in RoundAccepted(c, fates) && node.nodeId == id
  }

  /** All newest candidates of a node agree on its removal, and on its contents when the cap lets it through. */
  ghost predicate ShownAgree(c: Config, now: int, pins: seq<RegistryPin>)
  {
    forall id, k, l :: IsNewest(c, now, pins, id, k) && IsNewest(c, now, pins, id, l) ==>
      k.remove == l.remove && (k.node == l.node || k.remove || !Shown(c, Fates(Kept(c, now, pins)), id))
  }

  /** There is no cap, or no more nodes than it admits are to be recorded. */
  ghost predicate CapIdle(c: Config, fates: map<string, Fate>)
  {
    c.maxPeers <= 0 || |Accepted(fates, SortedList(fates.Keys))| <= c.maxPeers
  }

  /** Nodes are recorded under their own ids. */
  ghost predicate Named(fates: map<string, Fate>)
  {
    forall id :: id in fates && fates[id].Recorded? ==> fates[id].node.nodeId == id
  }

  lemma KeptNamed(c: Config, now: int, pins: seq<RegistryPin>)
    ensures Named(Fates(Kept(c, now, pins)))
  {
    hide Kept, Acceptable;
    forall id | id in Kept(c, now, pins)
      ensures Kept(c, now, pins)[id].node.nodeId == id
    {
      FateNamed(c, now, pins, id);
    }
  }

  lemma {:induction false} RemovalsShow(fates: map<string, Fate>, ids: seq<string>, id: string)
    requires forall i <- ids :: i in fates
    ensures Remove(id) in Removals(fates, ids) <==> id in ids && fates[id].Removed?
  {
    if ids != [] {
      RemovalsShow(fates, ids[..|ids| - 1], id);
      assert ids == ids[..|ids| - 1] + [ids[|ids| - 1]];
    }
  }

  lemma {:induction false} AcceptedShow(fates: map<string, Fate>, ids: seq<string>, node: RegistryNode)
    requires (forall i <- ids :: i in fates) && Named(fates)
    ensures node in Accepted(fates, ids) <==> node.nodeId in ids && fates[node.nodeId] == Recorded(node)
  {
    if ids != [] {
      AcceptedShow(fates, ids[..|ids| - 1], node);
      assert ids == ids[..|ids| - 1] + [ids[|ids| - 1]];
    }
  }

  /** Removals are seen in the store changes, recorded nodes in the accepted list. */
  lemma RoundShows(c: Config, fates: map<string, Fate>, id: string, node: RegistryNode)
    requires Named(fates)
    ensures Remove(id) in RoundEffects(c, fates) <==> id in fates && fates[id].Removed?
    ensures node in RoundAccepted(c, fates) ==> node.nodeId in fates && fates[node.nodeId] == Recorded(node)
    ensures CapIdle(c, fates) && node.nodeId in fates && fates[node.nodeId] == Recorded(node) ==> node in RoundAccepted(c, fates)
  {
    hide Removals, Accepted, Less;
    var ids := SortedList(fates.Keys);
    RemovalsShow(fates, ids, id);
    AcceptedShow(fates, ids, node);
  }

  lemma {:induction false} SameIds(f: map<string, Fate>, g: map<string, Fate>, ids: seq<string>)
    requires Named(f) && Named(g) && forall id <- ids :: id in f && id in g && f[id].Removed? == g[id].Removed?
    ensures Removals(f, ids) == Removals(g, ids)
    ensures var a, b := Accepted(f, ids), Accepted(g, ids);
            |a| == |b| && forall i :: 0 <= i < |a| ==> a[i].nodeId == b[i].nodeId
  {
    if ids != [] {
      var last := ids[|ids| - 1];
      assert last in ids;
      SameIds(f, g, ids[..|ids| - 1]);
    }
  }

  /** Fates that agree on removals, and on the nodes the cap lets through in one of them, give equal rounds. */
  lemma SameRound(c: Config, f: map<string, Fate>, g: map<string, Fate>)
    requires Named(f) && Named(g) && f.Keys == g.Keys
    requires forall id :: id in f ==> f[id].Removed? == g[id].Removed? && (Shown(c, g, id) ==> f[id] == g[id])
    ensures RoundAccepted(c, f) == RoundAccepted(c, g) && RoundEffects(c, f) == RoundEffects(c, g)
  {
    hide Removals, Accepted, Less, Named;
    var ids := SortedList(f.Keys);
    SameIds(f, g, ids);
    var a, b := RoundAccepted(c, f), RoundAccepted(c, g);
    forall i | 0 <= i < |a|
      ensures a[i] == b[i]
    {
      assert b[i] in b && Shown(c, g, b[i].nodeId);
      RoundShows(c, f, a[i].nodeId, a[i]);
      RoundShows(c, g, b[i].nodeId, b[i]);
    }
  }

  lemma ShownFate(c: Config, now: int, pins: seq<RegistryPin>, p: seq<RegistryPin>, id: string)
    requires ShownAgree(c, now, pins) && multiset(p) == multiset(pins)
    ensures var f, g := Fates(Kept(c, now, p)), Fates(Kept(c, now, pins));
            && (id in f <==> id in g)
            && (id in f ==> f[id].Removed? == g[id].Removed? && (Shown(c, g, id) ==> f[id] == g[id]))
  {
    hide IsNewest, HasCandidate, Kept, Shown, Fates;
    PermutedNewest(c, now, p, pins, id);
    PermutedNewest(c, now, pins, pins, id);
    FatesOf(Kept(c, now, p));
    FatesOf(Kept(c, now, pins));
  }

  lemma FatesOf(kept: map<string, Candidate>)
    ensures Fates(kept).Keys == kept.Keys && forall id :: id in kept ==> Fates(kept)[id] == FateOf(kept[id])
  {}

  lemma ShownRound(c: Config, now: int, pins: seq<RegistryPin>, p: seq<RegistryPin>)
    requires ShownAgree(c, now, pins) && multiset(p) == multiset(pins)
    ensures RoundsEqual(c, now, p, pins)
  {
    hide IsNewest, Kept, Fates, RoundAccepted, RoundEffects, Named, Shown, ShownAgree;
    KeptNamed(c, now, p);
    KeptNamed(c, now, pins);
    var f, g := Fates(Kept(c, now, p)), Fates(Kept(c, now, pins));
    forall id: string
      ensures id in f <==> id in g
      ensures id in f ==> f[id].Removed? == g[id].Removed? && (Shown(c, g, id) ==> f[id] == g[id])
    {
      ShownFate(c, now, pins, p, id);
    }
    SameRound(c, f, g);
  }

  /** Newest candidates that decide in two orders with equal rounds agree as far as the round shows. */
  lemma RoundsAgree(c: Config, now: int, pins: seq<RegistryPin>, p: seq<RegistryPin>, q: seq<RegistryPin>, id: string)
    requires RoundsEqual(c, now, p, q) && RoundsEqual(c, now, p, pins) && id in Kept(c, now, p) && id in Kept(c, now, q)
    ensures var k, l := Kept(c, now, p)[id], Kept(c, now, q)[id];
            k.remove == l.remove && (k.node == l.node || k.remove || !Shown(c, Fates(Kept(c, now, pins)), id))
  {
    hide Kept, RoundAccepted, RoundEffects, Named;
    var f, g, h := Fates(Kept(c, now, p)), Fates(Kept(c, now, q)), Fates(Kept(c, now, pins));
    KeptNamed(c, now, p);
    KeptNamed(c, now, q);
    RoundShows(c, f, id, ExampleNode());
    RoundShows(c, g, id, ExampleNode());
    if Shown(c, h, id) {
      var node :| node in RoundAccepted(c, h) && node.nodeId == id;
      RoundShows(c, f, id, node);
      RoundShows(c, g, id, node);
    }
  }

  /** A round has one outcome for every order of its pins exactly when all newest candidates of a node agree on its
      removal, and on its contents when the cap lets it through. */
  lemma RoundsSameIff(c: Config, now: int, pins: seq<RegistryPin>)
    ensures SameRounds(c, now, pins) <==> ShownAgree(c, now, pins)
  {
    hide IsNewest, Kept, Fates, Shown, RoundAccepted, RoundEffects;
    if ShownAgree(c, now, pins) {
      forall p, q | multiset(p) == multiset(pins) && multiset(q) == multiset(pins)
        ensures RoundsEqual(c, now, p, q)
      {
        ShownRound(c, now, pins, p);
        ShownRound(c, now, pins, q);
      }
    }
    if SameRounds(c, now, pins) {
      hide RoundsEqual;
      forall id, k, l | IsNewest(c, now, pins, id, k) && IsNewest(c, now, pins, id, l)
        ensures k.remove == l.remove && (k.node == l.node || k.remove || !Shown(c, Fates(Kept(c, now, pins)), id))
      {
        var p := SomeOrderKeeps(c, now, pins, id, k);
        var q := SomeOrderKeeps(c, now, pins, id, l);
        RoundsAgree(c, now, pins, p, q, id);
      }
    }
  }

  /** Under an idle cap a round has one outcome exactly when all newest candidates of a node mean the same for it. */
  lemma UncappedRoundsSameIff(c: Config, now: int, pins: seq<RegistryPin>)
    requires CapIdle(c, Fates(Kept(c, now, pins)))
    ensures SameRounds(c, now, pins) <==> NewestAgree(c, now, pins)
  {
    hide IsNewest, Kept, RoundAccepted, RoundEffects, SameRounds, CapIdle, HasCandidate, Named;
    RoundsSameIff(c, now, pins);
    KeptNamed(c, now, pins);
    var h := Fates(Kept(c, now, pins));
    if ShownAgree(c, now, pins) {
      forall id, k, l | IsNewest(c, now, pins, id, k) && IsNewest(c, now, pins, id, l)
        ensures FateOf(k) == FateOf(l)
      {
        NewestExists(c, now, pins, id, k);
        PermutedNewest(c, now, pins, pins, id);
        if h[id].Recorded? {
          NamedAt(h, id);
          RoundShows(c, h, id, h[id].node);
        }
      }
    }
  }

  lemma NamedAt(fates: map<string, Fate>, id: string)
    requires Named(fates) && id in fates && fates[id].Recorded?
    ensures fates[id].node.nodeId == id
  {}

  lemma NewestExists(c: Config, now: int, pins: seq<RegistryPin>, id: string, k: Candidate)
    requires IsNewest(c, now, pins, id, k)
    ensures HasCandidate(c, now, pins, id)
  {
    hide StandsFor;
  }

  /** The candidate with the latest timestamp decides: its node is removed, or else recorded when the cap does not bite. */
  lemma LatestDecides(c: Config, now: int, pins: seq<RegistryPin>, id: string, pin: RegistryPin, k: Candidate)
    requires pin in pins && StandsFor(c, now, pin, id, k)
    requires forall p, l :: p in pins && StandsFor(c, now, p, id, l) && l != k ==> l.pin.timestamp < k.pin.timestamp
    ensures var fates := Fates(Kept(c, now, pins));
            && (Remove(id) in RoundEffects(c, fates) <==> k.remove)
            && (k.node in RoundAccepted(c, fates) ==> !k.remove)
            && (!k.remove && CapIdle(c, fates) ==> k.node in RoundAccepted(c, fates))
  {
    hide CandidateFromPin, Kept, RoundEffects, RoundAccepted, CapIdle, Named, Fates;
    KeptIsLatest(c, now, pins, id, pin, k);
    NewestKept(c, now, pins, id);
    var kept := Kept(c, now, pins);
    hide Newer;
    KeptNamed(c, now, pins);
    FatesOf(kept);
    RoundShows(c, Fates(kept), id, k.node);
  }

  // ---- What a round leaves in the store ----

  predicate Names(e: Effect, id: string)
  {
    match e
    case Remove(nodeId) => nodeId == id
    case Accept(node) => node.nodeId == id
  }

  ghost predicate SameAt(s: State, t: State, id: string)
  {
    && (id in s.peers <==> id in t.peers) && (id in s.peers ==> s.peers[id] == t.peers[id])
    && (id in s.snapshots <==> id in t.snapshots) && (id in s.snapshots ==> s.snapshots[id] == t.snapshots[id])
  }

  lemma {:induction false} NotNamed(s: State, effects: seq<Effect>, id: string)
    requires forall e <- effects :: !Names(e, id)
    ensures SameAt(s, ApplyAll(s, effects), id)
  {
    if effects != [] {
      assert effects[|effects| - 1] in effects;
      NotNamed(s, effects[..|effects| - 1], id);
    }
  }

  lemma {:induction false} OnlyRemoved(s: State, effects: seq<Effect>, id: string)
    requires id != "" && Remove(id) in effects && forall e <- effects :: Names(e, id) ==> e == Remove(id)
    ensures var t := ApplyAll(s, effects); id !in t.peers && id !in t.snapshots
  {
    var front, last := effects[..|effects| - 1], effects[|effects| - 1];
    assert last in effects;
    if Remove(id) in front {
      OnlyRemoved(s, front, id);
    } else {
      assert effects == front + [last];
    }
  }

  lemma {:induction false} OnlyRecorded(s: State, effects: seq<Effect>, id: string, node: RegistryNode)
    requires id != "" && node.nodeId == id
    requires forall e <- effects :: Names(e, id) ==> e == Accept(node)
    ensures var t := ApplyAll(s, effects);
            && (Accept(node) in effects ==> id in t.peers && t.peers[id] == node)
            && (id in t.snapshots <==> id in s.snapshots) && (id in s.snapshots ==> t.snapshots[id] == s.snapshots[id])
  {
    if effects != [] {
      var front, last := effects[..|effects| - 1], effects[|effects| - 1];
      assert last in effects && effects == front + [last];
      OnlyRecorded(s, front, id, node);
    }
  }

  /** After a round a node for removal has neither peer nor snapshot, an accepted node is the peer of its id, and every
      other node is as it was. */
  lemma RoundLeaves(c: Config, now: int, pins: seq<RegistryPin>, s: State, id: string)
    requires id != ""
    ensures var fates := Fates(Kept(c, now, pins));
            var t := ApplyAll(s, RoundEffects(c, fates));
            && (id in fates && fates[id].Removed? ==> id !in t.peers && id !in t.snapshots)
            && (forall node :: node in RoundAccepted(c, fates) && node.nodeId == id ==>
                  && id in t.peers && t.peers[id] == node
                  && (id in t.snapshots <==> id in s.snapshots) && (id in s.snapshots ==> t.snapshots[id] == s.snapshots[id]))
            && ((id in fates ==> fates[id].Recorded?) && !Shown(c, fates, id) ==> SameAt(s, t, id))
  {
    hide Kept, Fates, RoundAccepted, RoundEffects, ApplyAll, SameAt, Named;
    var fates := Fates(Kept(c, now, pins));
    var effects := RoundEffects(c, fates);
    KeptNamed(c, now, pins);
    EffectsNaming(c, fates, id);
    if id in fates && fates[id].Removed? {
      OnlyRemoved(s, effects, id);
    } else if Shown(c, fates, id) {
      OnlyRecorded(s, effects, id, fates[id].node);
    } else {
      NotNamed(s, effects, id);
    }
  }

  lemma EffectsNaming(c: Config, fates: map<string, Fate>, id: string)
    requires Named(fates)
    ensures forall e :: e in RoundEffects(c, fates) && Names(e, id) ==>
              if e.Remove? then id in fates && fates[id].Removed?
              else e.node in RoundAccepted(c, fates) && id in fates && fates[id] == Recorded(e.node)
    ensures Remove(id) in RoundEffects(c, fates) <==> id in fates && fates[id].Removed?
    ensures forall node :: Accept(node) in RoundEffects(c, fates) <==> node in RoundAccepted(c, fates)
  {
    hide Removals, Accepted, Less, RoundAccepted;
    var ids := SortedList(fates.Keys);
    RoundShows(c, fates, id, ExampleNode());
    forall node: RegistryNode
      ensures Accept(node) in RoundEffects(c, fates) <==> node in RoundAccepted(c, fates)
      ensures node in RoundAccepted(c, fates) && node.nodeId == id ==> id in fates && fates[id] == Recorded(node)
    {
      OnlyRemovals(fates, ids, node);
      AcceptsHold(RoundAccepted(c, fates), node);
      RoundShows(c, fates, id, node);
    }
  }

  lemma {:induction false} OnlyRemovals(fates: map<string, Fate>, ids: seq<string>, node: RegistryNode)
    requires forall i <- ids :: i in fates
    ensures Accept(node) !in Removals(fates, ids)
  {
    if ids != [] {
      OnlyRemovals(fates, ids[..|ids| - 1], node);
    }
  }

  lemma AcceptsHold(nodes: seq<RegistryNode>, node: RegistryNode)
    ensures Accept(node) in Accepts(nodes) <==> node in nodes
  {
    if node in nodes {
      var i :| 0 <= i < |nodes| && nodes[i] == node;
      assert Accepts(nodes)[i] == Accept(node);
    }
  }

  // ---- A tie ----

  /** Settings under which every content decodes to one node that owns its id. */
  function OneNode(node: RegistryNode): Config
  {
    Config("", "", 0, content => Some(node), key => Some("a"), url => true)
  }

  function ExampleNode(): RegistryNode
  {
    RegistryNode(PROTOCOL_NODE, "1", "mvc:a", "m", "u", "k", [PRESENCE_CAPABILITY], 0, 0)
  }

  /** A registration and a revocation listed under one pin id and timestamp. */
  function TyingPins(): (RegistryPin, RegistryPin)
  {
    (RegistryPin("p", "create", "mvc", 1, "x", ""), RegistryPin("p", "revoke", "mvc", 1, "x", ""))
  }

  lemma ExampleTexts()
    ensures TrimSpace("mvc") == "mvc" && TrimSpace("create") == "create" && TrimSpace("revoke") == "revoke"
    ensures TrimSpace("x") == "x" && TrimSpace("1") == "1" && TrimSpace("m") == "m" && TrimSpace("u") == "u" && TrimSpace("k") == "k"
    ensures TrimSpace("mvc:a") == "mvc:a" && TrimSpace(PROTOCOL_NODE) == PROTOCOL_NODE
    ensures TrimSpace(PRESENCE_CAPABILITY) == PRESENCE_CAPABILITY
  {
    hide TrimSpace;
    NothingToTrim("mvc");
    NothingToTrim("create");
    NothingToTrim("revoke");
    NothingToTrim("x");
    NothingToTrim("1");
    NothingToTrim("m");
    NothingToTrim("u");
    NothingToTrim("k");
    NothingToTrim("mvc:a");
    NothingToTrim(PROTOCOL_NODE);
    NothingToTrim(PRESENCE_CAPABILITY);
  }

  lemma LowerTexts()
    ensures ToLower("create") == "create" && ToLower("revoke") == "revoke"
  {}

  lemma ExampleAccepted()
    ensures var node := ExampleNode(); Trimmed(node) == node && AcceptNode(OneNode(node), node)
  {
    hide TrimSpace, EqualFold;
    ExampleTexts();
    FoldsToItself(PRESENCE_CAPABILITY);
    assert PRESENCE_CAPABILITY in ExampleNode().capabilities;
  }

  lemma FoldsToItself(s: string)
    ensures EqualFold(s, s)
  {}

  lemma TyingCandidates()
    ensures var c := OneNode(ExampleNode());
            && CandidateFromPin(c, 0, TyingPins().0) == Some(Candidate(TyingPins().0, ExampleNode(), false))
            && CandidateFromPin(c, 0, TyingPins().1) == Some(Candidate(TyingPins().1, ExampleNode(), true))
  {
    hide TrimSpace, EqualFold, ToLower, AcceptNode, Trimmed;
    ExampleTexts();
    LowerTexts();
    FoldsToItself("mvc");
    ExampleAccepted();
    assert "create"[0] != "revoke"[0] && "modify"[0] != "revoke"[0] && |"mvc:a"| == 5;
  }

  /** A registration and a later revocation: the node is removed, in whatever order the two are listed. */
  lemma LaterRevokeRemoves(pins: seq<RegistryPin>)
    requires var p, q := TyingPins().0, TyingPins().1.(id := "q", timestamp := 2); pins == [p, q] || pins == [q, p]
    ensures var fates := Fates(Kept(OneNode(ExampleNode()), 0, pins));
            && Remove("mvc:a") in RoundEffects(OneNode(ExampleNode()), fates)
            && ExampleNode() !in RoundAccepted(OneNode(ExampleNode()), fates)
  {
    hide CandidateFromPin, RoundEffects, RoundAccepted, Kept, Fates;
    var p, q := TyingPins().0, TyingPins().1.(id := "q", timestamp := 2);
    TyingCandidates();
    LaterRevocation();
    assert q in pins;
    LatestDecides(OneNode(ExampleNode()), 0, pins, "mvc:a", q, Candidate(q, ExampleNode(), true));
  }

  lemma LaterRevocation()
    ensures var q := TyingPins().1.(id := "q", timestamp := 2);
            CandidateFromPin(OneNode(ExampleNode()), 0, q) == Some(Candidate(q, ExampleNode(), true))
  {
    hide TrimSpace, EqualFold, ToLower, AcceptNode, Trimmed;
    ExampleTexts();
    LowerTexts();
    FoldsToItself("mvc");
    ExampleAccepted();
    assert "create"[0] != "revoke"[0] && "modify"[0] != "revoke"[0] && |"mvc:a"| == 5;
  }

  /** They tie and disagree: which of them counts depends on the order in which they are listed. */
  lemma TieReceivable()
    ensures var c, pins := OneNode(ExampleNode()), [TyingPins().0, TyingPins().1];
            !NewestAgree(c, 0, pins) && !SameFates(c, 0, pins) && !SameRounds(c, 0, pins)
  {
    hide CandidateFromPin, Newer, SameFates, SameRounds, Kept;
    var c, pins := OneNode(ExampleNode()), [TyingPins().0, TyingPins().1];
    var k, l := Candidate(TyingPins().0, ExampleNode(), false), Candidate(TyingPins().1, ExampleNode(), true);
    TyingCandidates();
    TieMeansEqual(k, l);
    TieMeansEqual(l, k);
    NotNewerThanItself(k);
    NotNewerThanItself(l);
    TieIsNewest(c, pins, k, l);
    OrderIrrelevantIff(c, 0, pins);
    UncappedRoundsSameIff(c, 0, pins);
  }

  lemma TieIsNewest(c: Config, pins: seq<RegistryPin>, k: Candidate, l: Candidate)
    requires |pins| == 2 && StandsFor(c, 0, pins[0], "mvc:a", k) && StandsFor(c, 0, pins[1], "mvc:a", l)
    requires !Newer(k, l) && !Newer(l, k) && !Newer(k, k) && !Newer(l, l)
    ensures IsNewest(c, 0, pins, "mvc:a", k) && IsNewest(c, 0, pins, "mvc:a", l)
  {
    hide CandidateFromPin, Newer;
    assert pins[0] in pins && pins[1] in pins;
  }
}
