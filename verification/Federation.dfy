/** The entities of the federation: registry nodes, presence entries and signed presence snapshots. */
module Federation {
  import Regroup

  const DEFAULT_LOCAL_NODE: string := "local"

  datatype RegistryNode = RegistryNode(protocol: string, version: string, nodeId: string, network: string,
                                       presenceUrl: string, publicKey: string, capabilities: seq<string>,
                                       publishedAt: int, validUntil: int)

  datatype OnlineEntry = OnlineEntry(metaId: string, kind: string, connectedAt: int, lastSeenAt: int,
                                     sources: int, sourceNodeIds: seq<string>)

  datatype Snapshot = Snapshot(protocol: string, version: string, nodeId: string, generatedAt: int, ttlSeconds: int,
                               sequence: nat, items: seq<OnlineEntry>, signature: string)

  /** The end of a snapshot's life is computed in 64-bit arithmetic. */
  predicate SnapshotExpired(s: Snapshot, now: int)
  {
    Regroup.Wrap64(s.generatedAt + Regroup.Wrap64(s.ttlSeconds * 1000)) < now
  }

  predicate PeerExpired(peer: RegistryNode, now: int)
  {
    0 < peer.validUntil < now
  }

  /** The lifetime in milliseconds and its end are 64-bit integers. */
  predicate Lasting(s: Snapshot)
  {
    && -0x8000_0000_0000_0000 <= 1000 * s.ttlSeconds < 0x8000_0000_0000_0000
    && -0x8000_0000_0000_0000 <= s.generatedAt + 1000 * s.ttlSeconds < 0x8000_0000_0000_0000
  }

  /** A snapshot is live as long as the clock has not passed the end of its lifetime. */
  lemma LiveIff(s: Snapshot, now: int)
    requires Lasting(s)
    ensures !SnapshotExpired(s, now) <==> now <= s.generatedAt + 1000 * s.ttlSeconds
  {
    hide Regroup.Wrap64;
    Regroup.WrapInRange(s.ttlSeconds * 1000);
    Regroup.WrapInRange(s.generatedAt + s.ttlSeconds * 1000);
  }

  /** A peer without an end of validity never expires. */
  lemma PeerLiveIff(peer: RegistryNode, now: int)
    ensures !PeerExpired(peer, now) <==> peer.validUntil <= 0 || now <= peer.validUntil
  {}

  /** Beyond that range a snapshot may be dead on arrival: the longest of these lifetimes ends before the epoch. */
  lemma LifetimeWraps(s: Snapshot, now: nat)
    requires s.generatedAt == 1 && s.ttlSeconds == 9_223_372_036_854_776
    ensures SnapshotExpired(s, now)
  {
    Regroup.WrapAbove(s.ttlSeconds * 1000);
    hide Regroup.Wrap64;
    Regroup.WrapInRange(1 + Regroup.Wrap64(s.ttlSeconds * 1000));
  }
}
