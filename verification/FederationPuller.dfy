/** What the pull loop decides: which snapshots it accepts and how long it backs off from a failing peer. */
module FederationPuller {
  import opened Federation
  import opened GoStrings
  import opened Wrappers
  import Regroup

  /** Settings of the pull loop. Checking a signature against a public key is an oracle; durations are in
      nanoseconds. */
  datatype Config = Config(selfNodeId: string, verify: (Snapshot, string) -> bool, backoffBase: int, backoffMax: int)

  predicate ValidConfig(c: Config) { 0 < c.backoffBase <= c.backoffMax }

  const PROTOCOL_PRESENCE: string := "metaso-p2p-presence"

  const VERSION: string := "1.0.0"

  /** Milliseconds of a clock that counts nanoseconds. */
  function Millis(now: int): int { now / 1_000_000 }

  // ---- Validation ----

  datatype Refusal = WrongProtocol | WrongVersion | NotDated | NoLifetime | Stale | Unverified | NotNewer

  /** The part of validation that looks at the snapshot alone. */
  predicate WellFormed(s: Snapshot)
  {
    s.protocol == PROTOCOL_PRESENCE && TrimSpace(s.version) == VERSION && s.generatedAt > 0 && s.ttlSeconds > 0
  }

  predicate Verified(c: Config, s: Snapshot, peer: RegistryNode)
  {
    s.nodeId == peer.nodeId && c.verify(s, peer.publicKey)
  }

  /** The stored snapshot, if any, does not stand in the way of sequence number `sequence`. */
  predicate Supersedes(sequence: nat, last: Option<Snapshot>, now: int)
  {
    last.None? || SnapshotExpired(last.value, Millis(now)) || sequence > last.value.sequence
  }

  method ValidateSnapshot(c: Config, snapshot: Snapshot, peer: RegistryNode, last: Option<Snapshot>, now: int)
    returns (refusal: Option<Refusal>)
    ensures refusal == Validation(c, snapshot, peer, last, now)
    ensures refusal.None? <==>
            WellFormed(snapshot) && !SnapshotExpired(snapshot, Millis(now)) && Verified(c, snapshot, peer)
            && Supersedes(snapshot.sequence, last, now)
    ensures Lasting(snapshot) && (last.Some? ==> Lasting(last.value)) ==>
              (refusal.None? <==>
               && snapshot.protocol == "metaso-p2p-presence" && TrimSpace(snapshot.version) == "1.0.0"
               && snapshot.generatedAt > 0 && snapshot.ttlSeconds > 0
               && now / 1_000_000 <= snapshot.generatedAt + 1000 * snapshot.ttlSeconds
               && snapshot.nodeId == peer.nodeId && c.verify(snapshot, peer.publicKey)
               && (last.None? || now / 1_000_000 > last.value.generatedAt + 1000 * last.value.ttlSeconds
                   || snapshot.sequence > last.value.sequence))
  {
    hide TrimSpace, SnapshotExpired;
    if Lasting(snapshot) {
      LiveIff(snapshot, Millis(now));
    }
    if last.Some? && Lasting(last.value) {
      LiveIff(last.value, Millis(now));
    }
    if snapshot.protocol != PROTOCOL_PRESENCE {
      return Some(WrongProtocol);
    }
    if TrimSpace(snapshot.version) != VERSION {
      return Some(WrongVersion);
    }
    if snapshot.generatedAt <= 0 {
      return Some(NotDated);
    }
    if snapshot.ttlSeconds <= 0 {
      return Some(NoLifetime);
    }
    if SnapshotExpired(snapshot, Millis(now)) {
      return Some(Stale);
    }
    if snapshot.nodeId != peer.nodeId || !c.verify(snapshot, peer.publicKey) {
      return Some(Unverified);
    }
    if last.Some? && !SnapshotExpired(last.value, Millis(now)) && snapshot.sequence <= last.value.sequence {
      return Some(NotNewer);
    }
    return None;
  }

  /** The first check that fails names the refusal. */
  function Validation(c: Config, s: Snapshot, peer: RegistryNode, last: Option<Snapshot>, now: int): Option<Refusal>
  {
    if s.protocol != PROTOCOL_PRESENCE then Some(WrongProtocol)
    else if TrimSpace(s.version) != VERSION then Some(WrongVersion)
    else if s.generatedAt <= 0 then Some(NotDated)
    else if s.ttlSeconds <= 0 then Some(NoLifetime)
    else if SnapshotExpired(s, Millis(now)) then Some(Stale)
    else if !Verified(c, s, peer) then Some(Unverified)
    else if !Supersedes(s.sequence, last, now) then Some(NotNewer)
    else None
  }

  lemma ValidationMeans(c: Config, s: Snapshot, peer: RegistryNode, last: Option<Snapshot>, now: int)
    ensures Validation(c, s, peer, last, now).None? <==>
            WellFormed(s) && !SnapshotExpired(s, Millis(now)) && Verified(c, s, peer) && Supersedes(s.sequence, last, now)
  {
    hide TrimSpace, SnapshotExpired, Millis;
  }

  // ---- Backoff ----

  /** The wait after a number of consecutive failures: doubled each time, up to the maximum. */
  function Delay(c: Config, failures: nat): int
    requires failures > 0
  {
    var doubled := c.backoffBase * Regroup.Pow2(failures - 1);
    if doubled > c.backoffMax then c.backoffMax else doubled
  }

  lemma {:induction false} Pow2Monotone(a: nat, b: nat)
    requires a <= b
    ensures 1 <= Regroup.Pow2(a) <= Regroup.Pow2(b)
  {
    if a < b {
      Pow2Monotone(a, b - 1);
    }
  }

  lemma DoubledMonotone(base: int, a: nat, b: nat)
    requires base > 0 && a <= b
    ensures base <= base * Regroup.Pow2(a) <= base * Regroup.Pow2(b)
  {
    hide Regroup.Pow2;
    Pow2Monotone(a, b);
    var x, y := Regroup.Pow2(a), Regroup.Pow2(b);
    assert base * (x - 1) >= 0 && base * (y - x) >= 0;
  }

  /** The first failure waits for the base, every further one twice as long, never longer than the maximum. */
  lemma DelayDoubles(c: Config, failures: nat)
    requires ValidConfig(c) && failures > 0
    ensures Delay(c, 1) == c.backoffBase
    ensures Delay(c, failures + 1) == if 2 * Delay(c, failures) > c.backoffMax then c.backoffMax else 2 * Delay(c, failures)
  {
    hide Regroup.Pow2;
    Pow2Starts();
    Pow2Doubles(c.backoffBase, failures);
    DoubledMonotone(c.backoffBase, failures - 1, failures);
  }

  /** Waits stay within the configured bounds and never shrink as failures repeat. */
  lemma DelayGrows(c: Config, a: nat, b: nat)
    requires ValidConfig(c) && 0 < a <= b
    ensures c.backoffBase <= Delay(c, a) <= Delay(c, b) <= c.backoffMax
  {
    hide Regroup.Pow2;
    DoubledMonotone(c.backoffBase, a - 1, b - 1);
  }

  /** The doubling loop never exceeds the maximum, so it cannot overflow. */
  method BackoffDelay(c: Config, failureCount: nat) returns (delay: int)
    requires ValidConfig(c) && failureCount > 0
    ensures delay == Delay(c, failureCount)
  {
    hide Regroup.Pow2;
    Pow2Starts();
    delay := c.backoffBase;
    var i: nat := 1;
    while i < failureCount && delay < c.backoffMax
      invariant 1 <= i <= failureCount && delay <= c.backoffMax
      invariant delay == c.backoffBase * Regroup.Pow2(i - 1)
    {
      Pow2Doubles(c.backoffBase, i);
      if delay > c.backoffMax / 2 {
        DoubledMonotone(c.backoffBase, i, failureCount - 1);
        delay := c.backoffMax;
        return;
      }
      delay := delay * 2;
      i := i + 1;
    }
    DoubledMonotone(c.backoffBase, i - 1, failureCount - 1);
    if delay > c.backoffMax {
      delay := c.backoffMax;
    }
  }

  lemma Pow2Starts()
    ensures Regroup.Pow2(0) == 1
  {}

  lemma Pow2Doubles(base: int, i: nat)
    requires i > 0
    ensures base * Regroup.Pow2(i) == base * Regroup.Pow2(i - 1) * 2
  {
    assert Regroup.Pow2(i) == 2 * Regroup.Pow2(i - 1);
  }
}
