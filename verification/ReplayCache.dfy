/** The bounded in-process replay cache. */
module ReplayCache {
  import opened Wrappers
  import opened Clock

  datatype CacheState = CacheState(entries: map<string, Instant>, maxEntries: nat)

  /** Entries that have not reached their expiry. */
  function Unexpired(entries: map<string, Instant>, now: Instant): map<string, Instant> {
    map jti | jti in entries && Less(now, entries[jti]) :: entries[jti]
  }

  /** One atomic `check_and_record`: evict, refuse a known identifier, refuse when full, record. */
  function Admit(s: CacheState, jti: string, expiresAt: Instant, now: Instant): (bool, CacheState) {
    var live := Unexpired(s.entries, now);
    if jti in live || |live| >= s.maxEntries then (false, s.(entries := live))
    else (true, s.(entries := live[jti := expiresAt]))
  }

  class InMemoryReplayCache {
    const maxEntries: nat
    var entries: map<string, Instant>

    /** A cache without room for one entry is refused. */
    constructor (maxEntries: nat)
      requires maxEntries >= 1
      ensures State() == CacheState(map[], maxEntries)
    {
      this.maxEntries := maxEntries;
      entries := map[];
    }

    ghost function State(): CacheState
      reads this
    {
      CacheState(entries, maxEntries)
    }

    /** Walks a snapshot of the entries and deletes the expired ones. */
    method EvictExpired(now: Instant)
      modifies this
      ensures entries == Unexpired(old(entries), now)
    {
      hide UtcTime.Key;
      var snapshot := entries.Keys;
      while snapshot != {}
        invariant snapshot <= entries.Keys <= old(entries.Keys)
        invariant forall jti | jti in entries :: entries[jti] == old(entries)[jti]
        invariant forall jti | jti in old(entries) && jti !in snapshot ::
          jti in entries <==> Less(now, old(entries)[jti])
        decreases |snapshot|
      {
        var jti :| jti in snapshot;
        snapshot := snapshot - {jti};
        if Leq(entries[jti], now) {
          entries := entries - {jti};
        }
      }
    }

    method CheckAndRecord(jti: string, expiresAt: Instant, now: Instant) returns (isNew: bool)
      modifies this
      ensures (isNew, State()) == Admit(old(State()), jti, expiresAt, now)
    {
      EvictExpired(now);
      if jti in entries {
        return false;
      }
      if |entries| >= maxEntries {
        return false;
      }
      entries := entries[jti := expiresAt];
      return true;
    }
  }
}
