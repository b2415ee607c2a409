/** Which sessions reap_locked and evict_idle_locked drop, when nothing else runs
    (ime-unix-service/src/session/session_manager.cpp). */
module SessionEviction {
  type Id = nat

  datatype Info = Info(lastUsed: int, closing: bool, inFlight: bool) {
    predicate Idle() { !closing && !inFlight }
  }

  type Table = map<Id, Info>

  function IdleIds(sessions: Table): set<Id> {
    set id | id in sessions && sessions[id].Idle()
  }

  /** `kept` is `sessions` without some of its idle sessions, all of them last used no later than every idle
      session that is kept. */
  ghost predicate DropsOldest(sessions: Table, kept: Table) {
    && kept.Keys <= sessions.Keys
    && (forall id :: id in kept ==> kept[id] == sessions[id])
    && (forall id :: id in sessions && id !in kept ==> sessions[id].Idle())
    && (forall gone, id :: gone in sessions && gone !in kept && id in kept && kept[id].Idle() ==> sessions[gone].lastUsed <= kept[id].lastUsed)
  }

  /** Drops exactly the idle sessions unused for the timeout. */
  method Reap(sessions: Table, now: int, timeout: int) returns (kept: Table)
    ensures forall id :: id in kept <==> id in sessions && !(sessions[id].Idle() && now - sessions[id].lastUsed >= timeout)
    ensures forall id :: id in kept ==> kept[id] == sessions[id]
  {
    kept := sessions;
    var rest := sessions.Keys;
    while rest != {}
      invariant rest <= sessions.Keys && kept.Keys <= sessions.Keys
      invariant forall id :: id in kept ==> kept[id] == sessions[id]
      invariant forall id :: id in sessions && id in rest ==> id in kept
      invariant forall id :: id in sessions && id !in rest ==>
        (id in kept <==> !(sessions[id].Idle() && now - sessions[id].lastUsed >= timeout))
      decreases rest
    {
      var id :| id in rest;
      rest := rest - {id};
      if sessions[id].Idle() && now - sessions[id].lastUsed >= timeout {
        kept := kept - {id};
      }
    }
  }

  /** The idle session that was used longest ago. */
  method Oldest(sessions: Table) returns (oldest: Id)
    requires IdleIds(sessions) != {}
    ensures oldest in IdleIds(sessions) && forall id :: id in IdleIds(sessions) ==> sessions[oldest].lastUsed <= sessions[id].lastUsed
  {
    var rest := IdleIds(sessions);
    oldest :| oldest in rest;
    rest := rest - {oldest};
    while rest != {}
      invariant oldest in IdleIds(sessions) && rest <= IdleIds(sessions)
      invariant forall id :: id in IdleIds(sessions) && id !in rest ==> sessions[oldest].lastUsed <= sessions[id].lastUsed
      decreases rest
    {
      var id :| id in rest;
      rest := rest - {id};
      if sessions[id].lastUsed < sessions[oldest].lastUsed {
        oldest := id;
      }
    }
  }

  /** Drops the least recently used idle sessions until at most `target` are left, and no more than that. */
  method EvictIdle(sessions: Table, target: nat) returns (kept: Table)
    ensures DropsOldest(sessions, kept)
    ensures |IdleIds(kept)| == if |IdleIds(sessions)| > target then target else |IdleIds(sessions)|
  {
    kept := sessions;
    while |IdleIds(kept)| > target
      invariant DropsOldest(sessions, kept)
      invariant |IdleIds(kept)| <= |IdleIds(sessions)|
      invariant |IdleIds(sessions)| > target ==> |IdleIds(kept)| >= target
      invariant |IdleIds(sessions)| <= target ==> kept == sessions
      decreases |IdleIds(kept)|
    {
      var oldest := Oldest(kept);
      assert IdleIds(kept - {oldest}) == IdleIds(kept) - {oldest};
      kept := kept - {oldest};
    }
  }
}
