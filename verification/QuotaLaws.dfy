/** Which calls a tenant's quota admits, and what a run of calls counts. */
module QuotaLaws {
  import opened Wrappers
  import opened Quota

  predicate Within(limit: int, used: int) {
    limit == UNLIMITED || used < limit
  }

  /** A known, active tenant is admitted unless a limit that is not lifted is reached; the call limit is named first. */
  lemma AdmittedIff(s: Store, id: string)
    ensures CheckQuota(s, id).None?
       <==> && id in s.tenants && s.tenants[id].active
            && (id in s.usage ==>
                  && Within(s.tenants[id].maxApiCalls, s.usage[id].apiCallsToday)
                  && Within(s.tenants[id].maxConcurrentTasks, s.usage[id].concurrentTasks))
    ensures CheckQuota(s, id) == Some(TenantNotFound) <==> id !in s.tenants
    ensures CheckQuota(s, id) == Some(NotActive) <==> id in s.tenants && !s.tenants[id].active
    ensures CheckQuota(s, id) == Some(CallsExceeded)
       <==> && id in s.tenants && s.tenants[id].active && id in s.usage
            && !Within(s.tenants[id].maxApiCalls, s.usage[id].apiCallsToday)
  {
  }

  ghost predicate Lifted(s: Store, id: string) {
    && id in s.tenants && s.tenants[id].active
    && s.tenants[id].maxApiCalls == -1 && s.tenants[id].maxConcurrentTasks == -1
  }

  /** An active tenant without limits is never refused, however many calls and tasks a run has. */
  lemma {:induction false} UnlimitedIsNeverRefused(s: Store, ops: seq<Op>, id: string)
    requires Lifted(s, id)
    ensures Lifted(Run(s, ops), id) && CheckQuota(Run(s, ops), id).None?
    decreases |ops|
  {
    if ops != [] {
      UnlimitedIsNeverRefused(Apply(s, ops[0]), ops[1..], id);
    }
  }

  /** At its task limit a tenant is refused every call, and nothing changes, until tasks end. */
  lemma TaskLimitRefuses(s: Store, id: string, running: int)
    requires id in s.tenants && s.tenants[id].active && id in s.usage
    requires s.tenants[id].maxApiCalls == -1 && s.tenants[id].maxConcurrentTasks >= 0
    ensures running >= s.tenants[id].maxConcurrentTasks ==>
              var full := Apply(s, Tasks(id, running));
              CheckQuota(full, id) == Some(TasksExceeded) && Apply(full, Record(id)) == full
    ensures running < s.tenants[id].maxConcurrentTasks ==> CheckQuota(Apply(s, Tasks(id, running)), id).None?
  {
  }

  /** The calls of a tenant that a run counts: those since its last reset. */
  function CallsCounted(before: int, ops: seq<Op>, id: string): int
    decreases |ops|
  {
    if ops == [] then before
    else
      match ops[0]
      case Record(other) => CallsCounted(if other == id then before + 1 else before, ops[1..], id)
      case Reset(other) => CallsCounted(if other == id then 0 else before, ops[1..], id)
      case Tasks(_, _) => CallsCounted(before, ops[1..], id)
  }

  /** Every admitted call is counted once, for its tenant only, and a reset starts the count again. */
  lemma {:induction false} EveryCallIsCounted(s: Store, ops: seq<Op>, id: string)
    requires Lifted(s, id) && id in s.usage
    ensures id in Run(s, ops).usage
    ensures Run(s, ops).usage[id].apiCallsToday == CallsCounted(s.usage[id].apiCallsToday, ops, id)
    decreases |ops|
  {
    if ops != [] {
      assert CheckQuota(s, id).None?;
      EveryCallIsCounted(Apply(s, ops[0]), ops[1..], id);
    }
  }

  /** A tenant without a usage record is admitted, and its first call counts as 1. */
  lemma FirstCallCounts(s: Store, id: string)
    requires id in s.tenants && s.tenants[id].active && id !in s.usage
    ensures CheckQuota(s, id).None?
    ensures Recorded(s, id) == s.(usage := s.usage[id := Usage(1, 0)])
  {
  }

  /** The tasks of a tenant: those last reported. Calls and resets leave them alone. */
  function TasksReported(before: int, ops: seq<Op>, id: string): int
    decreases |ops|
  {
    if ops == [] then before
    else TasksReported(if ops[0].Tasks? && ops[0].id == id then ops[0].running else before, ops[1..], id)
  }

  lemma {:induction false} TasksStand(s: Store, ops: seq<Op>, id: string)
    requires id in s.usage
    ensures id in Run(s, ops).usage
    ensures Run(s, ops).usage[id].concurrentTasks == TasksReported(s.usage[id].concurrentTasks, ops, id)
    ensures Run(s, ops).tenants == s.tenants
    decreases |ops|
  {
    if ops != [] {
      TasksStand(Apply(s, ops[0]), ops[1..], id);
    }
  }
}
