/**
 Tenant quotas (apps/governance/tenant.py) and the call recorder that checks one and then counts
 (apps/governance/main.py), first one call at a time and then with workers interleaving the two parts.
 */
module Quota {
  import opened Wrappers
  import opened Sets

  const UNLIMITED := -1

  datatype Tenant = Tenant(active: bool, maxApiCalls: int, maxConcurrentTasks: int)

  datatype Usage = Usage(apiCallsToday: int, concurrentTasks: int)

  datatype Refusal = TenantNotFound | NotActive | CallsExceeded | TasksExceeded

  datatype Store = Store(tenants: map<string, Tenant>, usage: map<string, Usage>)

  /** `check_quota`: the reason to refuse, if any. */
  function CheckQuota(s: Store, id: string): Option<Refusal> {
    if id !in s.tenants then Some(TenantNotFound)
    else if !s.tenants[id].active then Some(NotActive)
    else if id !in s.usage then None
    else
      var t, u := s.tenants[id], s.usage[id];
      if t.maxApiCalls != UNLIMITED && u.apiCallsToday >= t.maxApiCalls then Some(CallsExceeded)
      else if t.maxConcurrentTasks != UNLIMITED && u.concurrentTasks >= t.maxConcurrentTasks then Some(TasksExceeded)
      else None
  }

  function UsageOf(s: Store, id: string): Usage {
    if id in s.usage then s.usage[id] else Usage(0, 0)
  }

  function Incremented(s: Store, id: string): Store {
    var u := UsageOf(s, id);
    s.(usage := s.usage[id := u.(apiCallsToday := u.apiCallsToday + 1)])
  }

  class TenantStore {
    var tenants: map<string, Tenant>
    var usage: map<string, Usage>

    constructor ()
      ensures View() == Store(map[], map[])
    {
      tenants, usage := map[], map[];
    }

    ghost function View(): Store
      reads this
    {
      Store(tenants, usage)
    }

    /** `id` is the fresh id the source draws at random. */
    method RegisterTenant(id: string, tenant: Tenant)
      requires id !in tenants
      modifies this
      ensures View() == Store(old(tenants)[id := tenant], old(usage)[id := Usage(0, 0)])
    {
      tenants := tenants[id := tenant];
      usage := usage[id := Usage(0, 0)];
    }

    method UpdateQuota(id: string, maxApiCalls: Option<int>, maxConcurrentTasks: Option<int>) returns (found: bool)
      modifies this`tenants
      ensures found <==> id in old(tenants)
      ensures !found ==> tenants == old(tenants)
      ensures found ==> tenants == old(tenants)[id := old(tenants)[id].(
                maxApiCalls := if maxApiCalls.Some? then maxApiCalls.value else old(tenants)[id].maxApiCalls,
                maxConcurrentTasks :=
                  if maxConcurrentTasks.Some? then maxConcurrentTasks.value else old(tenants)[id].maxConcurrentTasks)]
    {
      if id !in tenants {
        return false;
      }
      var tenant := tenants[id];
      if maxApiCalls.Some? {
        tenant := tenant.(maxApiCalls := maxApiCalls.value);
      }
      if maxConcurrentTasks.Some? {
        tenant := tenant.(maxConcurrentTasks := maxConcurrentTasks.value);
      }
      tenants := tenants[id := tenant];
      return true;
    }

    method SetUsage(id: string, apiCallsToday: Option<int>, concurrentTasks: Option<int>) returns (found: bool)
      modifies this`usage
      ensures found <==> id in old(usage)
      ensures !found ==> usage == old(usage)
      ensures found ==> usage == old(usage)[id := Usage(
                if apiCallsToday.Some? then apiCallsToday.value else old(usage)[id].apiCallsToday,
                if concurrentTasks.Some? then concurrentTasks.value else old(usage)[id].concurrentTasks)]
    {
      if id !in usage {
        return false;
      }
      var u := usage[id];
      if apiCallsToday.Some? {
        u := u.(apiCallsToday := apiCallsToday.value);
      }
      if concurrentTasks.Some? {
        u := u.(concurrentTasks := concurrentTasks.value);
      }
      usage := usage[id := u];
      return true;
    }

    method IncrementApiCalls(id: string) returns (count: int)
      modifies this`usage
      ensures View() == Incremented(old(View()), id)
      ensures count == UsageOf(View(), id).apiCallsToday
    {
      if id !in usage {
        usage := usage[id := Usage(0, 0)];
      }
      var u := usage[id];
      usage := usage[id := u.(apiCallsToday := u.apiCallsToday + 1)];
      count := u.apiCallsToday + 1;
    }

    method RecordApiCall(id: string) returns (r: Result<int, Refusal>)
      modifies this`usage
      ensures View() == Recorded(old(View()), id)
      ensures match CheckQuota(old(View()), id)
              case Some(reason) => r == Err(reason)
              case None => r == Ok(UsageOf(View(), id).apiCallsToday)
    {
      var refusal := CheckQuota(Store(tenants, usage), id);
      if refusal.Some? {
        return Err(refusal.value);
      }
      var count := IncrementApiCalls(id);
      return Ok(count);
    }
  }

  function Recorded(s: Store, id: string): Store {
    if CheckQuota(s, id).Some? then s else Incremented(s, id)
  }

  // ---------- one call at a time ----------

  /** Calls of a tenant with a usage record stay within its limit. */
  ghost predicate WithinLimit(s: Store, id: string, limit: nat) {
    && id in s.tenants && s.tenants[id].maxApiCalls == limit
    && id in s.usage && s.usage[id].apiCallsToday <= limit
  }

  datatype Op = Record(id: string) | Reset(id: string) | Tasks(id: string, running: int)

  function Apply(s: Store, op: Op): Store {
    match op
    case Record(id) => Recorded(s, id)
    case Reset(id) => if id in s.usage then s.(usage := s.usage[id := s.usage[id].(apiCallsToday := 0)]) else s
    case Tasks(id, running) =>
      if id in s.usage then s.(usage := s.usage[id := s.usage[id].(concurrentTasks := running)]) else s
  }

  function Run(s: Store, ops: seq<Op>): Store
    decreases |ops|
  {
    if ops == [] then s else Run(Apply(s, ops[0]), ops[1..])
  }

  /** Sequential check-then-count never passes the limit, and is refused exactly when it is reached. */
  lemma {:induction false} SequentialCallsStayWithin(s: Store, ops: seq<Op>, id: string, limit: nat)
    requires WithinLimit(s, id, limit)
    ensures WithinLimit(Run(s, ops), id, limit)
    ensures CheckQuota(Run(s, ops), id) == Some(CallsExceeded)
       <==> Run(s, ops).tenants[id].active && Run(s, ops).usage[id].apiCallsToday == limit
    decreases |ops|
  {
    if ops != [] {
      SequentialCallsStayWithin(Apply(s, ops[0]), ops[1..], id, limit);
    }
  }

  // ---------- interleaved workers ----------

  // `passed` are the workers between a successful check for the tenant and their increment.
  datatype World = World(store: Store, passed: set<nat>)

  // What comes in between: resets, task counts and calls of other tenants.
  datatype Step = Check(worker: nat) | Count(worker: nat) | Meanwhile(op: Op)

  predicate Enabled(w: World, s: Step, id: string, workers: nat) {
    match s
    case Check(worker) => worker < workers && worker !in w.passed
    case Count(worker) => worker < workers && worker in w.passed
    case Meanwhile(op) => op.Record? ==> op.id != id
  }

  /** A check reads the store under its lock; counting comes later, under its own. */
  function Next(w: World, s: Step, id: string): World {
    match s
    case Check(worker) => if CheckQuota(w.store, id).Some? then w else w.(passed := w.passed + {worker})
    case Count(worker) => World(Incremented(w.store, id), w.passed - {worker})
    case Meanwhile(op) => w.(store := Apply(w.store, op))
  }

  ghost predicate Behaviour(w: World, steps: seq<Step>, id: string, workers: nat)
    decreases |steps|
  {
    steps != [] ==> Enabled(w, steps[0], id, workers) && Behaviour(Next(w, steps[0], id), steps[1..], id, workers)
  }

  function End(w: World, steps: seq<Step>, id: string): World
    decreases |steps|
  {
    if steps == [] then w else End(Next(w, steps[0], id), steps[1..], id)
  }

  ghost predicate Bounded(w: World, id: string, limit: nat, workers: nat) {
    && id in w.store.tenants && w.store.tenants[id].maxApiCalls == limit && id in w.store.usage
    && (forall x :: x in w.passed ==> x < workers)
    && w.store.usage[id].apiCallsToday >= 0 && (limit == 0 ==> w.passed == {})
    && w.store.usage[id].apiCallsToday + |w.passed| <= limit + workers - 1
  }

  function Below(n: nat): (s: set<nat>)
    ensures forall x: nat :: x in s <==> x < n
  {
    if n == 0 then {} else Below(n - 1) + {n - 1}
  }

  lemma {:induction false} BelowSize(n: nat)
    ensures |Below(n)| == n
  {
    if n > 0 {
      BelowSize(n - 1);
    }
  }

  lemma PassedFit(passed: set<nat>, workers: nat)
    requires forall x :: x in passed ==> x < workers
    ensures |passed| <= workers
  {
    BelowSize(workers);
    SubsetSize(passed, Below(workers));
  }

  lemma {:induction false} RunKeepsBound(w: World, steps: seq<Step>, id: string, limit: nat, workers: nat)
    requires Bounded(w, id, limit, workers) && Behaviour(w, steps, id, workers)
    ensures Bounded(End(w, steps, id), id, limit, workers)
    decreases |steps|
  {
    if steps != [] {
      var w' := Next(w, steps[0], id);
      StepKeepsBound(w, steps[0], id, limit, workers);
      RunKeepsBound(w', steps[1..], id, limit, workers);
    }
  }

  lemma StepKeepsBound(w: World, s: Step, id: string, limit: nat, workers: nat)
    requires Bounded(w, id, limit, workers) && Enabled(w, s, id, workers)
    ensures Bounded(Next(w, s, id), id, limit, workers)
  {
    var w' := Next(w, s, id);
    match s
    case Check(worker) => PassedFit(w'.passed, workers);
    case Count(worker) => assert |w'.passed| == |w.passed| - 1;
    case Meanwhile(op) => PassedFit(w.passed, workers);
  }

  /** With W workers the count never passes limit + W - 1, however checks and increments interleave. */
  lemma InterleavedCallsBounded(s: Store, steps: seq<Step>, id: string, limit: nat, workers: nat)
    requires WithinLimit(s, id, limit) && s.usage[id].apiCallsToday >= 0
    requires workers >= 1 && Behaviour(World(s, {}), steps, id, workers)
    ensures var end := End(World(s, {}), steps, id).store;
            id in end.usage && end.usage[id].apiCallsToday <= limit + workers - 1
  {
    RunKeepsBound(World(s, {}), steps, id, limit, workers);
  }

  function Checks(from: nat, to: nat): seq<Step>
    decreases to - from
  {
    if from >= to then [] else [Check(from)] + Checks(from + 1, to)
  }

  function Counts(from: nat, to: nat): seq<Step>
    decreases to - from
  {
    if from >= to then [] else [Count(from)] + Counts(from + 1, to)
  }

  lemma {:induction false} CountsRun(w: World, from: nat, id: string, workers: nat)
    requires from <= workers && forall x: nat :: from <= x < workers ==> x in w.passed
    ensures Behaviour(w, Counts(from, workers), id, workers)
    ensures UsageOf(End(w, Counts(from, workers), id).store, id).apiCallsToday
         == UsageOf(w.store, id).apiCallsToday + (workers - from)
    decreases workers - from
  {
    if from < workers {
      assert Counts(from, workers)[1..] == Counts(from + 1, workers);
      CountsRun(Next(w, Count(from), id), from + 1, id, workers);
    }
  }

  lemma {:induction false} ChecksThenCounts(w: World, from: nat, id: string, workers: nat)
    requires from <= workers && CheckQuota(w.store, id).None? && w.passed == Below(from)
    ensures Behaviour(w, Checks(from, workers) + Counts(0, workers), id, workers)
    ensures UsageOf(End(w, Checks(from, workers) + Counts(0, workers), id).store, id).apiCallsToday
         == UsageOf(w.store, id).apiCallsToday + workers
    decreases workers - from
  {
    var steps := Checks(from, workers) + Counts(0, workers);
    if from < workers {
      assert steps[0] == Check(from) && steps[1..] == Checks(from + 1, workers) + Counts(0, workers);
      assert Below(from) + {from} == Below(from + 1);
      ChecksThenCounts(Next(w, Check(from), id), from + 1, id, workers);
    } else {
      assert steps == Counts(0, workers);
      CountsRun(w, 0, id, workers);
    }
  }

  /** The bound is reached: all workers check at one below the limit before any of them counts. */
  lemma BoundIsReached(s: Store, id: string, limit: nat, workers: nat)
    requires WithinLimit(s, id, limit) && CheckQuota(s, id).None? && s.usage[id].apiCallsToday == limit - 1
    ensures var steps := Checks(0, workers) + Counts(0, workers);
            && Behaviour(World(s, {}), steps, id, workers)
            && UsageOf(End(World(s, {}), steps, id).store, id).apiCallsToday == limit + workers - 1
  {
    assert Below(0) == {};
    ChecksThenCounts(World(s, {}), 0, id, workers);
  }
}
