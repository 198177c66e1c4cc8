/**
 The sidecar's session pool (apps/runtime/sidecar/src/session-manager.ts): a Map with a last-use time
 per key and a linear scan for the oldest, with an `await` between the lookup and the insertion.
 `capacity` is the source's MAX_SESSIONS.
 */
module SidecarPool {
  import Lru

  // `keys` is the Map's insertion order; `session` names the session object pooled under a key.
  datatype Pool = Pool(keys: seq<string>, lastUse: map<string, int>, session: map<string, nat>)

  const EMPTY := Pool([], map[], map[])

  ghost predicate Valid(p: Pool) {
    && Lru.Distinct(p.keys)
    && (forall k :: k in p.keys <==> k in p.lastUse)
    && p.lastUse.Keys == p.session.Keys
  }

  /** The scan of `evictIfNeeded`: the least time, the earliest inserted among equals. */
  function Oldest(keys: seq<string>, lastUse: map<string, int>): (k: string)
    requires keys != [] && forall i :: 0 <= i < |keys| ==> keys[i] in lastUse
    ensures k in keys && k in lastUse
    ensures forall i :: 0 <= i < |keys| ==> lastUse[k] <= lastUse[keys[i]]
  {
    var last := keys[|keys| - 1];
    if |keys| == 1 then last else
      var best := Oldest(keys[..|keys| - 1], lastUse);
      if lastUse[last] < lastUse[best] then last else best
  }

  /** `keys[i]` has the least time, and every earlier key a later one. */
  ghost predicate FirstOldest(keys: seq<string>, lastUse: map<string, int>, i: nat)
    requires forall j :: 0 <= j < |keys| ==> keys[j] in lastUse
  {
    && i < |keys|
    && (forall j :: 0 <= j < |keys| ==> lastUse[keys[i]] <= lastUse[keys[j]])
    && (forall j :: 0 <= j < i ==> lastUse[keys[i]] < lastUse[keys[j]])
  }

  lemma {:induction false} OldestIsFirst(keys: seq<string>, lastUse: map<string, int>) returns (i: nat)
    requires keys != [] && forall j :: 0 <= j < |keys| ==> keys[j] in lastUse
    ensures FirstOldest(keys, lastUse, i) && keys[i] == Oldest(keys, lastUse)
  {
    i := |keys| - 1;
    if |keys| > 1 {
      var front := keys[..i];
      var k := OldestIsFirst(front, lastUse);
      assert forall j :: 0 <= j < i ==> front[j] == keys[j];
      if lastUse[keys[i]] >= lastUse[front[k]] {
        i := k;
      }
    }
  }

  lemma OldestNext(keys: seq<string>, lastUse: map<string, int>, i: nat)
    requires 1 <= i < |keys| && forall j :: 0 <= j < |keys| ==> keys[j] in lastUse
    ensures Oldest(keys[..i + 1], lastUse)
         == if lastUse[keys[i]] < lastUse[Oldest(keys[..i], lastUse)] then keys[i] else Oldest(keys[..i], lastUse)
  {
    assert keys[..i + 1][..i] == keys[..i];
  }

  function Drop(p: Pool, k: string): Pool {
    Pool(Lru.Remove(p.keys, k), p.lastUse - {k}, p.session - {k})
  }

  function Evicted(p: Pool, capacity: nat): Pool
    requires Valid(p)
  {
    if |p.keys| >= capacity && p.keys != [] then Drop(p, Oldest(p.keys, p.lastUse)) else p
  }

  /** What follows the `await`: evict if needed, then set the key. */
  function Inserted(p: Pool, k: string, session: nat, now: int, capacity: nat): Pool
    requires Valid(p)
  {
    var q := Evicted(p, capacity);
    Pool(if k in q.keys then q.keys else q.keys + [k], q.lastUse[k := now], q.session[k := session])
  }

  function Refreshed(p: Pool, k: string, now: int): Pool {
    p.(lastUse := p.lastUse[k := now])
  }

  lemma DropKeepsValid(p: Pool, k: string)
    requires Valid(p)
    ensures Valid(Drop(p, k))
    ensures k in p.keys ==> |Drop(p, k).keys| == |p.keys| - 1
    ensures k !in p.keys ==> |Drop(p, k).keys| == |p.keys|
    ensures forall x :: x in Drop(p, k).keys <==> x in p.keys && x != k
  {
    Lru.RemoveFacts(p.keys, k);
  }

  lemma EvictionMakesRoom(p: Pool, capacity: nat)
    requires Valid(p) && capacity >= 1 && |p.keys| <= capacity
    ensures Valid(Evicted(p, capacity)) && |Evicted(p, capacity).keys| < capacity
    ensures forall x :: x in Evicted(p, capacity).keys ==> x in p.keys
  {
    hide Drop;
    if p.keys != [] {
      DropKeepsValid(p, Oldest(p.keys, p.lastUse));
    }
  }

  lemma InsertKeepsValid(p: Pool, k: string, session: nat, now: int, capacity: nat)
    requires Valid(p) && capacity >= 1 && |p.keys| <= capacity
    ensures Valid(Inserted(p, k, session, now, capacity))
    ensures |Inserted(p, k, session, now, capacity).keys| <= capacity
    ensures k !in p.keys ==>
              Inserted(p, k, session, now, capacity).keys == Evicted(p, capacity).keys + [k]
  {
    hide Evicted;
    EvictionMakesRoom(p, capacity);
    var q := Evicted(p, capacity);
    SetKeepsValid(q, k, session, now);
  }

  lemma SetKeepsValid(q: Pool, k: string, session: nat, now: int)
    requires Valid(q)
    ensures Valid(Pool(if k in q.keys then q.keys else q.keys + [k], q.lastUse[k := now], q.session[k := session]))
  {
    if k !in q.keys {
      assert forall i :: 0 <= i < |q.keys| ==> q.keys[i] in q.keys;
    }
  }

  // ---------- one call at a time: the same evictions as the OrderedDict cache ----------

  function Call(p: Pool, k: string, session: nat, now: int, capacity: nat): Pool
    requires Valid(p)
  {
    if k in p.keys then Refreshed(p, k, now) else Inserted(p, k, session, now, capacity)
  }

  /** `order` lists the pooled keys by strictly increasing last use, all before `clock`. */
  ghost predicate OrderedBy(p: Pool, order: seq<string>, clock: int) {
    && |order| == |p.keys|
    && (forall i :: 0 <= i < |order| ==> order[i] in p.lastUse && p.lastUse[order[i]] < clock)
    && (forall k :: k in p.lastUse ==> k in order)
    && (forall i, j :: 0 <= i < j < |order| ==> p.lastUse[order[i]] < p.lastUse[order[j]])
  }

  lemma OrderedIsDistinct(p: Pool, order: seq<string>, clock: int)
    requires OrderedBy(p, order, clock)
    ensures Lru.Distinct(order)
  {
    forall i, j | 0 <= i < j < |order| ensures order[i] != order[j] {
      assert p.lastUse[order[i]] < p.lastUse[order[j]];
    }
  }

  /** The scan finds the head of the use order. */
  lemma OldestIsHead(p: Pool, order: seq<string>, clock: int)
    requires Valid(p) && OrderedBy(p, order, clock) && p.keys != []
    ensures Oldest(p.keys, p.lastUse) == order[0]
  {
    var k := Oldest(p.keys, p.lastUse);
    var i :| 0 <= i < |order| && order[i] == k;
    var j :| 0 <= j < |p.keys| && p.keys[j] == order[0];
    assert p.lastUse[k] <= p.lastUse[p.keys[j]];
    assert i == 0;
  }

  /** Dropping a key keeps the rest in order, and a key used now goes to the end. */
  lemma OrderAfter(p: Pool, q: Pool, front: seq<string>, k: string, clock: int, now: int)
    requires clock <= now && k !in front
    requires forall i :: 0 <= i < |front| ==> front[i] in p.lastUse && p.lastUse[front[i]] < clock
    requires forall i, j :: 0 <= i < j < |front| ==> p.lastUse[front[i]] < p.lastUse[front[j]]
    requires |q.keys| == |front| + 1
    requires forall x :: x in q.lastUse <==> x in front || x == k
    requires forall x :: x in front ==> q.lastUse[x] == p.lastUse[x]
    requires k in q.lastUse && q.lastUse[k] == now
    ensures OrderedBy(q, front + [k], now + 1)
  {
    var order := front + [k];
    assert forall i :: 0 <= i < |front| ==> front[i] in front;
    forall i, j | 0 <= i < j < |order| ensures q.lastUse[order[i]] < q.lastUse[order[j]] {
      assert order[i] == front[i];
    }
    forall x | x in q.lastUse ensures x in order {
      if x == k { assert order[|front|] == k; }
    }
  }

  lemma {:induction false} RemoveKeepsOrder(p: Pool, order: seq<string>, k: string)
    requires forall i :: 0 <= i < |order| ==> order[i] in p.lastUse
    requires forall i, j :: 0 <= i < j < |order| ==> p.lastUse[order[i]] < p.lastUse[order[j]]
    ensures var r := Lru.Remove(order, k);
            && (forall i :: 0 <= i < |r| ==> r[i] in p.lastUse)
            && (forall i, j :: 0 <= i < j < |r| ==> p.lastUse[r[i]] < p.lastUse[r[j]])
  {
    if order != [] {
      RemoveKeepsOrder(p, order[1..], k);
      Lru.RemoveFacts(order[1..], k);
      var r := Lru.Remove(order[1..], k);
      forall j | 0 <= j < |r| ensures p.lastUse[order[0]] < p.lastUse[r[j]] {
        assert r[j] in r;
        var i :| 0 <= i < |order[1..]| && order[1..][i] == r[j];
        assert order[i + 1] == r[j];
      }
    }
  }

  lemma HitRefinesTouch(p: Pool, order: seq<string>, k: string, clock: int, now: int, capacity: nat)
    requires Valid(p) && OrderedBy(p, order, clock) && clock <= now && k in p.keys
    ensures Valid(Refreshed(p, k, now)) && OrderedBy(Refreshed(p, k, now), Lru.Touch(order, k, capacity), now + 1)
  {
    hide Lru.Remove;
    OrderedIsDistinct(p, order, clock);
    Lru.RemoveFacts(order, k);
    RemoveKeepsOrder(p, order, k);
    assert p.lastUse[k := now].Keys == p.lastUse.Keys;
    var front := Lru.Remove(order, k);
    assert forall i :: 0 <= i < |front| ==> front[i] in front && front[i] in order;
    OrderAfter(p, Refreshed(p, k, now), front, k, clock, now);
  }

  lemma MissRefinesTouch(p: Pool, order: seq<string>, k: string, session: nat, clock: int, now: int, capacity: nat)
    requires Valid(p) && OrderedBy(p, order, clock) && capacity >= 1 && |p.keys| <= capacity && clock <= now
    requires k !in p.keys
    ensures OrderedBy(Inserted(p, k, session, now, capacity), Lru.Touch(order, k, capacity), now + 1)
  {
    hide Lru.Remove, Valid;
    var q := Inserted(p, k, session, now, capacity);
    InsertKeepsValid(p, k, session, now, capacity);
    assert k !in order && |order| == |p.keys| by { InOrderIffPooled(p, order, clock); }
    if |p.keys| >= capacity {
      OldestIsHead(p, order, clock);
      OrderedIsDistinct(p, order, clock);
      Lru.TailOnly(order);
      EvictionLeavesTail(p, order, clock, capacity);
      OrderAfter(p, q, order[1..], k, clock, now);
    } else {
      OrderAfter(p, q, order, k, clock, now);
    }
  }

  lemma InOrderIffPooled(p: Pool, order: seq<string>, clock: int)
    requires Valid(p) && OrderedBy(p, order, clock)
    ensures forall x :: x in order <==> x in p.keys
    ensures forall x :: x in order <==> x in p.lastUse
  {
  }

  lemma EvictionLeavesTail(p: Pool, order: seq<string>, clock: int, capacity: nat)
    requires Valid(p) && OrderedBy(p, order, clock) && |p.keys| >= capacity && p.keys != []
    ensures var q := Evicted(p, capacity);
            && |q.keys| == |order| - 1
            && (forall x :: x in q.lastUse <==> x in order && x != order[0])
            && (forall x :: x in q.lastUse ==> q.lastUse[x] == p.lastUse[x])
  {
    hide Lru.Remove;
    OldestIsHead(p, order, clock);
    DropKeepsValid(p, order[0]);
    InOrderIffPooled(p, order, clock);
  }

  /** With a clock that moves on, one call keeps the pool in step with the OrderedDict cache. */
  lemma CallRefinesTouch(p: Pool, order: seq<string>, k: string, session: nat, clock: int, now: int, capacity: nat)
    requires Valid(p) && OrderedBy(p, order, clock) && capacity >= 1 && |p.keys| <= capacity && clock <= now
    ensures var q := Call(p, k, session, now, capacity);
            Valid(q) && |q.keys| <= capacity && OrderedBy(q, Lru.Touch(order, k, capacity), now + 1)
  {
    hide OrderedBy, Inserted, Lru.Touch;
    if k in p.keys {
      HitRefinesTouch(p, order, k, clock, now, capacity);
    } else {
      InsertKeepsValid(p, k, session, now, capacity);
      MissRefinesTouch(p, order, k, session, clock, now, capacity);
    }
  }

  datatype Timed = Timed(k: string, session: nat, now: int)

  ghost predicate ClockMoves(calls: seq<Timed>, clock: int) {
    calls != [] ==> clock <= calls[0].now && ClockMoves(calls[1..], calls[0].now + 1)
  }

  lemma CallKeepsBound(p: Pool, k: string, session: nat, now: int, capacity: nat)
    requires Valid(p) && capacity >= 1 && |p.keys| <= capacity
    ensures Valid(Call(p, k, session, now, capacity)) && |Call(p, k, session, now, capacity).keys| <= capacity
  {
    hide Inserted;
    InsertKeepsValid(p, k, session, now, capacity);
    assert k in p.keys ==> p.lastUse[k := now].Keys == p.lastUse.Keys;
  }

  /** The pool after a trace of completed calls. */
  function CallAll(p: Pool, calls: seq<Timed>, capacity: nat): Pool
    requires Valid(p) && capacity >= 1 && |p.keys| <= capacity
    decreases |calls|
  {
    if calls == [] then p else
      var c := calls[0];
      CallKeepsBound(p, c.k, c.session, c.now, capacity);
      CallAll(Call(p, c.k, c.session, c.now, capacity), calls[1..], capacity)
  }

  function KeysUsed(calls: seq<Timed>): seq<Lru.Op> {
    seq(|calls|, i requires 0 <= i < |calls| => Lru.Use(calls[i].k))
  }

  /** On every trace with increasing clock readings the two caches hold the same keys, in the same use order. */
  lemma {:induction false} TimestampsRefineLru(p: Pool, order: seq<string>, calls: seq<Timed>, clock: int,
                                               capacity: nat)
    requires Valid(p) && OrderedBy(p, order, clock) && capacity >= 1 && |p.keys| <= capacity
    requires ClockMoves(calls, clock)
    ensures exists end ::
              OrderedBy(CallAll(p, calls, capacity), Lru.Run(order, KeysUsed(calls), capacity), end)
    decreases |calls|
  {
    hide Lru.Touch, OrderedBy, Call, Valid;
    if calls != [] {
      var c := calls[0];
      CallRefinesTouch(p, order, c.k, c.session, clock, c.now, capacity);
      var q := Call(p, c.k, c.session, c.now, capacity);
      assert KeysUsed(calls)[0] == Lru.Use(c.k) && KeysUsed(calls)[1..] == KeysUsed(calls[1..]);
      TimestampsRefineLru(q, Lru.Touch(order, c.k, capacity), calls[1..], c.now + 1, capacity);
      var end :| OrderedBy(CallAll(q, calls[1..], capacity),
                           Lru.Run(Lru.Touch(order, c.k, capacity), KeysUsed(calls[1..]), capacity), end);
      assert Lru.Run(order, KeysUsed(calls), capacity)
          == Lru.Run(Lru.Touch(order, c.k, capacity), KeysUsed(calls[1..]), capacity);
      assert CallAll(p, calls, capacity) == CallAll(q, calls[1..], capacity);
    } else {
      assert KeysUsed(calls) == [];
      assert OrderedBy(CallAll(p, calls, capacity), Lru.Run(order, KeysUsed(calls), capacity), clock);
    }
  }

  // ---------- overlapping calls ----------

  // `inFlight` are the keys of calls between their lookup and their insertion.
  datatype World = World(pool: Pool, inFlight: multiset<string>)

  datatype Step =
    | Lookup(k: string, now: int)
    | Insert(k: string, session: nat, now: int)
    | Destroy(k: string)
    | DestroyAll

  predicate Enabled(w: World, s: Step) {
    s.Insert? ==> s.k in w.inFlight
  }

  function Next(w: World, s: Step, capacity: nat): World
    requires Valid(w.pool)
  {
    match s
    case Lookup(k, now) =>
      if k in w.pool.keys then w.(pool := Refreshed(w.pool, k, now)) else w.(inFlight := w.inFlight + multiset{k})
    case Insert(k, session, now) =>
      World(Inserted(w.pool, k, session, now, capacity), w.inFlight - multiset{k})
    case Destroy(k) => w.(pool := Drop(w.pool, k))
    case DestroyAll => w.(pool := EMPTY)
  }

  /** The pool never exceeds its capacity, whatever the interleaving. */
  lemma NextKeepsBound(w: World, s: Step, capacity: nat)
    requires Valid(w.pool) && capacity >= 1 && |w.pool.keys| <= capacity
    ensures Valid(Next(w, s, capacity).pool) && |Next(w, s, capacity).pool.keys| <= capacity
  {
    match s
    case Lookup(k, now) => assert k in w.pool.keys ==> w.pool.lastUse[k := now].Keys == w.pool.lastUse.Keys;
    case Insert(k, session, now) => InsertKeepsValid(w.pool, k, session, now, capacity);
    case Destroy(k) => DropKeepsValid(w.pool, k);
    case DestroyAll =>
  }

  /** The worlds an interleaving passes through from `w` on. */
  ghost predicate BehaviourFrom(w: World, ws: seq<World>, steps: seq<Step>, capacity: nat) {
    && |ws| == |steps| + 1
    && ws[0] == w
    && forall i :: 0 <= i < |steps| ==>
         Valid(ws[i].pool) && Enabled(ws[i], steps[i]) && ws[i + 1] == Next(ws[i], steps[i], capacity)
  }

  ghost predicate Behaviour(ws: seq<World>, steps: seq<Step>, capacity: nat) {
    BehaviourFrom(World(EMPTY, multiset{}), ws, steps, capacity)
  }

  lemma {:induction false} NeverOverflowsFrom(w: World, ws: seq<World>, steps: seq<Step>, capacity: nat, i: nat)
    requires BehaviourFrom(w, ws, steps, capacity) && capacity >= 1 && i < |ws|
    requires Valid(w.pool) && |w.pool.keys| <= capacity
    ensures Valid(ws[i].pool) && |ws[i].pool.keys| <= capacity
  {
    if i > 0 {
      NeverOverflowsFrom(w, ws, steps, capacity, i - 1);
      NextKeepsBound(ws[i - 1], steps[i - 1], capacity);
    }
  }

  lemma PoolNeverOverflows(ws: seq<World>, steps: seq<Step>, capacity: nat, i: nat)
    requires Behaviour(ws, steps, capacity) && capacity >= 1 && i < |ws|
    ensures Valid(ws[i].pool) && |ws[i].pool.keys| <= capacity
  {
    NeverOverflowsFrom(World(EMPTY, multiset{}), ws, steps, capacity, i);
  }

  /** The caller's guard: no lookup misses a key while another call for that key is in flight. */
  predicate Guarded(w: World, s: Step) {
    s.Lookup? && s.k !in w.pool.keys ==> s.k !in w.inFlight
  }

  ghost predicate SingleFlight(ws: seq<World>, steps: seq<Step>)
    requires |ws| == |steps| + 1
  {
    forall i :: 0 <= i < |steps| ==> Guarded(ws[i], steps[i])
  }

  /** The insertion `s` takes the place of a session that callers already hold. */
  predicate Replaces(w: World, s: Step) {
    s.Insert? && s.k in w.pool.keys
  }

  /** Every key is in flight at most once, and then it is not pooled. */
  ghost predicate FlightOk(w: World) {
    forall k :: k in w.inFlight ==> w.inFlight[k] == 1 && k !in w.pool.keys
  }

  /** However the run goes on, as long as its callers keep to the guard no insertion replaces a session. */
  ghost predicate Safe(w: World, capacity: nat) {
    forall ws: seq<World>, steps: seq<Step> :: BehaviourFrom(w, ws, steps, capacity) && SingleFlight(ws, steps) ==>
      forall i :: 0 <= i < |steps| ==> !Replaces(ws[i], steps[i])
  }

  /** One step keeps the in-flight keys in order exactly when it meets the guard. */
  lemma GuardedStepIff(w: World, s: Step, capacity: nat)
    requires Valid(w.pool) && capacity >= 1 && |w.pool.keys| <= capacity && Enabled(w, s) && FlightOk(w)
    ensures FlightOk(Next(w, s, capacity)) <==> Guarded(w, s)
  {
    hide Inserted, Drop, Valid;
    match s
    case Lookup(k, now) =>
      if !Guarded(w, s) { assert Next(w, s, capacity).inFlight[k] == 2; }
    case Insert(k, session, now) => InsertAddsNoOther(w.pool, k, session, now, capacity);
    case Destroy(k) => DropKeepsValid(w.pool, k);
    case DestroyAll =>
  }

  lemma InsertAddsNoOther(p: Pool, k: string, session: nat, now: int, capacity: nat)
    requires Valid(p) && capacity >= 1 && |p.keys| <= capacity
    ensures forall x :: x in Inserted(p, k, session, now, capacity).keys ==> x in p.keys || x == k
  {
    hide Evicted;
    EvictionMakesRoom(p, capacity);
  }

  lemma {:induction false} GuardedRunKeepsFlights(w: World, ws: seq<World>, steps: seq<Step>, capacity: nat, i: nat)
    requires BehaviourFrom(w, ws, steps, capacity) && capacity >= 1 && i < |ws|
    requires Valid(w.pool) && |w.pool.keys| <= capacity && FlightOk(w) && SingleFlight(ws, steps)
    ensures FlightOk(ws[i])
  {
    hide Next, Valid;
    if i > 0 {
      GuardedRunKeepsFlights(w, ws, steps, capacity, i - 1);
      NeverOverflowsFrom(w, ws, steps, capacity, i - 1);
      GuardedStepIff(ws[i - 1], steps[i - 1], capacity);
    }
  }

  /** A state is safe exactly when no key in flight is pooled or in flight twice. */
  lemma SafeIff(w: World, capacity: nat)
    requires Valid(w.pool) && capacity >= 1 && |w.pool.keys| <= capacity
    ensures Safe(w, capacity) <==> FlightOk(w)
  {
    hide Next, Valid;
    if FlightOk(w) {
      forall ws: seq<World>, steps: seq<Step>, i |
        BehaviourFrom(w, ws, steps, capacity) && SingleFlight(ws, steps) && 0 <= i < |steps|
        ensures !Replaces(ws[i], steps[i])
      {
        GuardedRunKeepsFlights(w, ws, steps, capacity, i);
        assert Enabled(ws[i], steps[i]);
      }
    } else {
      var k :| k in w.inFlight && (w.inFlight[k] != 1 || k in w.pool.keys);
      OverlapCanReplace(w, k, capacity);
    }
  }

  lemma InsertedIsPooled(p: Pool, k: string, session: nat, now: int, capacity: nat)
    requires Valid(p)
    ensures k in Inserted(p, k, session, now, capacity).keys
  {
    hide Evicted;
    var q := Evicted(p, capacity);
    if k !in q.keys {
      assert (q.keys + [k])[|q.keys|] == k;
    }
  }

  /** Two calls in flight for one key replace a session as soon as both insert. */
  lemma OverlapCanReplace(w: World, k: string, capacity: nat)
    requires Valid(w.pool) && capacity >= 1 && |w.pool.keys| <= capacity
    requires k in w.inFlight && (w.inFlight[k] >= 2 || k in w.pool.keys)
    ensures !Safe(w, capacity)
  {
    hide Inserted, Valid;
    var first, second := Insert(k, 1, 0), Insert(k, 2, 0);
    NextKeepsBound(w, first, capacity);
    InsertedIsPooled(w.pool, k, 1, 0, capacity);
    var w1 := Next(w, first, capacity);
    if k in w.pool.keys {
      assert BehaviourFrom(w, [w, w1], [first], capacity) && SingleFlight([w, w1], [first]);
      assert Replaces([w, w1][0], [first][0]);
    } else {
      var ws, steps := [w, w1, Next(w1, second, capacity)], [first, second];
      assert BehaviourFrom(w, ws, steps, capacity) && SingleFlight(ws, steps);
      assert Replaces(ws[1], steps[1]);
    }
  }

  /**
   The lookups of an interleaving all met the guard exactly when at no point of it callers that do meet it
   could be made to lose a session; so without overlapping calls for one key no insertion replaces one.
   */
  lemma SingleFlightIff(ws: seq<World>, steps: seq<Step>, capacity: nat)
    requires Behaviour(ws, steps, capacity) && capacity >= 1
    ensures SingleFlight(ws, steps) <==> forall i :: 0 <= i < |ws| ==> Safe(ws[i], capacity)
    ensures SingleFlight(ws, steps) ==> forall i :: 0 <= i < |steps| ==> !Replaces(ws[i], steps[i])
  {
    hide Next, Valid, Safe;
    var w := World(EMPTY, multiset{});
    assert Valid(EMPTY) by { EmptyIsValid(); }
    forall i | 0 <= i < |ws| ensures Safe(ws[i], capacity) <==> FlightOk(ws[i]) {
      PoolNeverOverflows(ws, steps, capacity, i);
      SafeIff(ws[i], capacity);
    }
    if SingleFlight(ws, steps) {
      forall i | 0 <= i < |ws| ensures FlightOk(ws[i]) {
        GuardedRunKeepsFlights(w, ws, steps, capacity, i);
      }
      forall i | 0 <= i < |steps| ensures !Replaces(ws[i], steps[i]) {
        assert FlightOk(ws[i]) && Enabled(ws[i], steps[i]);
      }
    }
    if forall i :: 0 <= i < |ws| ==> Safe(ws[i], capacity) {
      forall i | 0 <= i < |steps| ensures Guarded(ws[i], steps[i]) {
        PoolNeverOverflows(ws, steps, capacity, i);
        assert Safe(ws[i], capacity) && Safe(ws[i + 1], capacity);
        GuardedStepIff(ws[i], steps[i], capacity);
      }
    }
  }

  lemma EmptyIsValid()
    ensures Valid(EMPTY)
  {
  }

  /** Two overlapping calls for one key get different sessions, and the pool forgets the first one. */
  lemma OverlapReplaces(k: string, t: int)
    ensures var w0 := World(EMPTY, multiset{});
            var w1 := Next(w0, Lookup(k, t), 100);
            var w2 := Next(w1, Lookup(k, t), 100);
            Enabled(w2, Insert(k, 1, t)) && Valid(w2.pool)
            && var w3 := Next(w2, Insert(k, 1, t), 100);
            Enabled(w3, Insert(k, 2, t)) && Valid(w3.pool)
            && k in w3.pool.session && w3.pool.session[k] == 1
            && var w4 := Next(w3, Insert(k, 2, t), 100);
            k in w4.pool.session && w4.pool.session[k] == 2
  {
    var w2 := World(EMPTY, multiset{k, k});
    var w3 := World(Pool([k], map[k := t], map[k := 1]), multiset{k});
    assert Next(World(EMPTY, multiset{k}), Lookup(k, t), 100) == w2;
    assert [] + [k] == [k];
    assert Next(w2, Insert(k, 1, t), 100) == w3;
  }

  /** An insertion makes the pool forget `x`, which it is not about. */
  ghost predicate Loses(p: Pool, k: string, session: nat, now: int, capacity: nat, x: string)
    requires Valid(p)
  {
    x in p.keys && x != k && x !in Inserted(p, k, session, now, capacity).keys
  }

  /** An insertion loses another session exactly when the pool is full and the key is not its oldest. */
  lemma InsertLosesIff(p: Pool, k: string, session: nat, now: int, capacity: nat)
    requires Valid(p) && capacity >= 1 && |p.keys| <= capacity
    ensures (exists x :: Loses(p, k, session, now, capacity, x))
       <==> |p.keys| == capacity && Oldest(p.keys, p.lastUse) != k
    ensures k in p.keys && (exists x :: Loses(p, k, session, now, capacity, x)) ==>
              |Inserted(p, k, session, now, capacity).keys| == capacity - 1
  {
    hide Drop, Oldest;
    InsertKeepsOthers(p, k, session, now, capacity);
    if |p.keys| == capacity {
      var x := Oldest(p.keys, p.lastUse);
      DropKeepsValid(p, x);
      if x != k {
        assert Loses(p, k, session, now, capacity, x);
      }
    }
  }

  lemma InsertKeepsOthers(p: Pool, k: string, session: nat, now: int, capacity: nat)
    requires Valid(p)
    ensures forall x :: x in Inserted(p, k, session, now, capacity).keys <==> x in Evicted(p, capacity).keys || x == k
  {
    hide Evicted;
    var q := Evicted(p, capacity);
    if k !in q.keys {
      assert forall x :: x in q.keys + [k] <==> x in q.keys || x == k;
    }
  }

  /** Two overlapping calls for "b" in a pool of two: the second one drops "a" and leaves the pool one short. */
  lemma OverlapEvictsAnother(t: int)
    ensures var one := Pool(["a"], map["a" := t], map["a" := 1]);
            var two := Pool(["a", "b"], map["a" := t, "b" := t + 1], map["a" := 1, "b" := 2]);
            && Valid(one) && Valid(two)
            && Next(World(one, multiset{"b", "b"}), Insert("b", 2, t + 1), 2) == World(two, multiset{"b"})
            && Next(World(two, multiset{"b"}), Insert("b", 3, t + 2), 2).pool
               == Pool(["b"], map["b" := t + 2], map["b" := 3])
  {
    hide Evicted, Valid;
    OldestOfTwoGoes(t);
    var one := Pool(["a"], map["a" := t], map["a" := 1]);
    assert Valid(one) && Evicted(one, 2) == one by { OneIsValid(t); }
    assert ["a"] + ["b"] == ["a", "b"];
  }

  lemma OneIsValid(t: int)
    ensures var one := Pool(["a"], map["a" := t], map["a" := 1]); Valid(one) && Evicted(one, 2) == one
  {
  }

  lemma OldestOfTwoGoes(t: int)
    ensures var two := Pool(["a", "b"], map["a" := t, "b" := t + 1], map["a" := 1, "b" := 2]);
            Valid(two) && Evicted(two, 2) == Pool(["b"], map["b" := t + 1], map["b" := 2])
  {
    var two := Pool(["a", "b"], map["a" := t, "b" := t + 1], map["a" := 1, "b" := 2]);
    assert two.keys[..1] == ["a"];
    assert Oldest(["a"], two.lastUse) == "a";
    assert Oldest(two.keys, two.lastUse) == "a";
    assert Lru.Remove(two.keys, "a") == ["b"] by { RemoveFirstOfTwo("a", "b"); }
    hide Lru.Remove, Oldest;
    assert Drop(two, "a") == Pool(["b"], map["b" := t + 1], map["b" := 2]);
  }

  lemma RemoveFirstOfTwo(a: string, b: string)
    requires a != b
    ensures Lru.Remove([a, b], a) == [b]
  {
    assert [a, b][1..] == [b] && [b][1..] == [];
    assert Lru.Remove([], a) == [] && Lru.Remove([b], a) == [b] + Lru.Remove([], a);
  }

  /**
   A lookup changes no session: a hit only counts as a use, a miss only as a call in flight. Destroying forgets
   what it names, and what is in flight stays in flight.
   */
  lemma OnlyInsertionsAdd(w: World, k: string, now: int, capacity: nat)
    requires Valid(w.pool)
    ensures var w' := Next(w, Lookup(k, now), capacity);
            && w'.pool.keys == w.pool.keys && w'.pool.session == w.pool.session
            && (k in w.pool.keys ==> w'.inFlight == w.inFlight && w'.pool.lastUse == w.pool.lastUse[k := now])
            && (k !in w.pool.keys ==> w'.inFlight == w.inFlight + multiset{k} && w'.pool == w.pool)
    ensures var w' := Next(w, Destroy(k), capacity);
            && w'.inFlight == w.inFlight
            && (forall x :: x in w'.pool.keys <==> x in w.pool.keys && x != k)
            && w'.pool.session == w.pool.session - {k} && w'.pool.lastUse == w.pool.lastUse - {k}
    ensures Next(w, DestroyAll, capacity) == World(Pool([], map[], map[]), w.inFlight)
  {
    DropKeepsValid(w.pool, k);
  }
}
