/**
 The least-recently-used order behind the session caches: keys from the oldest use to the newest, as an
 OrderedDict keeps them (apps/runtime/memory.py, apps/runtime/piagent_client.py).
 */
module Lru {
  import opened Sorting

  function Remove(keys: seq<string>, k: string): seq<string> {
    Filter(keys, (x: string) => x != k)
  }

  /** `get_or_create`: a hit moves to the end; a miss evicts the head of a full cache and appends. */
  function Touch(keys: seq<string>, k: string, max: nat): seq<string> {
    if k in keys then Remove(keys, k) + [k]
    else if |keys| >= max && keys != [] then keys[1..] + [k]
    else keys + [k]
  }

  datatype Op = Use(k: string) | Forget(k: string)

  function Step(keys: seq<string>, op: Op, max: nat): seq<string> {
    match op
    case Use(k) => Touch(keys, k, max)
    case Forget(k) => Remove(keys, k)
  }

  function Run(keys: seq<string>, ops: seq<Op>, max: nat): seq<string>
    decreases |ops|
  {
    if ops == [] then keys else Run(Step(keys, ops[0], max), ops[1..], max)
  }

  /** The keys of a history, each at its last use. */
  function LastUses(history: seq<string>): seq<string> {
    if history == [] then []
    else if history[0] in history[1..] then LastUses(history[1..])
    else [history[0]] + LastUses(history[1..])
  }

  function LastN(s: seq<string>, n: nat): seq<string> {
    if |s| <= n then s else s[|s| - n..]
  }

  function Uses(history: seq<string>): seq<Op> {
    seq(|history|, i requires 0 <= i < |history| => Use(history[i]))
  }

  ghost predicate Distinct(s: seq<string>) {
    forall i, j :: 0 <= i < j < |s| ==> s[i] != s[j]
  }

  ghost predicate IsSuffix(a: seq<string>, b: seq<string>) {
    |a| <= |b| && b[|b| - |a|..] == a
  }

  // ---------- removing a key ----------

  lemma {:induction false} RemoveFacts(s: seq<string>, k: string)
    ensures forall x :: x in Remove(s, k) <==> x in s && x != k
    ensures Distinct(s) ==> Distinct(Remove(s, k))
    ensures Distinct(s) ==> |Remove(s, k)| == if k in s then |s| - 1 else |s|
    ensures k !in s ==> Remove(s, k) == s
  {
    if s != [] {
      RemoveFacts(s[1..], k);
      assert s == [s[0]] + s[1..];
      assert forall x :: x in s <==> x == s[0] || x in s[1..];
      assert Distinct(s) ==> Distinct(s[1..]) && s[0] !in s[1..];
      var r := Remove(s[1..], k);
      if s[0] != k && Distinct(s) {
        assert Remove(s, k) == [s[0]] + r;
        assert forall j :: 0 <= j < |r| ==> r[j] in r;
      }
    }
  }

  lemma TailOnly(s: seq<string>)
    requires s != [] && Distinct(s)
    ensures forall x :: x in s[1..] <==> x in s && x != s[0]
  {
    assert s == [s[0]] + s[1..];
  }

  lemma RemoveAppend(a: seq<string>, b: seq<string>, k: string)
    ensures Remove(a + b, k) == Remove(a, k) + Remove(b, k)
  {
    FilterAppend(a, b, (x: string) => x != k);
  }

  /** The keys that are in `kept`, in their order. */
  function KeepOnly(keys: seq<string>, kept: set<string>): seq<string> {
    Filter(keys, (x: string) => x in kept)
  }

  lemma {:induction false} KeepAll(keys: seq<string>, kept: set<string>)
    requires forall i :: 0 <= i < |keys| ==> keys[i] in kept
    ensures KeepOnly(keys, kept) == keys
  {
    if keys != [] {
      KeepAll(keys[1..], kept);
    }
  }

  lemma {:induction false} RemoveFromKept(keys: seq<string>, kept: set<string>, k: string)
    ensures Remove(KeepOnly(keys, kept), k) == KeepOnly(keys, kept - {k})
  {
    if keys != [] {
      RemoveFromKept(keys[1..], kept, k);
      var rest := KeepOnly(keys[1..], kept);
      assert ([keys[0]] + rest)[1..] == rest;
    }
  }

  // ---------- every cache is bounded and a bigger one contains a smaller one ----------

  ghost predicate CacheOk(keys: seq<string>, max: nat) {
    Distinct(keys) && |keys| <= max
  }

  lemma TouchKeepsOk(keys: seq<string>, k: string, max: nat)
    requires CacheOk(keys, max) && max >= 1
    ensures CacheOk(Touch(keys, k, max), max)
    ensures k in Touch(keys, k, max)
  {
    RemoveFacts(keys, k);
    var t := Touch(keys, k, max);
    assert t[|t| - 1] == k;
    var front := if k in keys then Remove(keys, k) else if |keys| >= max && keys != [] then keys[1..] else keys;
    assert t == front + [k] && k !in front;
    assert Distinct(front);
    assert forall i :: 0 <= i < |front| ==> front[i] in front;
  }

  /** Taking a key out of `p + a`, whose keys are distinct: it comes out of one part only. */
  lemma RemoveFromParts(p: seq<string>, a: seq<string>, k: string)
    requires Distinct(p + a)
    ensures Distinct(p) && Distinct(a)
    ensures k in a ==> k !in p && Remove(p + a, k) == p + Remove(a, k) && |Remove(a, k)| == |a| - 1
    ensures k in p ==> k !in a && Remove(p + a, k) == Remove(p, k) + a
    ensures k !in a && k !in p ==> k !in p + a && Remove(p + a, k) == p + a
  {
    hide Remove;
    var b := p + a;
    assert forall i :: 0 <= i < |p| ==> b[i] == p[i];
    assert forall i :: 0 <= i < |a| ==> b[|p| + i] == a[i];
    RemoveAppend(p, a, k);
    RemoveFacts(a, k);
    RemoveFacts(p, k);
  }

  lemma {:induction false} TouchSuffix(a: seq<string>, b: seq<string>, k: string, m: nat, n: nat)
    requires CacheOk(a, m) && CacheOk(b, n) && 1 <= m <= n && IsSuffix(a, b)
    ensures IsSuffix(Touch(a, k, m), Touch(b, k, n))
  {
    hide Remove, Distinct;
    var p := b[..|b| - |a|];
    assert b == p + a;
    RemoveFromParts(p, a, k);
    if k in a {
      assert Touch(b, k, n) == p + Touch(a, k, m);
    } else if k in p {
      PrefixCut(Remove(p, k), a, k);
    } else {
      PrefixCut(p, a, k);
      if |b| >= n && b != [] && p != [] {
        assert b[1..] == p[1..] + a;
        PrefixCut(p[1..], a, k);
      }
    }
  }

  /** Both `a + [k]` and, when `a` has a head, `a[1..] + [k]` end `q + a + [k]`. */
  lemma PrefixCut(q: seq<string>, a: seq<string>, k: string)
    ensures IsSuffix(a + [k], q + a + [k])
    ensures a != [] ==> IsSuffix(a[1..] + [k], q + a + [k])
  {
    assert q + a + [k] == q + (a + [k]);
    if a != [] {
      assert q + a + [k] == q + [a[0]] + (a[1..] + [k]);
    }
  }

  lemma ForgetSuffix(a: seq<string>, b: seq<string>, k: string)
    requires IsSuffix(a, b)
    ensures IsSuffix(Remove(a, k), Remove(b, k))
  {
    hide Remove;
    assert b == b[..|b| - |a|] + a;
    RemoveAppend(b[..|b| - |a|], a, k);
  }

  /** On the same trace of uses and deletions the smaller cache is always the recent end of the larger one. */
  lemma {:induction false} LargerCacheContains(a: seq<string>, b: seq<string>, ops: seq<Op>, m: nat, n: nat)
    requires CacheOk(a, m) && CacheOk(b, n) && 1 <= m <= n && IsSuffix(a, b)
    ensures CacheOk(Run(a, ops, m), m) && CacheOk(Run(b, ops, n), n)
    ensures IsSuffix(Run(a, ops, m), Run(b, ops, n))
    decreases |ops|
  {
    if ops != [] {
      match ops[0] {
        case Use(k) =>
          TouchKeepsOk(a, k, m);
          TouchKeepsOk(b, k, n);
          TouchSuffix(a, b, k, m, n);
        case Forget(k) =>
          RemoveFacts(a, k);
          RemoveFacts(b, k);
          ForgetSuffix(a, b, k);
      }
      LargerCacheContains(Step(a, ops[0], m), Step(b, ops[0], n), ops[1..], m, n);
    }
  }

  // ---------- the closed form ----------

  lemma {:induction false} LastUsesFacts(history: seq<string>)
    ensures forall x :: x in LastUses(history) <==> x in history
    ensures Distinct(LastUses(history))
    ensures |LastUses(history)| <= |history|
  {
    if history != [] {
      LastUsesFacts(history[1..]);
      assert history == [history[0]] + history[1..];
      var r := LastUses(history[1..]);
      assert forall j :: 0 <= j < |r| ==> r[j] in r;
    }
  }

  lemma {:induction false} LastUsesSnoc(history: seq<string>, k: string)
    ensures LastUses(history + [k]) == Remove(LastUses(history), k) + [k]
  {
    var h := history + [k];
    if history == [] {
      assert h == [k];
    } else {
      var first, rest := history[0], history[1..];
      LastUsesSnoc(rest, k);
      assert h[0] == first && h[1..] == rest + [k];
      assert LastUses(h) == if first in rest + [k] then LastUses(rest + [k]) else [first] + LastUses(rest + [k]);
      assert LastUses(history) == if first in rest then LastUses(rest) else [first] + LastUses(rest);
      hide LastUses;
      var r := LastUses(rest);
      if first !in rest {
        RemoveOne(first, k);
        RemoveAppend([first], r, k);
        hide Remove;
        assert first in rest + [k] <==> first == k;
        assert [] + Remove(r, k) == Remove(r, k);
        assert [first] + (Remove(r, k) + [k]) == [first] + Remove(r, k) + [k];
      }
    }
  }

  lemma RemoveOne(x: string, k: string)
    ensures Remove([x], k) == if x == k then [] else [x]
  {
    assert [x][1..] == [] && Remove([], k) == [];
  }

  lemma {:induction false} RunSnoc(keys: seq<string>, ops: seq<Op>, op: Op, max: nat)
    ensures Run(keys, ops + [op], max) == Step(Run(keys, ops, max), op, max)
    decreases |ops|
  {
    if ops == [] {
      assert ops + [op] == [op];
    } else {
      RunSnoc(Step(keys, ops[0], max), ops[1..], op, max);
      assert (ops + [op])[1..] == ops[1..] + [op];
    }
  }

  /** A cache of size `max` holds the last `max` keys of the history without repetitions. */
  lemma {:induction false} CacheIsLastUses(history: seq<string>, max: nat)
    requires max >= 1
    ensures Run([], Uses(history), max) == LastN(LastUses(history), max)
    decreases |history|
  {
    if history != [] {
      var front, k := history[..|history| - 1], history[|history| - 1];
      assert history == front + [k];
      assert Uses(history) == Uses(front) + [Use(k)];
      CacheIsLastUses(front, max);
      RunSnoc([], Uses(front), Use(k), max);
      LastUsesSnoc(front, k);
      LastUsesFacts(front);
      TouchIsLastN(LastUses(front), k, max);
    }
  }

  lemma TouchIsLastN(d: seq<string>, k: string, max: nat)
    requires Distinct(d) && max >= 1
    ensures Touch(LastN(d, max), k, max) == LastN(Remove(d, k) + [k], max)
  {
    hide Remove, Distinct;
    var c := LastN(d, max);
    var p := d[..|d| - |c|];
    assert d == p + c;
    RemoveFromParts(p, c, k);
    assert |c| <= max && (p != [] ==> |c| == max);
    hide LastN;
    if k in c {
      EndOf(p, Remove(c, k) + [k], max);
      assert Remove(d, k) + [k] == p + (Remove(c, k) + [k]);
    } else if p == [] {
      RemoveFacts(c, k);
      assert d == c && Remove(d, k) == c;
      if |c| == max {
        EndOf([c[0]], c[1..] + [k], max);
        assert c + [k] == [c[0]] + (c[1..] + [k]);
      } else {
        EndOf([], c + [k], max);
        assert [] + (c + [k]) == c + [k];
      }
    } else {
      var q := if k in p then Remove(p, k) else p;
      assert Remove(d, k) == q + c && q + c + [k] == q + [c[0]] + (c[1..] + [k]);
      EndOf(q + [c[0]], c[1..] + [k], max);
    }
  }

  lemma EndOf(p: seq<string>, e: seq<string>, max: nat)
    requires |e| == max || (p == [] && |e| <= max)
    ensures LastN(p + e, max) == e
  {
  }

  /** A deletion takes exactly its key out of the cache. */
  lemma ForgottenIsGone(keys: seq<string>, k: string, max: nat)
    requires CacheOk(keys, max)
    ensures forall x :: x in Step(keys, Forget(k), max) <==> x in keys && x != k
    ensures Distinct(Step(keys, Forget(k), max))
  {
    RemoveFacts(keys, k);
  }
}
