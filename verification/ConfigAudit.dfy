/**
 The audit trail as an event source: replaying the recorded changes, oldest first, gives back every
 item's value, version and status, as long as no two (namespace, key) pairs share an item key.
 */
module ConfigAudit {
  import opened Wrappers
  import opened Keys
  import opened ConfigHistory

  type Pair = (string, string)

  datatype Entry = Entry(value: Value, version: nat, status: Status)

  function KeyOf(p: Pair): string {
    ItemKey(p.0, p.1)
  }

  function PairOf(c: Change): Pair {
    (c.namespace, c.key)
  }

  function EntryOf(item: Item): Entry {
    Entry(item.value, item.version, item.status)
  }

  /** One recorded change applied to what was replayed so far. */
  function ReplayOne(m: map<Pair, Entry>, c: Change): map<Pair, Entry> {
    var p := PairOf(c);
    var before := if p in m then m[p] else Entry(Null, 0, Draft);
    match c.changeType
    case Created => m[p := Entry(c.newValue, c.version, Draft)]
    case Updated => m[p := Entry(c.newValue, c.version, before.status)]
    case Publishing => m[p := Entry(before.value, before.version, Published)]
    case Deleted => m[p := Entry(before.value, before.version, Deprecated)]
    case RolledBack => m[p := Entry(c.newValue, c.version, Published)]
  }

  /** The trail is newest first, so its head is replayed last. */
  function Replay(changes: seq<Change>): map<Pair, Entry> {
    if changes == [] then map[] else ReplayOne(Replay(changes[1..]), changes[0])
  }

  // ---------- which pairs may be used together ----------

  ghost predicate Injective(pairs: iset<Pair>) {
    forall p, q :: p in pairs && q in pairs && KeyOf(p) == KeyOf(q) ==> p == q
  }

  /** Namespaces without a slash cannot collide. */
  lemma SlashFreeIsInjective(pairs: iset<Pair>)
    requires forall p :: p in pairs ==> '/' !in p.0
    ensures Injective(pairs)
  {
    forall p, q | p in pairs && q in pairs && KeyOf(p) == KeyOf(q) ensures p == q {
      JoinIsInjective(p.0, p.1, q.0, q.1, '/');
    }
  }

  lemma SlashesCollide()
    ensures KeyOf(("a/b", "c")) == KeyOf(("a", "b/c"))
  {
  }

  // ---------- the replay agrees with the store ----------

  ghost predicate AgreesAt(s: Store, p: Pair) {
    && (p in Replay(s.changes) <==> KeyOf(p) in s.items)
    && (p in Replay(s.changes) && KeyOf(p) in s.items ==> Replay(s.changes)[p] == EntryOf(s.items[KeyOf(p)]))
  }

  ghost predicate Agrees(s: Store, pairs: iset<Pair>) {
    forall p :: p in pairs ==> AgreesAt(s, p)
  }

  /** A change records as old value what the replay of everything older holds for its pair. */
  ghost predicate OldValueOk(changes: seq<Change>, i: nat)
    requires i < |changes|
  {
    var c, before := changes[i], Replay(changes[i + 1..]);
    match c.changeType
    case Created => PairOf(c) !in before && c.oldValue == Null
    case Publishing => PairOf(c) in before && c.newValue == before[PairOf(c)].value && c.oldValue == Null
    case _ => PairOf(c) in before && c.oldValue == before[PairOf(c)].value
  }

  ghost predicate OldValuesOk(changes: seq<Change>) {
    forall i: nat :: i < |changes| ==> OldValueOk(changes, i)
  }

  function OpPair(op: Op): Pair {
    (op.ns, op.key)
  }

  ghost predicate Uses(ops: seq<Op>, pairs: iset<Pair>) {
    forall i :: 0 <= i < |ops| ==> OpPair(ops[i]) in pairs
  }

  /** What one operation does to the trail: nothing, or one new change about its own pair. */
  lemma ApplyRecords(s: Store, op: Op)
    requires Valid(s) && AgreesAt(s, OpPair(op))
    ensures var s' := Apply(s, op);
            || s' == s
            || (&& |s'.changes| == |s.changes| + 1 && s'.changes[1..] == s.changes
                && PairOf(s'.changes[0]) == OpPair(op)
                && OldValueOk(s'.changes, 0)
                && KeyOf(OpPair(op)) in s'.items
                && s'.items == s.items[KeyOf(OpPair(op)) := s'.items[KeyOf(OpPair(op))]]
                && Replay(s'.changes)[OpPair(op)] == EntryOf(s'.items[KeyOf(OpPair(op))]))
  {
    hide ItemKey, SnapshotOf, Replay;
    var k, p, s' := ItemKey(op.ns, op.key), OpPair(op), Apply(s, op);
    if s' != s {
      assert s'.changes == [s'.changes[0]] + s.changes;
      assert s'.changes[1..] == s.changes;
      ReplayHead(s'.changes);
      ValidAt(s, k);
      if op.Rollback? {
        assert Snapshots(s, k) != [] by { EmptyHasNoSnapshot(op.target); }
      }
    }
  }

  lemma EmptyHasNoSnapshot(target: int)
    ensures SnapshotOf([], target).None?
  {
  }

  lemma ReplayHead(changes: seq<Change>)
    requires changes != []
    ensures Replay(changes) == ReplayOne(Replay(changes[1..]), changes[0])
  {
  }

  lemma ApplyKeepsAgreement(s: Store, op: Op, pairs: iset<Pair>)
    requires Valid(s) && Agrees(s, pairs) && OldValuesOk(s.changes)
    requires Injective(pairs) && OpPair(op) in pairs
    ensures Agrees(Apply(s, op), pairs) && OldValuesOk(Apply(s, op).changes)
  {
    hide Apply, Valid, KeyOf;
    var s' := Apply(s, op);
    ApplyRecords(s, op);
    if s' != s {
      ReplayHead(s'.changes);
      hide Replay;
      forall p | p in pairs ensures AgreesAt(s', p) {
        assert AgreesAt(s, p);
        assert p != OpPair(op) ==> KeyOf(p) != KeyOf(OpPair(op));
      }
      forall i: nat | i < |s'.changes| ensures OldValueOk(s'.changes, i) {
        if i > 0 {
          assert OldValueOk(s.changes, i - 1);
          assert s'.changes[i + 1..] == s.changes[i..] && s'.changes[i] == s.changes[i - 1];
        }
      }
    }
  }

  lemma {:induction false} RunKeepsAgreement(s: Store, ops: seq<Op>, pairs: iset<Pair>)
    requires Valid(s) && Agrees(s, pairs) && OldValuesOk(s.changes)
    requires Injective(pairs) && Uses(ops, pairs)
    ensures Agrees(Run(s, ops), pairs) && OldValuesOk(Run(s, ops).changes)
    decreases |ops|
  {
    hide Apply, Valid, Agrees, OldValuesOk, Injective;
    if ops != [] {
      ApplyKeepsValid(s, ops[0]);
      ApplyKeepsAgreement(s, ops[0], pairs);
      RunKeepsAgreement(Apply(s, ops[0]), ops[1..], pairs);
    }
  }

  /** After any run over slash-free namespaces, the replay is the store, and every old value is right. */
  lemma ReplayReconstructs(ops: seq<Op>)
    requires forall i :: 0 <= i < |ops| ==> '/' !in ops[i].ns
    ensures forall ns: string, key: string :: '/' !in ns ==> AgreesAt(Run(EMPTY, ops), (ns, key))
    ensures OldValuesOk(Run(EMPTY, ops).changes)
  {
    hide AgreesAt;
    var pairs := iset p: Pair | '/' !in p.0;
    assert Agrees(EMPTY, pairs) by { EmptyAgrees(pairs); }
    SlashFreeIsInjective(pairs);
    RunKeepsAgreement(EMPTY, ops, pairs);
    forall ns: string, key: string | '/' !in ns ensures AgreesAt(Run(EMPTY, ops), (ns, key)) {
      assert (ns, key) in pairs;
    }
  }

  lemma EmptyAgrees(pairs: iset<Pair>)
    ensures Agrees(EMPTY, pairs)
  {
  }

  /**
   Over a set of pairs, replaying gives back the store after every run if and only if no two of the pairs
   have the same item key.
   */
  lemma ReplayReconstructsIff(pairs: iset<Pair>)
    ensures (forall ops :: Uses(ops, pairs) ==> Agrees(Run(EMPTY, ops), pairs)) <==> Injective(pairs)
  {
    hide Agrees, Run;
    if Injective(pairs) {
      forall ops | Uses(ops, pairs) ensures Agrees(Run(EMPTY, ops), pairs) {
        EmptyAgrees(pairs);
        RunKeepsAgreement(EMPTY, ops, pairs);
      }
    } else {
      var p, q :| p in pairs && q in pairs && KeyOf(p) == KeyOf(q) && p != q;
      var ops := [Set(p.0, p.1, Null, "", None, ""), Set(q.0, q.1, Null, "", None, "")];
      assert Uses(ops, pairs);
      CollisionDisagrees(p, q);
      assert !Agrees(Run(EMPTY, ops), pairs) by { DisagreesAt(Run(EMPTY, ops), p, pairs); }
    }
  }

  lemma DisagreesAt(s: Store, p: Pair, pairs: iset<Pair>)
    requires p in pairs && !AgreesAt(s, p)
    ensures !Agrees(s, pairs)
  {
  }

  /** Setting a second pair with the same item key updates the first one's item behind the trail's back. */
  lemma CollisionDisagrees(p: Pair, q: Pair)
    requires KeyOf(p) == KeyOf(q) && p != q
    ensures !AgreesAt(Run(EMPTY, [Set(p.0, p.1, Null, "", None, ""), Set(q.0, q.1, Null, "", None, "")]), p)
  {
    hide ItemKey;
    var a, b := Set(p.0, p.1, Null, "", None, ""), Set(q.0, q.1, Null, "", None, "");
    var s1 := Apply(EMPTY, a);
    var s2 := Apply(s1, b);
    assert [a, b][1..] == [b] && [b][1..] == [];
    assert Run(EMPTY, [a, b]) == Run(s1, [b]) == Run(s2, []) == s2;
    var k := KeyOf(p);
    assert s1.items[k].version == 1 && s2.items[k].version == 2;
    assert s1.changes[1..] == [] && s2.changes[1..] == s1.changes;
    ReplayHead(s1.changes);
    ReplayHead(s2.changes);
    assert Replay(s1.changes)[p].version == 1;
    assert Replay(s2.changes)[p] == Replay(s1.changes)[p];
  }
}
