/**
 The configuration store on values (apps/config_center/store.py): items, their version snapshots and
 the audit trail, which is kept newest first.

 Timestamps and comments are left out; a value is JSON text or null.
 */
module ConfigHistory {
  import opened Wrappers
  import opened Sorting

  datatype Value = Null | Json(text: string)

  datatype Status = Draft | Published | Deprecated

  datatype ChangeType = Created | Updated | Publishing | Deleted | RolledBack

  datatype Item = Item(namespace: string, key: string, value: Value, description: string, status: Status,
                       version: nat, createdBy: string, tags: map<string, string>)

  datatype Version = Version(namespace: string, key: string, version: nat, value: Value, status: Status,
                             changedBy: string, changeType: ChangeType)

  datatype Change = Change(namespace: string, key: string, version: nat, changeType: ChangeType,
                           changedBy: string, oldValue: Value, newValue: Value)

  datatype Store = Store(items: map<string, Item>, versions: map<string, seq<Version>>, changes: seq<Change>)

  const EMPTY := Store(map[], map[], [])

  function ItemKey(namespace: string, key: string): string {
    namespace + "/" + key
  }

  function Snapshots(s: Store, k: string): seq<Version> {
    if k in s.versions then s.versions[k] else []
  }

  // ---------- operations ----------

  function Updating(s: Store, namespace: string, key: string, value: Value, description: string,
                    tags: Option<map<string, string>>, who: string): Item
  {
    var k := ItemKey(namespace, key);
    if k !in s.items then
      Item(namespace, key, value, description, Draft, 1, who, if tags.Some? then tags.value else map[])
    else
      var prior := s.items[k];
      prior.(value := value,
           description := if description != "" then description else prior.description,
           tags := if tags.Some? then tags.value else prior.tags,
           version := prior.version + 1)
  }

  /** `set_item`: an existing item keeps its status, whatever it was. */
  function SetItem(s: Store, namespace: string, key: string, value: Value, description: string,
                   tags: Option<map<string, string>>, who: string): Store
  {
    var k := ItemKey(namespace, key);
    var item := Updating(s, namespace, key, value, description, tags, who);
    var kind := if k in s.items then Updated else Created;
    Store(s.items[k := item],
          s.versions[k := Snapshots(s, k) + [Version(namespace, key, item.version, value, item.status, who, kind)]],
          [Change(namespace, key, item.version, kind, who, if k in s.items then s.items[k].value else Null, value)]
          + s.changes)
  }

  function PublishItem(s: Store, namespace: string, key: string, who: string): Option<Store> {
    var k := ItemKey(namespace, key);
    if k !in s.items then None else
      var item := s.items[k].(status := Published);
      Some(Store(s.items[k := item],
                 s.versions[k := Snapshots(s, k)
                                 + [Version(namespace, key, item.version, item.value, Published, who, Publishing)]],
                 [Change(namespace, key, item.version, Publishing, who, Null, item.value)] + s.changes))
  }

  /** `deprecate_item` records no snapshot. */
  function DeprecateItem(s: Store, namespace: string, key: string, who: string): Option<Store> {
    var k := ItemKey(namespace, key);
    if k !in s.items then None else
      var item := s.items[k].(status := Deprecated);
      Some(Store(s.items[k := item], s.versions,
                 [Change(namespace, key, item.version, Deleted, who, item.value, Null)] + s.changes))
  }

  function SnapshotOf(versions: seq<Version>, target: int): Option<Version> {
    FirstWhere(versions, (v: Version) => v.version == target)
  }

  function RollbackToVersion(s: Store, namespace: string, key: string, target: int, who: string): Option<Store> {
    var k := ItemKey(namespace, key);
    match SnapshotOf(Snapshots(s, k), target)
    case None => None
    case Some(v) =>
      var version := if k in s.items then s.items[k].version + 1 else 1;
      var oldValue := if k in s.items then s.items[k].value else Null;
      Some(Store(s.items[k := Item(namespace, key, v.value, "", Published, version, who, map[])],
                 s.versions[k := Snapshots(s, k)
                                 + [Version(namespace, key, version, v.value, Published, who, RolledBack)]],
                 [Change(namespace, key, version, RolledBack, who, oldValue, v.value)] + s.changes))
  }

  datatype Op =
    | Set(ns: string, key: string, value: Value, description: string, tags: Option<map<string, string>>, who: string)
    | Publish(ns: string, key: string, who: string)
    | Deprecate(ns: string, key: string, who: string)
    | Rollback(ns: string, key: string, target: int, who: string)

  function OrElse(next: Option<Store>, s: Store): Store {
    if next.Some? then next.value else s
  }

  function Apply(s: Store, op: Op): Store {
    match op
    case Set(ns, key, value, description, tags, who) => SetItem(s, ns, key, value, description, tags, who)
    case Publish(ns, key, who) => OrElse(PublishItem(s, ns, key, who), s)
    case Deprecate(ns, key, who) => OrElse(DeprecateItem(s, ns, key, who), s)
    case Rollback(ns, key, target, who) => OrElse(RollbackToVersion(s, ns, key, target, who), s)
  }

  function Run(s: Store, ops: seq<Op>): Store
    decreases |ops|
  {
    if ops == [] then s else Run(Apply(s, ops[0]), ops[1..])
  }

  // ---------- snapshots ----------

  /** Snapshots start at version 1 and go on at the same version and value, or at the next version. */
  ghost predicate Steady(vs: seq<Version>) {
    && (vs != [] ==> vs[0].version == 1)
    && forall i :: 0 < i < |vs| ==>
         || vs[i].version == vs[i - 1].version + 1
         || (vs[i].version == vs[i - 1].version && vs[i].value == vs[i - 1].value)
  }

  /** The last snapshot is of the item as it stands. */
  ghost predicate Recorded(vs: seq<Version>, item: Item) {
    && Steady(vs) && vs != []
    && vs[|vs| - 1].version == item.version && vs[|vs| - 1].value == item.value
  }

  ghost predicate Valid(s: Store) {
    && s.items.Keys == s.versions.Keys
    && forall k :: k in s.items ==> Recorded(s.versions[k], s.items[k])
  }

  lemma RecordedAppend(vs: seq<Version>, item: Item, v: Version)
    requires vs == [] || Recorded(vs, item)
    requires if vs == [] then v.version == 1
             else v.version == item.version + 1 || (v.version == item.version && v.value == item.value)
    ensures Steady(vs + [v])
  {
    var vs' := vs + [v];
    forall i | 0 < i < |vs'|
      ensures || vs'[i].version == vs'[i - 1].version + 1
              || (vs'[i].version == vs'[i - 1].version && vs'[i].value == vs'[i - 1].value)
    {
      if i == |vs| { assert vs'[i - 1] == vs[|vs| - 1]; }
    }
  }

  /** `s'` differs from `s` in the item and the snapshots of `k` only, and adds one snapshot. */
  ghost predicate Extends(s: Store, s': Store, k: string, v: Version, item: Item) {
    && s'.items == s.items[k := item]
    && s'.versions == s.versions[k := Snapshots(s, k) + [v]]
    && v.version == item.version && v.value == item.value
    && (if k in s.items
        then v.version == s.items[k].version + 1
             || (v.version == s.items[k].version && v.value == s.items[k].value)
        else v.version == 1)
  }

  lemma ExtendsKeepsValid(s: Store, s': Store, k: string, v: Version, item: Item)
    requires Valid(s) && Extends(s, s', k, v, item)
    ensures Valid(s')
    ensures forall j :: j in s.versions ==> j in s'.versions && s.versions[j] <= s'.versions[j]
  {
    hide Recorded;
    assert k in s.items ==> Recorded(s.versions[k], s.items[k]);
    assert Recorded(s'.versions[k], item) by {
      RecordedNext(s, s', k, v, item);
    }
    forall j | j in s'.items ensures Recorded(s'.versions[j], s'.items[j]) {
      if j != k { assert Recorded(s.versions[j], s.items[j]); }
    }
  }

  lemma RecordedNext(s: Store, s': Store, k: string, v: Version, item: Item)
    requires Valid(s) && Extends(s, s', k, v, item)
    ensures Recorded(s'.versions[k], item)
  {
    if k in s.items {
      assert Recorded(s.versions[k], s.items[k]);
      RecordedAppend(s.versions[k], s.items[k], v);
    }
  }

  lemma ApplyKeepsValid(s: Store, op: Op)
    requires Valid(s)
    ensures Valid(Apply(s, op))
    ensures forall k :: k in s.versions ==> k in Apply(s, op).versions && s.versions[k] <= Apply(s, op).versions[k]
  {
    hide ItemKey, SnapshotOf, Recorded;
    var k, s' := ItemKey(op.ns, op.key), Apply(s, op);
    if op.Deprecate? {
      if k in s.items { DeprecationKeepsValid(s, op.ns, op.key, op.who); }
    } else if s' != s {
      var vs := s'.versions[k];
      ExtendsKeepsValid(s, s', k, vs[|vs| - 1], s'.items[k]);
    }
  }

  lemma DeprecationKeepsValid(s: Store, ns: string, key: string, who: string)
    requires Valid(s) && DeprecateItem(s, ns, key, who).Some?
    ensures Valid(DeprecateItem(s, ns, key, who).value)
  {
    hide ItemKey;
    var s' := DeprecateItem(s, ns, key, who).value;
    forall k | k in s'.items ensures Recorded(s'.versions[k], s'.items[k]) {
      assert Recorded(s.versions[k], s.items[k]);
    }
  }

  lemma {:induction false} RunKeepsValid(s: Store, ops: seq<Op>)
    requires Valid(s)
    ensures Valid(Run(s, ops))
    ensures forall k :: k in s.versions ==> k in Run(s, ops).versions && s.versions[k] <= Run(s, ops).versions[k]
    decreases |ops|
  {
    hide Valid, Apply;
    if ops != [] {
      ApplyKeepsValid(s, ops[0]);
      RunKeepsValid(Apply(s, ops[0]), ops[1..]);
    }
  }

  /** Along a steady history versions do not decrease, and equal versions carry equal values. */
  lemma {:induction false} SteadyOrder(vs: seq<Version>, i: nat, j: nat)
    requires Steady(vs) && i <= j < |vs|
    ensures 1 <= vs[i].version <= vs[j].version
    ensures vs[i].version == vs[j].version ==> vs[i].value == vs[j].value
    decreases j
  {
    if i < j {
      SteadyOrder(vs, i, j - 1);
    } else if j > 0 {
      SteadyOrder(vs, j - 1, j - 1);
    }
  }

  ghost predicate HasVersion(vs: seq<Version>, n: int) {
    exists i :: 0 <= i < |vs| && vs[i].version == n
  }

  /** The versions with a snapshot are exactly 1 up to the last one. */
  lemma {:induction false} SteadyCovers(vs: seq<Version>, n: int)
    requires Steady(vs) && vs != []
    ensures HasVersion(vs, n) <==> 1 <= n <= vs[|vs| - 1].version
    decreases |vs|
  {
    if i :| 0 <= i < |vs| && vs[i].version == n {
      SteadyOrder(vs, i, |vs| - 1);
    }
    if 1 <= n < vs[|vs| - 1].version {
      var front := vs[..|vs| - 1];
      assert front != [] && front[|front| - 1] == vs[|vs| - 2];
      SteadyCovers(front, n);
      var i :| 0 <= i < |front| && front[i].version == n;
      assert vs[i].version == n;
    }
  }

  /** The snapshots of a stored item, over any run: ordered, complete, and one value per version. */
  lemma SnapshotsAreComplete(ops: seq<Op>, k: string)
    requires k in Run(EMPTY, ops).items
    ensures k in Run(EMPTY, ops).versions
    ensures var vs := Run(EMPTY, ops).versions[k];
            && (forall i, j :: 0 <= i <= j < |vs| ==> vs[i].version <= vs[j].version)
            && (forall i, j :: 0 <= i < |vs| && 0 <= j < |vs| && vs[i].version == vs[j].version ==>
                  vs[i].value == vs[j].value)
            && (forall n :: HasVersion(vs, n) <==> 1 <= n <= Run(EMPTY, ops).items[k].version)
  {
    RunKeepsValid(EMPTY, ops);
    var vs := Run(EMPTY, ops).versions[k];
    assert Recorded(vs, Run(EMPTY, ops).items[k]);
    forall i, j | 0 <= i <= j < |vs|
      ensures vs[i].version <= vs[j].version && (vs[i].version == vs[j].version ==> vs[i].value == vs[j].value)
    {
      SteadyOrder(vs, i, j);
    }
    forall n ensures HasVersion(vs, n) <==> 1 <= n <= Run(EMPTY, ops).items[k].version {
      SteadyCovers(vs, n);
    }
  }

  /**
   `set_item` is said to keep an item in draft; it leaves one in draft exactly if the item is new or was a
   draft before.
   */
  lemma DraftAfterSetIff(s: Store, ns: string, key: string, value: Value, description: string,
                         tags: Option<map<string, string>>, who: string)
    ensures var k := ItemKey(ns, key);
            var s' := SetItem(s, ns, key, value, description, tags, who);
            && k in s'.items
            && (s'.items[k].status == Draft <==> k !in s.items || s.items[k].status == Draft)
            && (k in s.items ==> s'.items[k].version == s.items[k].version + 1)
            && s'.items[k].value == value
  {
    hide ItemKey;
  }

  /** Setting a published item leaves the new value published. */
  lemma SetAfterPublishStaysPublished(ns: string, key: string, old': Value, new': Value, who: string)
    ensures var s := Run(EMPTY, [Set(ns, key, old', "", None, who), Publish(ns, key, who),
                                 Set(ns, key, new', "", None, who)]);
            var k := ItemKey(ns, key);
            k in s.items && s.items[k].value == new' && s.items[k].version == 2 && s.items[k].status == Published
  {
    hide ItemKey;
    var a, b, c := Set(ns, key, old', "", None, who), Publish(ns, key, who), Set(ns, key, new', "", None, who);
    assert [a, b, c][1..] == [b, c] && [b, c][1..] == [c] && [c][1..] == [];
    var s := Apply(Apply(Apply(EMPTY, a), b), c);
    assert Run(Apply(Apply(EMPTY, a), b), [c]) == Run(s, []) == s;
  }

  // ---------- rollback ----------

  lemma SnapshotOfFinds(vs: seq<Version>, target: int)
    requires Steady(vs)
    ensures SnapshotOf(vs, target).Some? <==> HasVersion(vs, target)
    ensures forall i :: 0 <= i < |vs| && vs[i].version == target ==>
              SnapshotOf(vs, target).Some? && SnapshotOf(vs, target).value.value == vs[i].value
  {
    var found := SnapshotOf(vs, target);
    assert forall i :: 0 <= i < |vs| ==> vs[i] in vs;
    if found.Some? {
      var j :| 0 <= j < |vs| && vs[j] == found.value;
      forall i | 0 <= i < |vs| && vs[i].version == target ensures found.value.value == vs[i].value {
        SteadyOrder(vs, if i < j then i else j, if i < j then j else i);
      }
    }
  }

  /** A rollback succeeds exactly for the versions the item has been through. */
  lemma RollbackSucceedsIff(s: Store, ns: string, key: string, target: int, who: string)
    requires Valid(s)
    ensures RollbackToVersion(s, ns, key, target, who).Some?
       <==> ItemKey(ns, key) in s.items && 1 <= target <= s.items[ItemKey(ns, key)].version
  {
    hide ItemKey, SnapshotOf;
    var k := ItemKey(ns, key);
    var vs := Snapshots(s, k);
    assert k in s.items ==> Recorded(vs, s.items[k]);
    SnapshotOfFinds(vs, target);
    if vs != [] {
      SteadyCovers(vs, target);
    }
  }

  /**
   Time travel: whatever happens to an item after it stood at some version, rolling back to that version
   gives it the value it had then, published, under the next version number, and touches no other item.
   */
  lemma RollbackRestores(s: Store, later: seq<Op>, ns: string, key: string, who: string)
    requires Valid(s) && ItemKey(ns, key) in s.items
    ensures var k := ItemKey(ns, key);
            var now := Run(s, later);
            var back := RollbackToVersion(now, ns, key, s.items[k].version, who);
            && k in now.items
            && back.Some?
            && k in back.value.items
            && back.value.items[k].value == s.items[k].value
            && back.value.items[k].version == now.items[k].version + 1
            && back.value.items[k].status == Published
            && back.value.items - {k} == now.items - {k}
  {
    hide ItemKey, SnapshotOf, Run, Valid;
    var k := ItemKey(ns, key);
    var now := Run(s, later);
    RunKeepsValid(s, later);
    ValidAt(s, k);
    ValidAt(now, k);
    var vs, last := now.versions[k], |s.versions[k]| - 1;
    assert vs[last] == s.versions[k][last];
    SteadyOrder(vs, last, |vs| - 1);
    RollbackSucceedsIff(now, ns, key, s.items[k].version, who);
    SnapshotOfFinds(vs, s.items[k].version);
  }

  lemma ValidAt(s: Store, k: string)
    requires Valid(s)
    ensures k in s.items <==> k in s.versions
    ensures k in s.items ==> Recorded(s.versions[k], s.items[k])
  {
  }

  /** A rollback can itself be rolled back. */
  lemma RollbackUndoesRollback(s: Store, ns: string, key: string, target: int, who: string)
    requires Valid(s) && RollbackToVersion(s, ns, key, target, who).Some?
    ensures var k := ItemKey(ns, key);
            var once := RollbackToVersion(s, ns, key, target, who).value;
            && k in s.items
            && var twice := RollbackToVersion(once, ns, key, s.items[k].version, who);
            && twice.Some? && k in twice.value.items
            && twice.value.items[k].value == s.items[k].value
            && twice.value.items[k].version == s.items[k].version + 2
  {
    hide ItemKey, SnapshotOf, Valid;
    RollbackSucceedsIff(s, ns, key, target, who);
    var ops := [Rollback(ns, key, target, who)];
    assert ops[1..] == [];
    assert Run(s, ops) == Apply(s, ops[0]);
    RollbackRestores(s, ops, ns, key, who);
  }
}
