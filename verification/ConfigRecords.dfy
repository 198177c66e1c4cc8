/** What each operation of the configuration store keeps of an item, and what it puts on record. */
module ConfigRecords {
  import opened Wrappers
  import opened ConfigHistory

  /**
   `set_item` on a stored item keeps its creator and status, and its description and tags unless new ones are
   given; tags can be cleared that way, a description cannot. A new item takes everything it is given.
   */
  lemma SetKeepsWhatIsNotGiven(s: Store, ns: string, key: string, value: Value, description: string,
                               tags: Option<map<string, string>>, who: string)
    ensures var k := ItemKey(ns, key);
            var s' := SetItem(s, ns, key, value, description, tags, who);
            && k in s'.items && s'.items - {k} == s.items - {k}
            && var after := s'.items[k];
               && after.value == value
               && (description != "" ==> after.description == description)
               && (tags.Some? ==> after.tags == tags.value)
               && (k in s.items ==>
                     && after.namespace == s.items[k].namespace && after.key == s.items[k].key
                     && after.createdBy == s.items[k].createdBy && after.status == s.items[k].status
                     && (description == "" ==> after.description == s.items[k].description)
                     && (tags.None? ==> after.tags == s.items[k].tags))
               && (k !in s.items ==>
                     && after.namespace == ns && after.key == key && after.createdBy == who
                     && (description == "" ==> after.description == "") && (tags.None? ==> after.tags == map[]))
  {
    hide ItemKey;
  }

  /** What an operation is called in the trail and in the snapshots. */
  function KindOf(s: Store, op: Op): ChangeType {
    match op
    case Set(ns, key, _, _, _, _) => if ItemKey(ns, key) in s.items then Updated else Created
    case Publish(_, _, _) => Publishing
    case Deprecate(_, _, _) => Deleted
    case Rollback(_, _, _, _) => RolledBack
  }

  /**
   An operation that changes anything adds one change that names who did what to which version, and, unless it
   deprecates, one snapshot of the item as it now stands that names the same.
   */
  lemma RecordsTellWhoDidWhat(s: Store, op: Op)
    requires Valid(s) && Apply(s, op) != s
    ensures var s' := Apply(s, op);
            var k := ItemKey(op.ns, op.key);
            && k in s'.items && |s'.changes| == |s.changes| + 1 && s'.changes[1..] == s.changes
            && var c, item := s'.changes[0], s'.items[k];
               && c.namespace == op.ns && c.key == op.key && c.changedBy == op.who
               && c.version == item.version && c.changeType == KindOf(s, op)
               && c.newValue == (if op.Deprecate? then Null else item.value)
               && (if op.Deprecate? then s'.versions == s.versions
                   else && k in s'.versions
                        && s'.versions == s.versions[k := Snapshots(s, k)
                             + [Version(op.ns, op.key, item.version, item.value, item.status, op.who, KindOf(s, op))]])
  {
    hide ItemKey, SnapshotOf;
    var k := ItemKey(op.ns, op.key);
    ValidAt(s, k);
    assert Apply(s, op).changes == [Apply(s, op).changes[0]] + s.changes;
  }

  /** Publishing and deprecating change the status of a stored item and nothing else about it. */
  lemma OnlyTheStatusChanges(s: Store, ns: string, key: string, who: string)
    ensures var k := ItemKey(ns, key);
            && (PublishItem(s, ns, key, who).Some? <==> k in s.items)
            && (DeprecateItem(s, ns, key, who).Some? <==> k in s.items)
            && (k in s.items ==>
                  && PublishItem(s, ns, key, who).value.items == s.items[k := s.items[k].(status := Published)]
                  && DeprecateItem(s, ns, key, who).value.items == s.items[k := s.items[k].(status := Deprecated)])
  {
    hide ItemKey;
  }

  /** A rollback makes a new item of the old value: its author is who rolled back, its description and tags are gone. */
  lemma RollbackStartsAfresh(s: Store, ns: string, key: string, target: int, who: string)
    requires RollbackToVersion(s, ns, key, target, who).Some?
    ensures var k := ItemKey(ns, key);
            var s' := RollbackToVersion(s, ns, key, target, who).value;
            && k in s'.items && s'.items - {k} == s.items - {k}
            && var item := s'.items[k];
               && item.namespace == ns && item.key == key && item.createdBy == who
               && item.description == "" && item.tags == map[] && item.status == Published
  {
    hide ItemKey, SnapshotOf;
  }

  /** Setting, describing and setting again without a description keeps the description, the tags and the creator. */
  lemma SecondSetKeepsDescription(ns: string, key: string, text: string, tags: map<string, string>, a: string,
                                  b: string)
    requires text != ""
    ensures var s := Run(EMPTY, [Set(ns, key, Null, text, Some(tags), a), Set(ns, key, Null, "", None, b)]);
            var k := ItemKey(ns, key);
            k in s.items && s.items[k] == Item(ns, key, Null, text, Draft, 2, a, tags)
  {
    hide ItemKey;
    var one, two := Set(ns, key, Null, text, Some(tags), a), Set(ns, key, Null, "", None, b);
    assert [one, two][1..] == [two] && [two][1..] == [];
    var s := Apply(Apply(EMPTY, one), two);
    assert Run(Apply(EMPTY, one), [two]) == Run(s, []) == s;
  }
}
