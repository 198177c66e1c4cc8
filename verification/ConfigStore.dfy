/**
 The configuration store as the source has it: dictionaries and a trail updated in place by every
 operation (apps/config_center/store.py), proved against the functions of `ConfigHistory`.
 */
module ConfigStore {
  import opened Wrappers
  import History = ConfigHistory

  function Reversed<T>(s: seq<T>): (r: seq<T>)
    ensures |r| == |s| && forall i :: 0 <= i < |s| ==> r[i] == s[|s| - 1 - i]
  {
    if s == [] then [] else Reversed(s[1..]) + [s[0]]
  }

  lemma NewestFirst(s: seq<History.Version>, r: seq<History.Version>)
    requires History.Steady(s) && |r| == |s| && forall i :: 0 <= i < |s| ==> r[i] == s[|s| - 1 - i]
    ensures forall i, j :: 0 <= i <= j < |r| ==> r[i].version >= r[j].version
  {
    forall i, j | 0 <= i <= j < |r| ensures r[i].version >= r[j].version {
      History.SteadyOrder(s, |s| - 1 - j, |s| - 1 - i);
    }
  }

  class Store {
    var items: map<string, History.Item>
    var versions: map<string, seq<History.Version>>
    var changes: seq<History.Change>   // newest first

    constructor ()
      ensures View() == History.EMPTY && Valid()
    {
      items, versions, changes := map[], map[], [];
    }

    ghost function View(): History.Store
      reads this
    {
      History.Store(items, versions, changes)
    }

    ghost predicate Valid()
      reads this
    {
      History.Valid(View())
    }

    method Snapshot(itemKey: string, version: History.Version)
      modifies this`versions
      ensures versions == old(versions)[itemKey := History.Snapshots(old(View()), itemKey) + [version]]
    {
      if itemKey !in versions {
        versions := versions[itemKey := []];
      }
      versions := versions[itemKey := versions[itemKey] + [version]];
    }

    method SetItem(namespace: string, key: string, value: History.Value, description: string,
                   tags: Option<map<string, string>>, createdBy: string)
      returns (item: History.Item, created: bool)
      requires Valid()
      modifies this
      ensures View() == History.SetItem(old(View()), namespace, key, value, description, tags, createdBy) && Valid()
      ensures created <==> History.ItemKey(namespace, key) !in old(items)
      ensures History.ItemKey(namespace, key) in items && item == items[History.ItemKey(namespace, key)]
    {
      hide History.ItemKey, History.Valid;
      History.ApplyKeepsValid(View(), History.Set(namespace, key, value, description, tags, createdBy));
      var itemKey := History.ItemKey(namespace, key);
      created := itemKey !in items;
      var kind := History.Created;
      var oldValue := History.Null;
      if created {
        item := History.Item(namespace, key, value, description, History.Draft, 1, createdBy,
                             if tags.Some? then tags.value else map[]);
      } else {
        item := items[itemKey];
        kind, oldValue := History.Updated, item.value;
        item := item.(value := value);
        if description != "" {
          item := item.(description := description);
        }
        if tags.Some? {
          item := item.(tags := tags.value);
        }
        item := item.(version := item.version + 1);
      }
      assert item == History.Updating(View(), namespace, key, value, description, tags, createdBy);
      hide History.Updating;
      items := items[itemKey := item];
      Snapshot(itemKey, History.Version(namespace, key, item.version, value, item.status, createdBy, kind));
      changes := [History.Change(namespace, key, item.version, kind, createdBy, oldValue, value)] + changes;
    }

    method PublishItem(namespace: string, key: string, changedBy: string) returns (published: Option<History.Item>)
      requires Valid()
      modifies this
      ensures Valid()
      ensures View() == History.OrElse(History.PublishItem(old(View()), namespace, key, changedBy), old(View()))
      ensures published.Some? <==> History.ItemKey(namespace, key) in old(items)
      ensures published.Some? ==> History.ItemKey(namespace, key) in items
                                  && published.value == items[History.ItemKey(namespace, key)]
    {
      hide History.ItemKey;
      History.ApplyKeepsValid(View(), History.Publish(namespace, key, changedBy));
      var itemKey := History.ItemKey(namespace, key);
      if itemKey !in items {
        return None;
      }
      var item := items[itemKey].(status := History.Published);
      items := items[itemKey := item];
      Snapshot(itemKey, History.Version(namespace, key, item.version, item.value, item.status, changedBy,
                                        History.Publishing));
      changes := [History.Change(namespace, key, item.version, History.Publishing, changedBy, History.Null, item.value)]
                 + changes;
      return Some(item);
    }

    method DeprecateItem(namespace: string, key: string, changedBy: string) returns (deprecated: Option<History.Item>)
      requires Valid()
      modifies this
      ensures Valid()
      ensures View() == History.OrElse(History.DeprecateItem(old(View()), namespace, key, changedBy), old(View()))
      ensures deprecated.Some? <==> History.ItemKey(namespace, key) in old(items)
      ensures deprecated.Some? ==> History.ItemKey(namespace, key) in items
                                   && deprecated.value == items[History.ItemKey(namespace, key)]
    {
      hide History.ItemKey;
      History.ApplyKeepsValid(View(), History.Deprecate(namespace, key, changedBy));
      var itemKey := History.ItemKey(namespace, key);
      if itemKey !in items {
        return None;
      }
      var item := items[itemKey].(status := History.Deprecated);
      items := items[itemKey := item];
      changes := [History.Change(namespace, key, item.version, History.Deleted, changedBy, item.value, History.Null)]
                 + changes;
      return Some(item);
    }

    method RollbackToVersion(namespace: string, key: string, targetVersion: int, changedBy: string)
      returns (current: Option<History.Item>)
      requires Valid()
      modifies this
      ensures Valid()
      ensures View() == History.OrElse(
                History.RollbackToVersion(old(View()), namespace, key, targetVersion, changedBy), old(View()))
      ensures current.Some? <==> History.RollbackToVersion(old(View()), namespace, key, targetVersion, changedBy).Some?
      ensures current.Some? ==> History.ItemKey(namespace, key) in items
                                && current.value == items[History.ItemKey(namespace, key)]
    {
      hide History.SnapshotOf, History.ItemKey;
      History.ApplyKeepsValid(View(), History.Rollback(namespace, key, targetVersion, changedBy));
      var itemKey := History.ItemKey(namespace, key);
      var target := History.SnapshotOf(if itemKey in versions then versions[itemKey] else [], targetVersion);
      if target.None? {
        return None;
      }
      var oldValue := if itemKey in items then items[itemKey].value else History.Null;
      var version := if itemKey in items then items[itemKey].version + 1 else 1;
      var item := History.Item(namespace, key, target.value.value, "", History.Published, version, changedBy, map[]);
      items := items[itemKey := item];
      Snapshot(itemKey,
               History.Version(namespace, key, version, item.value, item.status, changedBy, History.RolledBack));
      changes := [History.Change(namespace, key, version, History.RolledBack, changedBy, oldValue, item.value)]
                 + changes;
      return Some(item);
    }

    /** Version history, newest first. */
    method GetVersions(namespace: string, key: string) returns (r: seq<History.Version>)
      ensures var s := History.Snapshots(View(), History.ItemKey(namespace, key));
              |r| == |s| && forall i :: 0 <= i < |r| ==> r[i] == s[|s| - 1 - i]
      ensures var k := History.ItemKey(namespace, key);
              Valid() && k in items ==>
                && r != [] && r[0].version == items[k].version && r[0].value == items[k].value
                && forall i, j :: 0 <= i <= j < |r| ==> r[i].version >= r[j].version
    {
      hide History.ItemKey, History.Valid, History.Steady, Reversed;
      var itemKey := History.ItemKey(namespace, key);
      var snapshots := if itemKey in versions then versions[itemKey] else [];
      r := Reversed(snapshots);
      if Valid() && itemKey in items {
        History.ValidAt(View(), itemKey);
        NewestFirst(snapshots, r);
      }
    }
  }
}
