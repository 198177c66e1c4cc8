/**
 Role inheritance (apps/governance/rbac.py): the recursion over `inherits_from`, when it comes to an end,
 and what it computes.
 */
module Rbac {
  import opened Sets
  import opened Wrappers

  datatype RoleDefinition = RoleDefinition(permissions: set<string>, inheritsFrom: seq<string>)

  type Definitions = map<string, RoleDefinition>

  // ---------- inheritance paths ----------

  /** Each role but the last is defined and inherits from the next one. */
  ghost predicate Path(defs: Definitions, p: seq<string>) {
    && p != []
    && forall i :: 0 <= i < |p| - 1 ==> p[i] in defs && p[i + 1] in defs[p[i]].inheritsFrom
  }

  /** Some role on a path from `role` to a definition carries the permission. */
  ghost predicate Grants(defs: Definitions, role: string, permission: string) {
    exists p :: Path(defs, p) && p[0] == role && CarriedAt(defs, p[|p| - 1], permission)
  }

  ghost predicate CarriedAt(defs: Definitions, role: string, permission: string) {
    role in defs && permission in defs[role].permissions
  }

  ghost predicate Simple(p: seq<string>) {
    forall i, j :: 0 <= i < j < |p| ==> p[i] != p[j]
  }

  /** No inheritance path from `role` comes back to a role it has passed. */
  ghost predicate Acyclic(defs: Definitions, role: string) {
    forall p :: Path(defs, p) && p[0] == role ==> Simple(p)
  }

  lemma GrantsUnfolds(defs: Definitions, role: string, permission: string)
    ensures Grants(defs, role, permission)
       <==> role in defs && (permission in defs[role].permissions
                             || exists k :: k in defs[role].inheritsFrom && Grants(defs, k, permission))
  {
    if Grants(defs, role, permission) {
      var p :| Path(defs, p) && p[0] == role && CarriedAt(defs, p[|p| - 1], permission);
      if |p| > 1 {
        var q := p[1..];
        assert Path(defs, q) by {
          assert forall i :: 0 <= i < |q| ==> q[i] == p[i + 1];
        }
        assert q[|q| - 1] == p[|p| - 1];
        assert Grants(defs, p[1], permission);
      }
    }
    if role in defs && permission in defs[role].permissions {
      assert Path(defs, [role]) && CarriedAt(defs, [role][0], permission);
    }
    if role in defs && exists k :: k in defs[role].inheritsFrom && Grants(defs, k, permission) {
      var k :| k in defs[role].inheritsFrom && Grants(defs, k, permission);
      var q :| Path(defs, q) && q[0] == k && CarriedAt(defs, q[|q| - 1], permission);
      var p := [role] + q;
      assert Path(defs, p) by {
        assert forall i :: 1 <= i < |p| ==> p[i] == q[i - 1];
      }
      assert p[|p| - 1] == q[|q| - 1];
    }
  }

  lemma PathExtends(defs: Definitions, p: seq<string>, next: string)
    requires Path(defs, p) && p[|p| - 1] in defs && next in defs[p[|p| - 1]].inheritsFrom
    ensures Path(defs, p + [next])
  {
  }

  lemma SetOfSimple(p: seq<string>)
    requires Simple(p)
    ensures |set x | x in p| == |p|
  {
    if p != [] {
      var front, last := p[..|p| - 1], p[|p| - 1];
      assert Simple(front);
      SetOfSimple(front);
      assert (set x | x in p) == (set x | x in front) + {last};
      assert last !in front;
    } else {
      assert (set x | x in p) == {};
    }
  }

  /** A path without repetition is at most one longer than there are definitions. */
  lemma SimplePathIsShort(defs: Definitions, p: seq<string>)
    requires Path(defs, p) && Simple(p)
    ensures |p| <= |defs| + 1
  {
    var front := p[..|p| - 1];
    SetOfSimple(front);
    var roles := set x | x in front;
    assert roles <= defs.Keys;
    SubsetSize(roles, defs.Keys);
  }

  // ---------- when the recursion ends ----------

  /** The recursion with at most `depth` nested calls; None when they do not suffice. */
  function Effective(defs: Definitions, role: string, depth: nat): Option<set<string>>
    decreases depth, 0
  {
    if depth == 0 then None
    else if role !in defs then Some({})
    else
      match Inherited(defs, defs[role].inheritsFrom, depth - 1)
      case None => None
      case Some(more) => Some(defs[role].permissions + more)
  }

  function Inherited(defs: Definitions, roles: seq<string>, depth: nat): Option<set<string>>
    decreases depth, |roles| + 1
  {
    if roles == [] then Some({})
    else
      match (Effective(defs, roles[0], depth), Inherited(defs, roles[1..], depth))
      case (Some(a), Some(b)) => Some(a + b)
      case _ => None
  }

  lemma {:induction false} InheritedEnds(defs: Definitions, roles: seq<string>, depth: nat)
    ensures Inherited(defs, roles, depth).Some? <==> forall r :: r in roles ==> Effective(defs, r, depth).Some?
    decreases roles
  {
    if roles != [] {
      InheritedEnds(defs, roles[1..], depth);
      assert forall r :: r in roles <==> r == roles[0] || r in roles[1..];
      assert Inherited(defs, roles, depth).Some?
        <==> Effective(defs, roles[0], depth).Some? && Inherited(defs, roles[1..], depth).Some?;
      if Inherited(defs, roles, depth).Some? {
        forall r | r in roles ensures Effective(defs, r, depth).Some? {
          if r != roles[0] { assert r in roles[1..]; }
        }
      } else if Effective(defs, roles[0], depth).Some? {
        var r :| r in roles[1..] && Effective(defs, r, depth).None?;
        assert r in roles;
      } else {
        assert roles[0] in roles;
      }
    }
  }

  /** If `depth` calls suffice, no inheritance path from the role is longer than that. */
  lemma {:induction false} EndingBoundsPaths(defs: Definitions, p: seq<string>, depth: nat)
    requires Path(defs, p) && Effective(defs, p[0], depth).Some?
    ensures |p| <= depth
    decreases depth
  {
    if |p| > 1 {
      InheritedEnds(defs, defs[p[0]].inheritsFrom, depth - 1);
      assert Path(defs, p[1..]) by {
        assert forall i :: 0 <= i < |p[1..]| ==> p[1..][i] == p[i + 1];
      }
      EndingBoundsPaths(defs, p[1..], depth - 1);
    }
  }

  /** A path that comes back to itself can be made as long as one likes. */
  lemma {:induction false} CyclesPump(defs: Definitions, p: seq<string>, i: nat, j: nat, length: nat)
    returns (q: seq<string>)
    requires Path(defs, p) && i < j < |p| && p[i] == p[j]
    ensures Path(defs, q) && q[0] == p[0] && |q| >= length
    decreases length - |p|
  {
    if |p| >= length {
      q := p;
    } else {
      var longer := p[..j + 1] + p[i + 1..];
      assert Path(defs, longer) by {
        forall k | 0 <= k < |longer| - 1 ensures longer[k] in defs && longer[k + 1] in defs[longer[k]].inheritsFrom {
          if k < j {
            assert longer[k] == p[k] && longer[k + 1] == p[k + 1];
          } else {
            assert longer[k] == p[k - (j - i)] && longer[k + 1] == p[k - (j - i) + 1];
          }
        }
      }
      q := CyclesPump(defs, longer, i, j, length);
    }
  }

  /** From the end of a path without cycles ahead, the definitions not yet passed bound the depth. */
  lemma {:induction false} AcyclicEnds(defs: Definitions, p: seq<string>, depth: nat)
    requires Path(defs, p) && Acyclic(defs, p[0])
    requires depth + |p| >= |defs| + 2
    ensures Effective(defs, p[|p| - 1], depth).Some?
    decreases depth
  {
    SimplePathIsShort(defs, p);
    var role := p[|p| - 1];
    if role in defs {
      forall next | next in defs[role].inheritsFrom ensures Effective(defs, next, depth - 1).Some? {
        PathExtends(defs, p, next);
        AcyclicEnds(defs, p + [next], depth - 1);
      }
      InheritedEnds(defs, defs[role].inheritsFrom, depth - 1);
    }
  }

  /** The recursion comes to an end exactly for roles from which no inheritance path runs into a cycle. */
  lemma RecursionEndsIffAcyclic(defs: Definitions, role: string)
    ensures (exists depth: nat :: Effective(defs, role, depth).Some?) <==> Acyclic(defs, role)
  {
    if depth: nat :| Effective(defs, role, depth).Some? {
      forall p | Path(defs, p) && p[0] == role ensures Simple(p) {
        forall i, j | 0 <= i < j < |p| ensures p[i] != p[j] {
          if p[i] == p[j] {
            var q := CyclesPump(defs, p, i, j, depth + 1);
            EndingBoundsPaths(defs, q, depth);
          }
        }
      }
    }
    if Acyclic(defs, role) {
      assert Path(defs, [role]);
      AcyclicEnds(defs, [role], |defs| + 1);
    }
  }

  // ---------- what it computes ----------

  lemma {:induction false} InheritedMeans(defs: Definitions, roles: seq<string>, depth: nat, permission: string)
    requires Inherited(defs, roles, depth).Some?
    ensures permission in Inherited(defs, roles, depth).value
       <==> exists k :: k in roles && Grants(defs, k, permission)
    decreases depth, |roles| + 1
  {
    if roles != [] {
      EffectiveMeans(defs, roles[0], depth, permission);
      InheritedMeans(defs, roles[1..], depth, permission);
      assert forall r :: r in roles <==> r == roles[0] || r in roles[1..];
    }
  }

  /** When the recursion ends, it returns the permissions of every definition on an inheritance path. */
  lemma {:induction false} EffectiveMeans(defs: Definitions, role: string, depth: nat, permission: string)
    requires Effective(defs, role, depth).Some?
    ensures permission in Effective(defs, role, depth).value <==> Grants(defs, role, permission)
    decreases depth, 0
  {
    hide Grants;
    GrantsUnfolds(defs, role, permission);
    if role in defs {
      InheritedMeans(defs, defs[role].inheritsFrom, depth - 1, permission);
    }
  }

  // ---------- assignments ----------

  datatype Assignment = Assignment(userId: string, role: string, tenantId: string)

  const PLATFORM_ADMIN := "platform_admin"

  function UserKey(tenantId: string, userId: string): string {
    tenantId + ":" + userId
  }

  datatype Op =
    | Assign(userId: string, role: string, tenantId: string)
    | Revoke(userId: string, tenantId: string)

  /** `assign_role` refuses a user who has a role; `revoke_role` removes whatever is there. */
  function Apply(m: map<string, Assignment>, op: Op): map<string, Assignment> {
    var key := UserKey(op.tenantId, op.userId);
    match op
    case Assign(userId, role, tenantId) => if key in m then m else m[key := Assignment(userId, role, tenantId)]
    case Revoke(_, _) => m - {key}
  }

  /** Platform admins may do anything; others, in their own tenant, what their role is granted. */
  ghost predicate Permitted(defs: Definitions, m: map<string, Assignment>, userId: string, permission: string,
                            tenantId: string)
  {
    var key := UserKey(tenantId, userId);
    && key in m
    && (m[key].role == PLATFORM_ADMIN || (m[key].tenantId == tenantId && Grants(defs, m[key].role, permission)))
  }

  class RoleStore {
    const definitions: Definitions
    var userRoles: map<string, Assignment>

    constructor (definitions: Definitions)
      ensures this.definitions == definitions && userRoles == map[]
    {
      this.definitions := definitions;
      userRoles := map[];
    }

    /** `_effective_permissions`; `path` is the chain of calls that led here. */
    method EffectivePermissions(role: string, ghost path: seq<string>) returns (result: set<string>)
      requires Path(definitions, path) && path[|path| - 1] == role && Acyclic(definitions, path[0])
      ensures forall permission :: permission in result <==> Grants(definitions, role, permission)
      decreases |definitions| + 2 - |path|
    {
      assert path != [];
      hide Path, Acyclic, Grants;
      forall permission {
        GrantsUnfolds(definitions, role, permission);
      }
      if role !in definitions {
        return {};
      }
      var definition := definitions[role];
      result := definition.permissions;
      for i := 0 to |definition.inheritsFrom|
        invariant forall permission :: permission in result <==>
          || permission in definition.permissions
          || exists k :: k in definition.inheritsFrom[..i] && Grants(definitions, k, permission)
      {
        var next := definition.inheritsFrom[i];
        PathExtends(definitions, path, next);
        assert (path + [next])[0] == path[0];
        ChainIsShort(definitions, path + [next]);
        var more := EffectivePermissions(next, path + [next]);
        result := result + more;
        assert forall k :: k in definition.inheritsFrom[..i + 1] <==> k in definition.inheritsFrom[..i] || k == next;
      }
      assert definition.inheritsFrom[..|definition.inheritsFrom|] == definition.inheritsFrom;
    }

    method AssignRole(userId: string, role: string, tenantId: string) returns (ok: bool)
      modifies this`userRoles
      ensures ok <==> UserKey(tenantId, userId) !in old(userRoles)
      ensures userRoles == Apply(old(userRoles), Assign(userId, role, tenantId))
    {
      var key := UserKey(tenantId, userId);
      if key in userRoles {
        return false;
      }
      userRoles := userRoles[key := Assignment(userId, role, tenantId)];
      return true;
    }

    method RevokeRole(userId: string, tenantId: string) returns (found: bool)
      modifies this`userRoles
      ensures found <==> UserKey(tenantId, userId) in old(userRoles)
      ensures userRoles == Apply(old(userRoles), Revoke(userId, tenantId))
    {
      var key := UserKey(tenantId, userId);
      found := key in userRoles;
      userRoles := userRoles - {key};
    }

    method HasPermission(userId: string, permission: string, tenantId: string) returns (granted: bool)
      requires var key := UserKey(tenantId, userId);
               key in userRoles && userRoles[key].role != PLATFORM_ADMIN && userRoles[key].tenantId == tenantId ==>
                 Acyclic(definitions, userRoles[key].role)
      ensures granted <==> Permitted(definitions, userRoles, userId, permission, tenantId)
    {
      var key := UserKey(tenantId, userId);
      if key !in userRoles {
        return false;
      }
      var assignment := userRoles[key];
      if assignment.role == PLATFORM_ADMIN {
        return true;
      }
      if assignment.tenantId != tenantId {
        return false;
      }
      assert Path(definitions, [assignment.role]);
      var effective := EffectivePermissions(assignment.role, [assignment.role]);
      return permission in effective;
    }
  }

  lemma ChainIsShort(defs: Definitions, p: seq<string>)
    requires Path(defs, p) && Acyclic(defs, p[0])
    ensures |p| <= |defs| + 1
  {
    SimplePathIsShort(defs, p);
  }
}
