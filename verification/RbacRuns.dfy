/**
 Role assignments over whole runs. Assignments are stored under one text made of tenant and user
 (apps/governance/rbac.py), so pairs whose texts agree share an assignment.
 */
module RbacRuns {
  import opened Keys
  import opened Rbac
  import opened Wrappers

  // A tenant and a user.
  type Pair = (string, string)

  function KeyOf(p: Pair): string {
    UserKey(p.0, p.1)
  }

  function OpPair(op: Op): Pair {
    (op.tenantId, op.userId)
  }

  function Run(m: map<string, Assignment>, ops: seq<Op>): map<string, Assignment>
    decreases |ops|
  {
    if ops == [] then m else Run(Apply(m, ops[0]), ops[1..])
  }

  /** What a pair's own operations give it: the first role it is assigned, until that is revoked. */
  function Held(before: Option<string>, ops: seq<Op>, p: Pair): Option<string>
    decreases |ops|
  {
    if ops == [] then before else Held(HeldAfter(before, ops[0], p), ops[1..], p)
  }

  function HeldAfter(before: Option<string>, op: Op, p: Pair): Option<string> {
    if OpPair(op) != p then before
    else
      match op
      case Assign(_, role, _) => if before.Some? then before else Some(role)
      case Revoke(_, _) => None
  }

  /** The store holds for the pair exactly the role its own operations gave it. */
  ghost predicate HoldsAt(m: map<string, Assignment>, held: Option<string>, p: Pair) {
    match held
    case None => KeyOf(p) !in m
    case Some(role) => KeyOf(p) in m && m[KeyOf(p)] == Assignment(p.1, role, p.0)
  }

  ghost predicate Injective(pairs: iset<Pair>) {
    forall p, q :: p in pairs && q in pairs && KeyOf(p) == KeyOf(q) ==> p == q
  }

  ghost predicate Uses(ops: seq<Op>, pairs: iset<Pair>) {
    forall i :: 0 <= i < |ops| ==> OpPair(ops[i]) in pairs
  }

  lemma {:induction false} RunHolds(m: map<string, Assignment>, before: Option<string>, ops: seq<Op>, p: Pair,
                                    pairs: iset<Pair>)
    requires Injective(pairs) && Uses(ops, pairs) && p in pairs && HoldsAt(m, before, p)
    ensures HoldsAt(Run(m, ops), Held(before, ops, p), p)
    decreases |ops|
  {
    hide KeyOf;
    if ops != [] {
      var op := ops[0];
      assert OpPair(op) in pairs;
      assert KeyOf(OpPair(op)) == UserKey(op.tenantId, op.userId) by { KeyOfPair(op); }
      assert OpPair(op) != p ==> KeyOf(OpPair(op)) != KeyOf(p);
      RunHolds(Apply(m, op), HeldAfter(before, op, p), ops[1..], p, pairs);
    }
  }

  lemma KeyOfPair(op: Op)
    ensures KeyOf(OpPair(op)) == UserKey(op.tenantId, op.userId)
  {
  }

  ghost predicate Faithful(pairs: iset<Pair>) {
    forall ops, p :: Uses(ops, pairs) && p in pairs ==> HoldsAt(Run(map[], ops), Held(None, ops, p), p)
  }

  /**
   Over a set of (tenant, user) pairs, every pair has exactly the role its own operations gave it after
   every run if and only if no two of the pairs share a key.
   */
  lemma AssignmentsIndependentIff(pairs: iset<Pair>)
    ensures Faithful(pairs) <==> Injective(pairs)
  {
    hide KeyOf, Run, Held;
    if Injective(pairs) {
      forall ops, p | Uses(ops, pairs) && p in pairs ensures HoldsAt(Run(map[], ops), Held(None, ops, p), p) {
        RunHolds(map[], None, ops, p, pairs);
      }
    } else {
      var p, q :| p in pairs && q in pairs && KeyOf(p) == KeyOf(q) && p != q;
      var ops := [Assign(p.1, PLATFORM_ADMIN, p.0)];
      CollisionShares(p, q, PLATFORM_ADMIN);
      assert Uses(ops, pairs);
    }
  }

  /** Assigning a role to one of two pairs with the same key assigns it to both. */
  lemma CollisionShares(p: Pair, q: Pair, role: string)
    requires KeyOf(p) == KeyOf(q) && p != q
    ensures var ops := [Assign(p.1, role, p.0)];
            Held(None, ops, q) == None && KeyOf(q) in Run(map[], ops)
  {
    var ops := [Assign(p.1, role, p.0)];
    assert ops[1..] == [];
    assert Run(map[], ops) == Apply(map[], ops[0]);
  }

  lemma SameTenantSameUser(p: Pair, q: Pair)
    requires KeyOf(p) == KeyOf(q) && p.0 == q.0
    ensures p == q
  {
    assert p.1 == KeyOf(p)[|p.0| + 1..] && q.1 == KeyOf(q)[|q.0| + 1..];
  }

  /**
   What an assignment permits under another pair with the same key: to a platform admin everything, to anyone
   else nothing, since the tenants differ.
   */
  lemma CollisionPermits(defs: Definitions, p: Pair, q: Pair, role: string, permission: string)
    requires KeyOf(p) == KeyOf(q) && p != q
    ensures Permitted(defs, Run(map[], [Assign(p.1, role, p.0)]), q.1, permission, q.0) <==> role == "platform_admin"
  {
    hide Grants;
    CollisionShares(p, q, role);
    assert p.0 != q.0 by {
      if p.0 == q.0 {
        SameTenantSameUser(p, q);
      }
    }
    var ops := [Assign(p.1, role, p.0)];
    assert ops[1..] == [];
    assert Run(map[], ops) == Apply(map[], ops[0]);
  }

  /** Tenants without a colon cannot collide; with one they can. */
  lemma ColonFreeIsInjective(pairs: iset<Pair>)
    requires forall p :: p in pairs ==> ':' !in p.0
    ensures Injective(pairs)
  {
    forall p, q | p in pairs && q in pairs && KeyOf(p) == KeyOf(q) ensures p == q {
      JoinIsInjective(p.0, p.1, q.0, q.1, ':');
    }
  }

  lemma ColonsCollide()
    ensures KeyOf(("a", "b:c")) == KeyOf(("a:b", "c"))
  {
  }

  /**
   After any run over tenants without a colon, a user has a permission in a tenant exactly when the role the
   operations for that user and tenant left in place is the platform admin's or is granted it by inheritance.
   */
  lemma PermissionsFollowAssignments(defs: Definitions, ops: seq<Op>, tenantId: string, userId: string,
                                     permission: string)
    requires ':' !in tenantId && forall i :: 0 <= i < |ops| ==> ':' !in ops[i].tenantId
    ensures Permitted(defs, Run(map[], ops), userId, permission, tenantId)
       <==> match Held(None, ops, (tenantId, userId))
            case None => false
            case Some(role) => role == "platform_admin" || Grants(defs, role, permission)
  {
    hide Grants, Run, Held;
    var pairs := iset p: Pair | ':' !in p.0;
    ColonFreeIsInjective(pairs);
    RunHolds(map[], None, ops, (tenantId, userId), pairs);
  }
}
