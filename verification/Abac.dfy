/**
 Attribute-based policies (apps/governance/abac.py): the policies are sorted by descending priority,
 earliest registered first among equals, and the first one that applies decides; otherwise access is denied.

 Glob matching and the text of an attribute value are parameters.
 */
module Abac {
  import opened Wrappers
  import opened Sorting

  datatype Value = Null | Text(text: string) | Number(number: int)

  datatype Condition = Condition(key: string, expected: Expected)

  datatype Expected = Exactly(value: Value) | OneOf(values: seq<Value>)

  datatype Effect = Allow | Deny

  datatype Policy = Policy(id: string, conditions: seq<Condition>, actions: seq<string>, resources: seq<string>,
                           effect: Effect, priority: int, enabled: bool)

  // An attribute of the context; a context lists its attributes in dictionary order.
  datatype Attribute = Attribute(key: string, value: Value)

  datatype Request = Request(action: string, resource: string, context: seq<Attribute>)

  datatype Strings = Strings(glob: (string, string) -> bool, show: Value -> string)

  // ---------- one policy ----------

  predicate EndsWith(s: string, suffix: string) {
    |suffix| <= |s| && s[|s| - |suffix|..] == suffix
  }

  /** The attribute under `key`, or else the first one whose name ends with it. */
  function Lookup(context: seq<Attribute>, key: string): Value {
    match FirstWhere(context, (a: Attribute) => a.key == key && a.value != Null)
    case Some(a) => a.value
    case None =>
      match FirstWhere(context, (a: Attribute) => EndsWith(a.key, key))
      case Some(a) => a.value
      case None => Null
  }

  // The user's role assignment, as far as it enters the context.
  datatype User = User(role: string, tenantId: string, userId: string)

  /** `context[key] = value`: a known name keeps its place. */
  function Put(context: seq<Attribute>, key: string, value: Value): seq<Attribute> {
    if context == [] then [Attribute(key, value)]
    else if context[0].key == key then [Attribute(key, value)] + context[1..]
    else [context[0]] + Put(context[1..], key, value)
  }

  function ContextOf(attributes: seq<Attribute>, user: Option<User>): seq<Attribute> {
    match user
    case None => attributes
    case Some(u) =>
      Put(Put(Put(attributes, "role", Text(u.role)), "tenant_id", Text(u.tenantId)), "user_id", Text(u.userId))
  }

  predicate Matches(tx: Strings, value: Value, expected: Expected) {
    match expected
    case OneOf(values) => value in values
    case Exactly(v) => if v.Text? && '*' in v.text then tx.glob(tx.show(value), v.text) else value == v
  }

  predicate ConditionsHold(tx: Strings, conditions: seq<Condition>, context: seq<Attribute>) {
    forall i :: 0 <= i < |conditions| ==> Matches(tx, Lookup(context, conditions[i].key), conditions[i].expected)
  }

  const ACTIONS := ["create", "read", "update", "delete", "execute"]

  /** An action the enumeration does not know counts as a read. */
  function KnownAction(action: string): string {
    if action in ACTIONS then action else "read"
  }

  predicate Applies(tx: Strings, p: Policy, r: Request) {
    && p.enabled
    && (p.actions == [] || KnownAction(r.action) in p.actions)
    && (p.resources == [] || exists i :: 0 <= i < |p.resources| && tx.glob(r.resource, p.resources[i]))
    && ConditionsHold(tx, p.conditions, r.context)
  }

  // ---------- evaluation ----------

  function ByPriority(): Policy -> real {
    (p: Policy) => -(p.priority as real)
  }

  function Selector(tx: Strings, r: Request): Policy -> bool {
    (p: Policy) => Applies(tx, p, r)
  }

  function Deciding(tx: Strings, policies: seq<Policy>, r: Request): Option<Policy> {
    FirstWhere(Sort(policies, ByPriority()), Selector(tx, r))
  }

  predicate Allowed(tx: Strings, policies: seq<Policy>, r: Request) {
    var p := Deciding(tx, policies, r);
    p.Some? && p.value.effect == Allow
  }

  /** `policies[i]` applies, nothing that applies has a higher priority, and no equal was registered earlier. */
  ghost predicate IsTop(tx: Strings, policies: seq<Policy>, r: Request, i: nat) {
    && i < |policies| && Applies(tx, policies[i], r)
    && forall j :: 0 <= j < |policies| && Applies(tx, policies[j], r) ==>
         policies[j].priority <= policies[i].priority && (policies[j].priority == policies[i].priority ==> i <= j)
  }

  /** The deciding policy is the top one; without one that applies there is none. */
  lemma DecidingIsTop(tx: Strings, policies: seq<Policy>, r: Request)
    ensures match Deciding(tx, policies, r)
            case None => forall j :: 0 <= j < |policies| ==> !Applies(tx, policies[j], r)
            case Some(p) => exists i: nat :: IsTop(tx, policies, r, i) && policies[i] == p
  {
    hide Applies;
    FirstOfSorted(policies, ByPriority(), Selector(tx, r));
    match Deciding(tx, policies, r)
    case None =>
      forall j | 0 <= j < |policies| ensures !Applies(tx, policies[j], r) {
        assert policies[j] in policies && !Selector(tx, r)(policies[j]);
      }
    case Some(p) =>
      var i: nat :| IsFirstBest(policies, ByPriority(), Selector(tx, r), i) && policies[i] == p;
      forall j | 0 <= j < |policies| && Applies(tx, policies[j], r)
        ensures policies[j].priority <= policies[i].priority
        ensures policies[j].priority == policies[i].priority ==> i <= j
      {
        assert Selector(tx, r)(policies[j]);
        assert ByPriority()(policies[i]) <= ByPriority()(policies[j]);
      }
      assert IsTop(tx, policies, r, i);
  }

  lemma TopIsUnique(tx: Strings, policies: seq<Policy>, r: Request, i: nat, j: nat)
    requires IsTop(tx, policies, r, i) && IsTop(tx, policies, r, j)
    ensures i == j
  {
  }

  /** Whatever index is top decides. */
  lemma TopDecides(tx: Strings, policies: seq<Policy>, r: Request, i: nat)
    requires IsTop(tx, policies, r, i)
    ensures Deciding(tx, policies, r) == Some(policies[i])
  {
    hide Applies, Deciding;
    DecidingIsTop(tx, policies, r);
    if Deciding(tx, policies, r).Some? {
      var j: nat :| IsTop(tx, policies, r, j) && policies[j] == Deciding(tx, policies, r).value;
      TopIsUnique(tx, policies, r, i, j);
    }
  }

  // ---------- registration order ----------

  /** Nothing that applies outranks it. */
  ghost predicate Outranked(tx: Strings, policies: seq<Policy>, r: Request, p: Policy) {
    exists q :: q in policies && Applies(tx, q, r) && q.priority > p.priority
  }

  ghost predicate IsHighest(tx: Strings, policies: seq<Policy>, r: Request, p: Policy) {
    p in policies && Applies(tx, p, r) && !Outranked(tx, policies, r, p)
  }

  /** All applying policies of the highest applying priority have one effect. */
  ghost predicate TopsAgree(tx: Strings, policies: seq<Policy>, r: Request) {
    forall p, q :: IsHighest(tx, policies, r, p) && IsHighest(tx, policies, r, q) ==> p.effect == q.effect
  }

  ghost predicate OrderIrrelevant(tx: Strings, policies: seq<Policy>, r: Request) {
    forall others :: multiset(others) == multiset(policies) ==>
      (Allowed(tx, others, r) <==> Allowed(tx, policies, r))
  }

  lemma SameElements(a: seq<Policy>, b: seq<Policy>)
    requires multiset(a) == multiset(b)
    ensures forall p :: p in a <==> p in b
  {
    assert forall p :: p in a <==> p in multiset(a);
    assert forall p :: p in b <==> p in multiset(b);
  }

  lemma TopIsNotOutranked(tx: Strings, policies: seq<Policy>, r: Request, i: nat)
    requires IsTop(tx, policies, r, i)
    ensures !Outranked(tx, policies, r, policies[i])
  {
    hide Applies;
  }

  /** Put first, an applying policy that is not outranked decides. */
  lemma FirstDecides(tx: Strings, policies: seq<Policy>, r: Request, i: nat)
    requires i < |policies| && Applies(tx, policies[i], r) && !Outranked(tx, policies, r, policies[i])
    ensures var moved := [policies[i]] + (policies[..i] + policies[i + 1..]);
            multiset(moved) == multiset(policies) && Deciding(tx, moved, r) == Some(policies[i])
  {
    hide Applies, Deciding;
    var moved := [policies[i]] + (policies[..i] + policies[i + 1..]);
    assert policies == policies[..i] + [policies[i]] + policies[i + 1..];
    SameElements(moved, policies);
    assert IsTop(tx, moved, r, 0) by {
      forall j | 0 <= j < |moved| && Applies(tx, moved[j], r) ensures moved[j].priority <= moved[0].priority {
        assert moved[j] in moved;
      }
    }
    TopDecides(tx, moved, r, 0);
  }

  /**
   The order of registration does not matter to a request if and only if the policies that apply to it with
   the highest priority all have the same effect.
   */
  lemma OrderIrrelevantIff(tx: Strings, policies: seq<Policy>, r: Request)
    ensures OrderIrrelevant(tx, policies, r) <==> TopsAgree(tx, policies, r)
  {
    hide Applies, Deciding, Outranked, IsTop, IsHighest, Allowed;
    if TopsAgree(tx, policies, r) {
      forall others | multiset(others) == multiset(policies)
        ensures Allowed(tx, others, r) <==> Allowed(tx, policies, r)
      {
        AgreeingTopsDecideAlike(tx, policies, others, r);
      }
    } else {
      var p, q :| IsHighest(tx, policies, r, p) && IsHighest(tx, policies, r, q) && p.effect != q.effect;
      DisagreeingTopsDecideApart(tx, policies, r, p, q);
    }
  }

  lemma DisagreeingTopsDecideApart(tx: Strings, policies: seq<Policy>, r: Request, p: Policy, q: Policy)
    requires IsHighest(tx, policies, r, p) && IsHighest(tx, policies, r, q) && p.effect != q.effect
    ensures !OrderIrrelevant(tx, policies, r)
  {
    hide Applies, Deciding, Outranked;
    var pFirst, qFirst := MovedFirst(tx, policies, r, p), MovedFirst(tx, policies, r, q);
    assert Allowed(tx, pFirst, r) != Allowed(tx, qFirst, r);
  }

  /** An order of the same policies in which `p` decides. */
  ghost function MovedFirst(tx: Strings, policies: seq<Policy>, r: Request, p: Policy): (moved: seq<Policy>)
    requires IsHighest(tx, policies, r, p)
    ensures multiset(moved) == multiset(policies) && Deciding(tx, moved, r) == Some(p)
  {
    var i :| 0 <= i < |policies| && policies[i] == p;
    FirstDecides(tx, policies, r, i);
    [policies[i]] + (policies[..i] + policies[i + 1..])
  }

  lemma AgreeingTopsDecideAlike(tx: Strings, a: seq<Policy>, b: seq<Policy>, r: Request)
    requires TopsAgree(tx, a, r) && multiset(a) == multiset(b)
    ensures Allowed(tx, b, r) <==> Allowed(tx, a, r)
  {
    hide Applies, Deciding, IsTop, Outranked;
    SameElements(a, b);
    DecidedPolicy(tx, a, r);
    DecidedPolicy(tx, b, r);
    if Deciding(tx, a, r).Some? && Deciding(tx, b, r).Some? {
      OutrankedAlike(tx, a, b, r, Deciding(tx, b, r).value);
    }
  }

  lemma OutrankedAlike(tx: Strings, a: seq<Policy>, b: seq<Policy>, r: Request, p: Policy)
    requires forall q :: q in a <==> q in b
    ensures Outranked(tx, a, r, p) <==> Outranked(tx, b, r, p)
  {
    hide Applies;
  }

  /** The deciding policy applies and is not outranked; none decides only if none applies. */
  lemma DecidedPolicy(tx: Strings, policies: seq<Policy>, r: Request)
    ensures match Deciding(tx, policies, r)
            case None => forall p :: p in policies ==> !Applies(tx, p, r)
            case Some(p) => IsHighest(tx, policies, r, p)
  {
    hide Applies, Deciding;
    DecidingIsTop(tx, policies, r);
    if Deciding(tx, policies, r).Some? {
      var i: nat :| IsTop(tx, policies, r, i) && policies[i] == Deciding(tx, policies, r).value;
      TopIsNotOutranked(tx, policies, r, i);
    }
  }

  /** With distinct priorities every request gets the same decision from any order. */
  lemma DistinctPrioritiesIgnoreOrder(tx: Strings, policies: seq<Policy>, r: Request)
    requires forall p, q :: p in policies && q in policies && p.priority == q.priority ==> p == q
    ensures OrderIrrelevant(tx, policies, r)
  {
    hide Applies, OrderIrrelevant;
    OrderIrrelevantIff(tx, policies, r);
  }

  // ---------- adding policies ----------

  /** A policy of one effect added under a new id never takes a decision the other way. */
  lemma AddingKeepsDecision(tx: Strings, policies: seq<Policy>, added: Policy, r: Request)
    ensures added.effect == Allow && Allowed(tx, policies, r) ==> Allowed(tx, policies + [added], r)
    ensures added.effect == Deny && Allowed(tx, policies + [added], r) ==> Allowed(tx, policies, r)
    ensures !Applies(tx, added, r) ==> Deciding(tx, policies + [added], r) == Deciding(tx, policies, r)
  {
    hide Applies, Deciding;
    var all := policies + [added];
    DecidingIsTop(tx, all, r);
    DecidingIsTop(tx, policies, r);
    if Deciding(tx, all, r).Some? {
      var i: nat :| IsTop(tx, all, r, i) && all[i] == Deciding(tx, all, r).value;
      if i < |policies| {
        assert IsTop(tx, policies, r, i) by {
          assert forall j :: 0 <= j < |policies| ==> policies[j] == all[j];
        }
        TopDecides(tx, policies, r, i);
      }
    } else {
      assert forall j :: 0 <= j < |policies| ==> policies[j] == all[j];
    }
  }

  // ---------- the store ----------

  /** The registered policies in dictionary order: registering a known id keeps its place. */
  function Registered(policies: seq<Policy>, p: Policy): seq<Policy> {
    if policies == [] then [p]
    else if policies[0].id == p.id then [p] + policies[1..]
    else [policies[0]] + Registered(policies[1..], p)
  }

  lemma {:induction false} RegisteringNewAppends(policies: seq<Policy>, p: Policy)
    requires forall q :: q in policies ==> q.id != p.id
    ensures Registered(policies, p) == policies + [p]
  {
    if policies != [] {
      RegisteringNewAppends(policies[1..], p);
    }
  }

  class PolicyStore {
    var policies: seq<Policy>

    constructor ()
      ensures policies == []
    {
      policies := [];
    }

    method RegisterPolicy(p: Policy)
      modifies this
      ensures policies == Registered(old(policies), p)
    {
      policies := Registered(policies, p);
    }

    /** Whether the request is allowed, and by which policy it was decided. */
    method Evaluate(tx: Strings, action: string, resource: string, user: Option<User>, attributes: seq<Attribute>)
      returns (allowed: bool, decidedBy: Option<string>)
      ensures var r := Request(action, resource, ContextOf(attributes, user));
              && allowed == Allowed(tx, policies, r)
              && decidedBy == match Deciding(tx, policies, r) case None => None case Some(p) => Some(p.id)
    {
      hide Applies, Sort, Put;
      var context := attributes;
      if user.Some? {
        context := Put(context, "role", Text(user.value.role));
        context := Put(context, "tenant_id", Text(user.value.tenantId));
        context := Put(context, "user_id", Text(user.value.userId));
      }
      allowed, decidedBy := Scan(tx, Request(action, resource, context));
    }

    /** The loop over the sorted policies. */
    method Scan(tx: Strings, r: Request) returns (allowed: bool, decidedBy: Option<string>)
      ensures allowed == Allowed(tx, policies, r)
      ensures decidedBy == match Deciding(tx, policies, r) case None => None case Some(p) => Some(p.id)
    {
      hide Applies, Sort;
      var sorted := Sort(policies, ByPriority());
      var i := 0;
      assert sorted[0..] == sorted;
      while i < |sorted|
        invariant 0 <= i <= |sorted|
        invariant FirstWhere(sorted[i..], Selector(tx, r)) == Deciding(tx, policies, r)
      {
        var policy := sorted[i];
        assert sorted[i..][0] == policy && sorted[i..][1..] == sorted[i + 1..];
        if Applies(tx, policy, r) {
          return policy.effect == Allow, Some(policy.id);
        }
        i := i + 1;
      }
      return false, None;
    }
  }
}
