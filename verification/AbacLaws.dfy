/** Which policies may decide, and what their parts mean. */
module AbacLaws {
  import opened Wrappers
  import opened Sorting
  import opened Abac

  // ---------- policies that cannot decide ----------

  /** Leaving out policies that do not apply changes no decision. */
  lemma {:induction false} DroppingIsHarmless(tx: Strings, policies: seq<Policy>, r: Request, keep: Policy -> bool)
    requires forall p :: p in policies && Applies(tx, p, r) ==> keep(p)
    ensures Deciding(tx, Filter(policies, keep), r) == Deciding(tx, policies, r)
  {
    hide Applies;
    if policies != [] {
      var p, rest := policies[0], policies[1..];
      assert policies == [p] + rest;
      assert forall q :: q in rest ==> q in policies;
      DroppingIsHarmless(tx, rest, r, keep);
      DecidingCons(tx, p, rest, r);
      if keep(p) {
        DecidingCons(tx, p, Filter(rest, keep), r);
      }
    }
  }

  lemma DecidingCons(tx: Strings, p: Policy, rest: seq<Policy>, r: Request)
    ensures Deciding(tx, [p] + rest, r)
         == var f := Deciding(tx, rest, r);
            if Applies(tx, p, r) && (f.None? || f.value.priority <= p.priority) then Some(p) else f
  {
    hide Applies;
    SortSorts(rest, ByPriority());
    FirstWhereInsert(p, Sort(rest, ByPriority()), ByPriority(), Selector(tx, r));
    assert ([p] + rest)[1..] == rest;
  }

  /** A disabled policy never decides, and might as well not be registered. */
  lemma DisabledNeverDecide(tx: Strings, policies: seq<Policy>, r: Request)
    ensures Deciding(tx, policies, r).Some? ==> Deciding(tx, policies, r).value.enabled
    ensures Deciding(tx, Filter(policies, (p: Policy) => p.enabled), r) == Deciding(tx, policies, r)
  {
    DroppingIsHarmless(tx, policies, r, (p: Policy) => p.enabled);
  }

  /** Access is denied by default, and where a policy decides its effect is the answer. */
  lemma DeniedByDefault(tx: Strings, policies: seq<Policy>, r: Request)
    ensures (forall p :: p in policies ==> !Applies(tx, p, r)) ==> !Allowed(tx, policies, r)
    ensures forall i: nat :: i < |policies| && IsTop(tx, policies, r, i) ==>
              (Allowed(tx, policies, r) <==> policies[i].effect == Allow)
    ensures !Allowed(tx, [], r)
  {
    hide Applies, Deciding, IsTop;
    DecidedPolicy(tx, policies, r);
    DecidedPolicy(tx, [], r);
    forall i: nat | i < |policies| && IsTop(tx, policies, r, i)
      ensures Allowed(tx, policies, r) <==> policies[i].effect == Allow
    {
      TopDecides(tx, policies, r, i);
    }
  }

  // ---------- what makes a policy apply ----------

  /** A policy that lists resource patterns applies where one of them does, so another pattern only widens it. */
  lemma ResourcesWiden(tx: Strings, p: Policy, r: Request, more: seq<string>)
    ensures p.resources != [] ==>
              (Applies(tx, p, r)
               <==> exists i :: 0 <= i < |p.resources| && Applies(tx, p.(resources := [p.resources[i]]), r))
    ensures p.resources != [] && Applies(tx, p, r) ==> Applies(tx, p.(resources := p.resources + more), r)
    ensures Applies(tx, p, r) ==> Applies(tx, p.(resources := []), r)
    ensures forall pattern :: Applies(tx, p.(resources := [pattern]), r) <==>
              Applies(tx, p.(resources := []), r) && tx.glob(r.resource, pattern)
  {
    hide ConditionsHold, KnownAction;
    forall pattern: string ensures Applies(tx, p.(resources := [pattern]), r) <==>
      Applies(tx, p.(resources := []), r) && tx.glob(r.resource, pattern)
    {
      assert [pattern][0] == pattern;
    }
    if p.resources != [] && Applies(tx, p, r) {
      var i :| 0 <= i < |p.resources| && tx.glob(r.resource, p.resources[i]);
      assert (p.resources + more)[i] == p.resources[i];
    }
  }

  /** The same holds for the actions it lists; none listed means any. */
  lemma ActionsWiden(tx: Strings, p: Policy, r: Request)
    ensures p.actions != [] ==>
              (Applies(tx, p, r)
               <==> exists i :: 0 <= i < |p.actions| && Applies(tx, p.(actions := [p.actions[i]]), r))
    ensures forall action :: Applies(tx, p.(actions := [action]), r) <==>
              Applies(tx, p.(actions := []), r) && KnownAction(r.action) == action
  {
    hide ConditionsHold, KnownAction;
    forall action: string ensures Applies(tx, p.(actions := [action]), r) <==>
      Applies(tx, p.(actions := []), r) && KnownAction(r.action) == action
    {
      assert [action][0] == action;
    }
  }

  /** Each further condition narrows a policy: it applies where each part of its conditions would let it. */
  lemma ConditionsNarrow(tx: Strings, p: Policy, r: Request, a: seq<Condition>, b: seq<Condition>)
    ensures Applies(tx, p.(conditions := a + b), r)
       <==> Applies(tx, p.(conditions := a), r) && Applies(tx, p.(conditions := b), r)
    ensures Applies(tx, p, r) ==> Applies(tx, p.(conditions := []), r)
  {
    hide Matches, Lookup, KnownAction;
    assert forall i :: 0 <= i < |a| ==> (a + b)[i] == a[i];
    assert forall i :: 0 <= i < |b| ==> (a + b)[|a| + i] == b[i];
  }

  /** The five actions are known; any other is decided as a read. */
  lemma UnknownActionIsRead(tx: Strings, policies: seq<Policy>, r: Request)
    ensures forall a :: a in {"create", "read", "update", "delete", "execute"} ==> KnownAction(a) == a
    ensures r.action !in {"create", "read", "update", "delete", "execute"} ==>
              Deciding(tx, policies, r) == Deciding(tx, policies, r.(action := "read"))
  {
    if r.action !in {"create", "read", "update", "delete", "execute"} {
      DecidedAlike(tx, policies, r, r.(action := "read"));
    }
  }

  lemma {:induction false} DecidedAlike(tx: Strings, policies: seq<Policy>, r: Request, r': Request)
    requires forall p :: Applies(tx, p, r) == Applies(tx, p, r')
    ensures Deciding(tx, policies, r) == Deciding(tx, policies, r')
  {
    hide Applies;
    if policies != [] {
      assert policies == [policies[0]] + policies[1..];
      DecidedAlike(tx, policies[1..], r, r');
      DecidingCons(tx, policies[0], policies[1..], r);
      DecidingCons(tx, policies[0], policies[1..], r');
    }
  }

  // ---------- conditions ----------

  /** A list is matched by its elements one by one; a text with a star is a pattern; anything else is equality. */
  lemma MatchesByCase(tx: Strings, value: Value, a: seq<Value>, b: seq<Value>, v: Value)
    ensures !Matches(tx, value, OneOf([]))
    ensures Matches(tx, value, OneOf(a + b)) <==> Matches(tx, value, OneOf(a)) || Matches(tx, value, OneOf(b))
    ensures Matches(tx, value, OneOf([v])) <==> value == v
    ensures (v.Text? ==> '*' !in v.text) ==> (Matches(tx, value, Exactly(v)) <==> Matches(tx, value, OneOf([v])))
    ensures v.Text? && '*' in v.text ==> (Matches(tx, value, Exactly(v)) <==> tx.glob(tx.show(value), v.text))
  {
    assert [v][0] == v;
  }

  ghost predicate DistinctKeys(context: seq<Attribute>) {
    forall i, j :: 0 <= i < j < |context| ==> context[i].key != context[j].key
  }

  lemma EndsWithIsSuffix(s: string, suffix: string)
    ensures EndsWith(s, suffix) <==> exists front: string :: s == front + suffix
  {
    if EndsWith(s, suffix) {
      assert s == s[..|s| - |suffix|] + suffix;
    }
    if front: string :| s == front + suffix {
      assert s[|s| - |suffix|..] == suffix;
    }
  }

  /**
   A condition reads the attribute of its own name; where that is missing or null, the first attribute of the
   context whose name ends with it; and null where there is none.
   */
  lemma LookupFinds(context: seq<Attribute>, key: string)
    requires DistinctKeys(context)
    ensures forall a :: a in context && a.key == key && a.value != Null ==> Lookup(context, key) == a.value
    ensures (forall a :: a in context && a.key == key ==> a.value == Null) ==>
              || (Lookup(context, key) == Null && forall a :: a in context ==> !EndsWith(a.key, key))
              || exists i :: FirstSuffix(context, key, i) && Lookup(context, key) == context[i].value
  {
    hide EndsWith;
    FirstIndex(context, key);
    forall a | a in context && a.key == key && a.value != Null ensures Lookup(context, key) == a.value {
      var found := FirstWhere(context, (b: Attribute) => b.key == key && b.value != Null);
      assert ((b: Attribute) => b.key == key && b.value != Null)(a);
      assert found.Some?;
      var i :| 0 <= i < |context| && context[i] == a;
      var j :| 0 <= j < |context| && context[j] == found.value;
      assert i == j;
    }
  }

  ghost predicate FirstSuffix(context: seq<Attribute>, key: string, i: int) {
    && 0 <= i < |context| && EndsWith(context[i].key, key)
    && forall j :: 0 <= j < i ==> !EndsWith(context[j].key, key)
  }

  lemma {:induction false} FirstIndex(context: seq<Attribute>, key: string)
    ensures match FirstWhere(context, (a: Attribute) => EndsWith(a.key, key))
            case None => forall a :: a in context ==> !EndsWith(a.key, key)
            case Some(a) => exists i :: FirstSuffix(context, key, i) && context[i] == a
  {
    hide EndsWith;
    if context != [] {
      var p := (a: Attribute) => EndsWith(a.key, key);
      if p(context[0]) {
        assert FirstSuffix(context, key, 0);
      } else {
        FirstIndex(context[1..], key);
        assert forall j :: 0 < j < |context| ==> context[j] == context[1..][j - 1];
        var f := FirstWhere(context[1..], p);
        if f.Some? {
          var i :| FirstSuffix(context[1..], key, i) && context[1..][i] == f.value;
          assert FirstSuffix(context, key, i + 1) && context[i + 1] == f.value;
        }
      }
    }
  }

  // ---------- the context of a request ----------

  /** Setting an attribute replaces the one of that name and leaves the others. */
  lemma {:induction false} PutSets(context: seq<Attribute>, key: string, value: Value)
    requires DistinctKeys(context)
    ensures DistinctKeys(Put(context, key, value))
    ensures forall a :: a in Put(context, key, value) <==>
              a == Attribute(key, value) || (a in context && a.key != key)
  {
    if context != [] && context[0].key != key {
      PutSets(context[1..], key, value);
      assert context == [context[0]] + context[1..];
      var rest := Put(context[1..], key, value);
      forall j | 0 <= j < |rest| ensures rest[j].key != context[0].key {
        assert rest[j] in rest;
        if rest[j] != Attribute(key, value) {
          var i :| 0 <= i < |context[1..]| && context[1..][i] == rest[j];
          assert context[i + 1] == rest[j];
        }
      }
    } else if context != [] {
      assert forall j :: 0 < j < |context| ==> context[j].key != context[0].key;
      assert forall a :: a in context <==> a == context[0] || a in context[1..];
    }
  }

  /** A new name goes last. */
  lemma {:induction false} NewNameIsLast(context: seq<Attribute>, key: string, value: Value)
    requires forall a :: a in context ==> a.key != key
    ensures Put(context, key, value) == context + [Attribute(key, value)]
  {
    if context != [] {
      NewNameIsLast(context[1..], key, value);
    }
  }

  /** A known name keeps its place. */
  lemma {:induction false} KnownNameStays(context: seq<Attribute>, key: string, value: Value, i: nat)
    requires i < |context| && context[i].key == key && forall j :: 0 <= j < i ==> context[j].key != key
    ensures Put(context, key, value) == context[i := Attribute(key, value)]
  {
    if i > 0 {
      assert context[1..][i - 1] == context[i];
      KnownNameStays(context[1..], key, value, i - 1);
      assert context[i := Attribute(key, value)] == [context[0]] + context[1..][i - 1 := Attribute(key, value)];
    }
  }

  /** What the user's role assignment says about the user stands, whatever the attributes claim. */
  lemma AssignmentOverridesAttributes(attributes: seq<Attribute>, user: User)
    requires DistinctKeys(attributes)
    ensures var context := ContextOf(attributes, Some(user));
            && Lookup(context, "role") == Text(user.role)
            && Lookup(context, "tenant_id") == Text(user.tenantId)
            && Lookup(context, "user_id") == Text(user.userId)
            && forall a :: a in attributes && a.key !in {"role", "tenant_id", "user_id"} ==> a in context
    ensures ContextOf(attributes, None) == attributes
  {
    hide Lookup, Put;
    var one := Put(attributes, "role", Text(user.role));
    var two := Put(one, "tenant_id", Text(user.tenantId));
    PutSets(attributes, "role", Text(user.role));
    PutSets(one, "tenant_id", Text(user.tenantId));
    PutSets(two, "user_id", Text(user.userId));
    var context := ContextOf(attributes, Some(user));
    assert Attribute("role", Text(user.role)) in context && Attribute("tenant_id", Text(user.tenantId)) in context;
    assert Attribute("user_id", Text(user.userId)) in context;
    LookupFinds(context, "role");
    LookupFinds(context, "tenant_id");
    LookupFinds(context, "user_id");
  }

  // ---------- registration ----------

  /** Registering a known id puts the new policy in the place of the old one. */
  lemma {:induction false} RegisteringKnownReplaces(policies: seq<Policy>, p: Policy, i: nat)
    requires i < |policies| && policies[i].id == p.id && forall j :: 0 <= j < i ==> policies[j].id != p.id
    ensures Registered(policies, p) == policies[i := p]
  {
    if i > 0 {
      assert policies[1..][i - 1] == policies[i];
      RegisteringKnownReplaces(policies[1..], p, i - 1);
      assert policies[i := p] == [policies[0]] + policies[1..][i - 1 := p];
    }
  }
}
