/** What the parts of an alert rule mean, and what a raised alert says. */
module AlertLaws {
  import opened Alerts

  /** The six operators: three pairs of opposites, strict and not at the threshold, and ordered by the value. */
  lemma ComparisonsMean(value: real, higher: real, threshold: real)
    ensures Compare(value, Gt, threshold) <==> !Compare(value, Le, threshold)
    ensures Compare(value, Ge, threshold) <==> !Compare(value, Lt, threshold)
    ensures Compare(value, Eq, threshold) <==> !Compare(value, Ne, threshold)
    ensures Compare(threshold, Ge, threshold) && !Compare(threshold, Gt, threshold)
    ensures Compare(value, Ge, threshold) <==> Compare(value, Gt, threshold) || Compare(value, Eq, threshold)
    ensures Compare(value, Eq, threshold) <==> Compare(value, Ge, threshold) && Compare(value, Le, threshold)
    ensures value < higher && Compare(value, Ge, threshold) ==> Compare(higher, Gt, threshold)
    ensures value < higher ==> exists between :: Compare(between, Gt, value) && Compare(between, Lt, higher)
    ensures Compare(value, Gt, threshold) <==> Compare(threshold, Lt, value)
    ensures !Compare(value, Unknown, threshold)
  {
    if value < higher {
      var between := (value + higher) / 2.0;
      assert Compare(between, Gt, value) && Compare(between, Lt, higher);
    }
  }

  /** The comparisons are about the size of the number. */
  lemma AboveZero(value: real)
    requires value > 0.0
    ensures Compare(value, Gt, 0.0) && Compare(-value, Lt, 0.0)
  {
  }

  /** A metric that was not measured counts as 0, and other metrics do not matter to a rule. */
  lemma OnlyItsMetricMatters(metrics: Metrics, rule: Rule, name: string, value: real)
    ensures rule.metric !in metrics ==> (Holds(metrics, rule) <==> Holds(metrics[rule.metric := 0.0], rule))
    ensures name != rule.metric ==> (Holds(metrics[name := value], rule) <==> Holds(metrics, rule))
    ensures Holds(metrics[rule.metric := value], rule) <==> Compare(value, rule.comparison, rule.threshold)
  {
  }

  /** Every alert an evaluation raises is of an active rule that did not fire, and tells the value that made it fire. */
  lemma {:induction false} RaisedAlertsAreTrue(firing: map<string, Alert>, rules: seq<Rule>, metrics: Metrics, a: Alert)
    requires DistinctIds(rules) && a in Evaluate(firing, rules, metrics).raised
    ensures exists k :: 0 <= k < |rules| && rules[k].state == Active && rules[k].id == a.ruleId
                        && Holds(metrics, rules[k]) && a.value == ValueOf(metrics, rules[k]) && a.ruleId !in firing
    ensures a.ruleId in Evaluate(firing, rules, metrics).firing
    ensures Evaluate(firing, rules, metrics).firing[a.ruleId] == a
    decreases |rules|
  {
    hide Holds, ValueOf;
    var first := EvaluateOne(firing, rules[0], metrics);
    var rest := Evaluate(first.firing, rules[1..], metrics);
    assert forall i :: 0 < i < |rules| ==> rules[i] == rules[1..][i - 1];
    if a in first.raised {
      OtherRulesDoNotMatter(first.firing, rules[1..], metrics, a.ruleId);
      assert rules[0].id == a.ruleId;
    } else {
      RaisedAlertsAreTrue(first.firing, rules[1..], metrics, a);
      var k :| 0 <= k < |rules[1..]| && rules[1..][k].state == Active && rules[1..][k].id == a.ruleId
               && Holds(metrics, rules[1..][k]) && a.value == ValueOf(metrics, rules[1..][k])
               && a.ruleId !in first.firing;
      assert rules[k + 1] == rules[1..][k] && rules[k + 1].id != rules[0].id;
    }
  }

  lemma RuleOfAlert(firing: map<string, Alert>, rules: seq<Rule>, metrics: Metrics, j: nat) returns (l: nat)
    requires DistinctIds(rules) && j < |Evaluate(firing, rules, metrics).raised|
    ensures l < |rules| && rules[l].id == Evaluate(firing, rules, metrics).raised[j].ruleId
  {
    hide Evaluate;
    var a := Evaluate(firing, rules, metrics).raised[j];
    RaisedAlertsAreTrue(firing, rules, metrics, a);
    l :| 0 <= l < |rules| && rules[l].id == a.ruleId;
  }

  /** Alerts are raised in the order in which their rules are registered. */
  lemma {:induction false} RaisedInOrder(firing: map<string, Alert>, rules: seq<Rule>, metrics: Metrics,
                                         i: nat, j: nat) returns (k: nat, l: nat)
    requires DistinctIds(rules) && i < j < |Evaluate(firing, rules, metrics).raised|
    ensures k < l < |rules|
    ensures Evaluate(firing, rules, metrics).raised[i].ruleId == rules[k].id
    ensures Evaluate(firing, rules, metrics).raised[j].ruleId == rules[l].id
    decreases |rules|
  {
    hide Holds, ValueOf;
    var first := EvaluateOne(firing, rules[0], metrics);
    var rest := Evaluate(first.firing, rules[1..], metrics);
    assert forall n :: 0 < n < |rules| ==> rules[n] == rules[1..][n - 1];
    assert |first.raised| <= 1;
    if i < |first.raised| {
      hide Evaluate;
      k := 0;
      l := RuleOfAlert(first.firing, rules[1..], metrics, j - 1);
      l := l + 1;
    } else {
      k, l := RaisedInOrder(first.firing, rules[1..], metrics, i - |first.raised|, j - |first.raised|);
      k, l := k + 1, l + 1;
    }
  }

  /** An alert that keeps firing stays the one it was. */
  lemma {:induction false} FiringAlertsStay(firing: map<string, Alert>, rules: seq<Rule>, metrics: Metrics, id: string)
    requires id in firing && id in Evaluate(firing, rules, metrics).firing && DistinctIds(rules)
    ensures Evaluate(firing, rules, metrics).firing[id] == firing[id]
    decreases |rules|
  {
    hide Holds, ValueOf;
    if rules != [] {
      var first := EvaluateOne(firing, rules[0], metrics);
      assert forall i :: 0 < i < |rules| ==> rules[i] == rules[1..][i - 1];
      if id !in first.firing {
        OtherRulesDoNotMatter(first.firing, rules[1..], metrics, id);
      } else {
        FiringAlertsStay(first.firing, rules[1..], metrics, id);
      }
    }
  }

  /** A new rule is added last. */
  lemma {:induction false} NewRuleIsLast(rules: seq<Rule>, rule: Rule)
    requires forall r :: r in rules ==> r.id != rule.id
    ensures Registered(rules, rule) == rules + [rule]
  {
    if rules != [] {
      NewRuleIsLast(rules[1..], rule);
    }
  }

  /** A rule with a known id takes the place of the old one. */
  lemma {:induction false} KnownRuleIsReplaced(rules: seq<Rule>, rule: Rule, i: nat)
    requires i < |rules| && rules[i].id == rule.id && forall j :: 0 <= j < i ==> rules[j].id != rule.id
    ensures Registered(rules, rule) == rules[i := rule]
  {
    if i > 0 {
      assert rules[1..][i - 1] == rules[i];
      KnownRuleIsReplaced(rules[1..], rule, i - 1);
      assert rules[i := rule] == [rules[0]] + rules[1..][i - 1 := rule];
    }
  }
}
