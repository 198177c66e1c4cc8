/**
 The alert engine (apps/ops_center/engine.py): rules evaluated against metric samples, alerts that fire
 once when a rule's condition becomes true and are resolved when it becomes false.
 */
module Alerts {
  datatype Comparison = Gt | Ge | Lt | Le | Eq | Ne | Unknown

  datatype RuleState = Active | Firing | Resolved | Muted

  datatype Rule = Rule(id: string, metric: string, comparison: Comparison, threshold: real, state: RuleState)

  datatype Alert = Alert(ruleId: string, value: real)

  type Metrics = map<string, real>

  predicate Compare(value: real, comparison: Comparison, threshold: real) {
    match comparison
    case Gt => value > threshold
    case Ge => value >= threshold
    case Lt => value < threshold
    case Le => value <= threshold
    case Eq => value == threshold
    case Ne => value != threshold
    case Unknown => false
  }

  function ValueOf(metrics: Metrics, rule: Rule): real {
    if rule.metric in metrics then metrics[rule.metric] else 0.0
  }

  predicate Holds(metrics: Metrics, rule: Rule) {
    Compare(ValueOf(metrics, rule), rule.comparison, rule.threshold)
  }

  // ---------- one evaluation ----------

  // What is firing, by rule id, and the alerts raised.
  datatype Round = Round(firing: map<string, Alert>, raised: seq<Alert>)

  function EvaluateOne(firing: map<string, Alert>, rule: Rule, metrics: Metrics): Round {
    if rule.state != Active then Round(firing, [])
    else if Holds(metrics, rule) then
      if rule.id in firing then Round(firing, [])
      else
        var alert := Alert(rule.id, ValueOf(metrics, rule));
        Round(firing[rule.id := alert], [alert])
    else Round(firing - {rule.id}, [])
  }

  /** `evaluate_rules` over the rules in registration order. */
  function Evaluate(firing: map<string, Alert>, rules: seq<Rule>, metrics: Metrics): Round
    decreases |rules|
  {
    if rules == [] then Round(firing, [])
    else
      var first := EvaluateOne(firing, rules[0], metrics);
      var rest := Evaluate(first.firing, rules[1..], metrics);
      Round(rest.firing, first.raised + rest.raised)
  }

  /** Rule ids are the keys of a dictionary. */
  ghost predicate DistinctIds(rules: seq<Rule>) {
    forall i, j :: 0 <= i < j < |rules| ==> rules[i].id != rules[j].id
  }

  /** How many alerts of a rule a list holds. */
  function RaisedFor(alerts: seq<Alert>, id: string): nat {
    if alerts == [] then 0 else (if alerts[0].ruleId == id then 1 else 0) + RaisedFor(alerts[1..], id)
  }

  lemma {:induction false} RaisedAppend(a: seq<Alert>, b: seq<Alert>, id: string)
    ensures RaisedFor(a + b, id) == RaisedFor(a, id) + RaisedFor(b, id)
  {
    if a == [] {
      assert a + b == b;
    } else {
      RaisedAppend(a[1..], b, id);
      assert (a + b)[0] == a[0] && (a + b)[1..] == a[1..] + b;
    }
  }

  /** Rules with other ids leave an id alone. */
  lemma {:induction false} OtherRulesDoNotMatter(firing: map<string, Alert>, rules: seq<Rule>, metrics: Metrics,
                                                 id: string)
    requires forall i :: 0 <= i < |rules| ==> rules[i].id != id
    ensures var round := Evaluate(firing, rules, metrics);
            && (id in round.firing <==> id in firing)
            && (id in firing ==> round.firing[id] == firing[id])
            && RaisedFor(round.raised, id) == 0
    decreases |rules|
  {
    if rules != [] {
      var first := EvaluateOne(firing, rules[0], metrics);
      OtherRulesDoNotMatter(first.firing, rules[1..], metrics, id);
      RaisedAppend(first.raised, Evaluate(first.firing, rules[1..], metrics).raised, id);
    }
  }

  /**
   An active rule fires after an evaluation exactly if its condition holds, an alert is raised for it exactly
   if it did not fire before, and a rule in any other state is left as it was.
   */
  lemma {:induction false} EvaluationOfARule(firing: map<string, Alert>, rules: seq<Rule>, metrics: Metrics, k: nat)
    requires DistinctIds(rules) && k < |rules|
    ensures var round := Evaluate(firing, rules, metrics);
            var rule := rules[k];
            if rule.state == Active
            then (rule.id in round.firing <==> Holds(metrics, rule))
                 && RaisedFor(round.raised, rule.id) == (if Holds(metrics, rule) && rule.id !in firing then 1 else 0)
            else (rule.id in round.firing <==> rule.id in firing) && RaisedFor(round.raised, rule.id) == 0
    decreases k
  {
    hide Holds;
    var rule := rules[k];
    var first := EvaluateOne(firing, rules[0], metrics);
    var rest := Evaluate(first.firing, rules[1..], metrics);
    RaisedAppend(first.raised, rest.raised, rule.id);
    assert forall i :: 0 < i < |rules| ==> rules[i] == rules[1..][i - 1];
    if k == 0 {
      OtherRulesDoNotMatter(first.firing, rules[1..], metrics, rule.id);
    } else {
      EvaluationOfARule(first.firing, rules[1..], metrics, k - 1);
    }
  }

  /** Where everything active agrees with its condition, an evaluation changes nothing and raises nothing. */
  lemma {:induction false} SettledStaysSettled(firing: map<string, Alert>, rules: seq<Rule>, metrics: Metrics)
    requires forall i :: 0 <= i < |rules| && rules[i].state == Active ==>
               (rules[i].id in firing <==> Holds(metrics, rules[i]))
    ensures Evaluate(firing, rules, metrics) == Round(firing, [])
    decreases |rules|
  {
    if rules != [] {
      assert rules[0].state == Active && !Holds(metrics, rules[0]) ==> firing - {rules[0].id} == firing;
      assert EvaluateOne(firing, rules[0], metrics) == Round(firing, []);
      SettledStaysSettled(firing, rules[1..], metrics);
    }
  }

  /** Evaluating the same metrics again raises nothing new. */
  lemma EvaluationIsIdempotent(firing: map<string, Alert>, rules: seq<Rule>, metrics: Metrics)
    requires DistinctIds(rules)
    ensures var once := Evaluate(firing, rules, metrics);
            Evaluate(once.firing, rules, metrics) == Round(once.firing, [])
  {
    hide Holds, Evaluate;
    var once := Evaluate(firing, rules, metrics);
    forall i | 0 <= i < |rules| && rules[i].state == Active
      ensures rules[i].id in once.firing <==> Holds(metrics, rules[i])
    {
      EvaluationOfARule(firing, rules, metrics, i);
    }
    SettledStaysSettled(once.firing, rules, metrics);
  }

  // ---------- a stream of samples ----------

  /** All alerts raised over a sequence of samples. */
  function AlertsOver(firing: map<string, Alert>, rules: seq<Rule>, samples: seq<Metrics>): seq<Alert>
    decreases |samples|
  {
    if samples == [] then [] else
      var round := Evaluate(firing, rules, samples[0]);
      round.raised + AlertsOver(round.firing, rules, samples[1..])
  }

  /** How often the rule's condition goes from false to true, starting from `before`. */
  function RisingEdges(before: bool, rule: Rule, samples: seq<Metrics>): nat
    decreases |samples|
  {
    if samples == [] then 0 else
      (if Holds(samples[0], rule) && !before then 1 else 0) + RisingEdges(Holds(samples[0], rule), rule, samples[1..])
  }

  /** A rule kept active raises one alert for every rising edge of its condition. */
  lemma {:induction false} AlertsAreRisingEdges(firing: map<string, Alert>, rules: seq<Rule>, samples: seq<Metrics>,
                                                k: nat)
    requires DistinctIds(rules) && k < |rules| && rules[k].state == Active
    ensures RaisedFor(AlertsOver(firing, rules, samples), rules[k].id)
         == RisingEdges(rules[k].id in firing, rules[k], samples)
    decreases |samples|
  {
    hide Holds, Evaluate;
    if samples != [] {
      var round := Evaluate(firing, rules, samples[0]);
      EvaluationOfARule(firing, rules, samples[0], k);
      AlertsAreRisingEdges(round.firing, rules, samples[1..], k);
      RaisedAppend(round.raised, AlertsOver(round.firing, rules, samples[1..]), rules[k].id);
    }
  }

  // ---------- the engine ----------

  function Registered(rules: seq<Rule>, rule: Rule): seq<Rule> {
    if rules == [] then [rule]
    else if rules[0].id == rule.id then [rule] + rules[1..]
    else [rules[0]] + Registered(rules[1..], rule)
  }

  lemma {:induction false} RegisteringKeepsDistinct(rules: seq<Rule>, rule: Rule)
    requires DistinctIds(rules)
    ensures DistinctIds(Registered(rules, rule))
    ensures forall i :: 0 <= i < |Registered(rules, rule)| ==>
              Registered(rules, rule)[i] == rule || Registered(rules, rule)[i] in rules
  {
    if rules != [] {
      RegisteringKeepsDistinct(rules[1..], rule);
      assert forall i :: 0 < i < |rules| ==> rules[i] == rules[1..][i - 1];
    }
  }

  class AlertEngine {
    var rules: seq<Rule>   // in registration order
    var firing: map<string, Alert>

    constructor ()
      ensures Valid() && rules == [] && firing == map[]
    {
      rules, firing := [], map[];
    }

    ghost predicate Valid()
      reads this
    {
      DistinctIds(rules)
    }

    method RegisterRule(rule: Rule)
      requires Valid()
      modifies this`rules
      ensures Valid() && rules == Registered(old(rules), rule)
    {
      RegisteringKeepsDistinct(rules, rule);
      rules := Registered(rules, rule);
    }

    method EvaluateRules(metrics: Metrics) returns (raised: seq<Alert>)
      requires Valid()
      modifies this`firing
      ensures Round(firing, raised) == Evaluate(old(firing), rules, metrics)
    {
      raised := [];
      var i := 0;
      assert rules[0..] == rules;
      while i < |rules|
        invariant 0 <= i <= |rules|
        invariant var rest := Evaluate(firing, rules[i..], metrics);
                  Round(rest.firing, raised + rest.raised) == Evaluate(old(firing), rules, metrics)
      {
        var rule := rules[i];
        Unfolds(firing, rules, metrics, i, raised);
        if rule.state == Active {
          if Holds(metrics, rule) {
            if rule.id !in firing {
              var alert := Alert(rule.id, ValueOf(metrics, rule));
              firing := firing[rule.id := alert];
              raised := raised + [alert];
            }
          } else if rule.id in firing {
            firing := firing - {rule.id};
          }
        }
        i := i + 1;
      }
    }

    /** Sets the state of a registered rule; muting also silences an alert that is firing. */
    method UpdateRuleState(ruleId: string, state: RuleState) returns (found: bool)
      requires Valid()
      modifies this
      ensures Valid() && found == Knows(old(rules), ruleId)
      ensures rules == WithState(old(rules), ruleId, state)
      ensures firing == if found && state == Muted then old(firing) - {ruleId} else old(firing)
    {
      StatesKeepIds(rules, ruleId, state);
      found := Knows(rules, ruleId);
      if !found {
        return;
      }
      rules := WithState(rules, ruleId, state);
      if state == Muted && ruleId in firing {
        firing := firing - {ruleId};
      }
    }
  }

  predicate Knows(rules: seq<Rule>, id: string) {
    exists i :: 0 <= i < |rules| && rules[i].id == id
  }

  function WithState(rules: seq<Rule>, id: string, state: RuleState): seq<Rule> {
    if rules == [] then []
    else (if rules[0].id == id then [rules[0].(state := state)] else [rules[0]]) + WithState(rules[1..], id, state)
  }

  lemma {:induction false} StatesKeepIds(rules: seq<Rule>, id: string, state: RuleState)
    ensures |WithState(rules, id, state)| == |rules|
    ensures forall i :: 0 <= i < |rules| ==>
              WithState(rules, id, state)[i] == if rules[i].id == id then rules[i].(state := state) else rules[i]
    ensures !Knows(rules, id) ==> WithState(rules, id, state) == rules
  {
    if rules != [] {
      StatesKeepIds(rules[1..], id, state);
      assert forall i :: 0 < i < |rules| ==> rules[i] == rules[1..][i - 1];
    }
  }

  lemma Unfolds(firing: map<string, Alert>, rules: seq<Rule>, metrics: Metrics, i: nat, raised: seq<Alert>)
    requires i < |rules|
    ensures var rest := Evaluate(firing, rules[i..], metrics);
            var first := EvaluateOne(firing, rules[i], metrics);
            var after := Evaluate(first.firing, rules[i + 1..], metrics);
            rest.firing == after.firing && raised + rest.raised == raised + first.raised + after.raised
    ensures rules[i].id !in firing ==> firing - {rules[i].id} == firing
  {
    assert rules[i..][0] == rules[i] && rules[i..][1..] == rules[i + 1..];
    var first := EvaluateOne(firing, rules[i], metrics);
    var after := Evaluate(first.firing, rules[i + 1..], metrics);
    assert raised + (first.raised + after.raised) == raised + first.raised + after.raised;
  }
}
