/**
 What a session keeps of a conversation (apps/runtime/memory.py, `compress`): system messages, a summary
 of the older ones, and the most recent ones.

 The summary's text is modelled by the two counts it renders.
 */
module Conversation {
  datatype Message =
    | Said(role: string, content: string)
    | Summary(users: nat, assistants: nat)

  predicate IsSystem(m: Message) {
    m.Summary? || m.role == "system"
  }

  function Systems(ms: seq<Message>): seq<Message> {
    if ms == [] then [] else if IsSystem(ms[0]) then [ms[0]] + Systems(ms[1..]) else Systems(ms[1..])
  }

  function Others(ms: seq<Message>): seq<Message> {
    if ms == [] then [] else if IsSystem(ms[0]) then Others(ms[1..]) else [ms[0]] + Others(ms[1..])
  }

  function Saying(ms: seq<Message>, role: string): nat {
    if ms == [] then 0 else (if ms[0].Said? && ms[0].role == role then 1 else 0) + Saying(ms[1..], role)
  }

  /** `xs[-n:]` and `xs[:-n]`; for n = 0 Python keeps everything on the first side. */
  function Recent(xs: seq<Message>, n: nat): seq<Message> {
    if n == 0 || |xs| <= n then xs else xs[|xs| - n..]
  }

  function Older(xs: seq<Message>, n: nat): seq<Message> {
    if n == 0 || |xs| <= n then [] else xs[..|xs| - n]
  }

  /** `_summarize_messages` with the message built from it; nothing to count means no message. */
  function Summarize(ms: seq<Message>): seq<Message> {
    var users, assistants := Saying(ms, "user"), Saying(ms, "assistant");
    if users == 0 && assistants == 0 then [] else [Summary(users, assistants)]
  }

  function Compress(ms: seq<Message>, maxRecent: nat): seq<Message> {
    if |ms| <= maxRecent then ms
    else Systems(ms) + Summarize(Older(Others(ms), maxRecent)) + Recent(Others(ms), maxRecent)
  }

  /** What a visit leaves of a conversation: it is compressed if it got too long. */
  function Kept(ms: seq<Message>, threshold: nat, maxRecent: nat): seq<Message> {
    if |ms| > threshold then Compress(ms, maxRecent) else ms
  }

  // ---------- splitting and joining ----------

  lemma {:induction false} JustSystemsAppend(a: seq<Message>, b: seq<Message>)
    ensures Systems(a + b) == Systems(a) + Systems(b)
  {
    var ab := a + b;
    if a == [] {
      assert ab == b;
    } else {
      JustSystemsAppend(a[1..], b);
      assert ab[0] == a[0] && ab[1..] == a[1..] + b;
      var rest := Systems(a[1..]);
      assert [a[0]] + (rest + Systems(b)) == [a[0]] + rest + Systems(b);
    }
  }

  lemma {:induction false} OthersAppend(a: seq<Message>, b: seq<Message>)
    ensures Others(a + b) == Others(a) + Others(b)
  {
    var ab := a + b;
    if a == [] {
      assert ab == b;
    } else {
      OthersAppend(a[1..], b);
      assert ab[0] == a[0] && ab[1..] == a[1..] + b;
      var rest := Others(a[1..]);
      assert [a[0]] + (rest + Others(b)) == [a[0]] + rest + Others(b);
    }
  }

  lemma SystemsAppend(a: seq<Message>, b: seq<Message>)
    ensures Systems(a + b) == Systems(a) + Systems(b)
    ensures Others(a + b) == Others(a) + Others(b)
  {
    JustSystemsAppend(a, b);
    OthersAppend(a, b);
  }

  lemma {:induction false} SayingAppend(a: seq<Message>, b: seq<Message>, role: string)
    ensures Saying(a + b, role) == Saying(a, role) + Saying(b, role)
  {
    if a == [] {
      assert a + b == b;
    } else {
      SayingAppend(a[1..], b, role);
      assert (a + b)[1..] == a[1..] + b;
    }
  }

  lemma {:induction false} SplitTwice(ms: seq<Message>)
    ensures Systems(Systems(ms)) == Systems(ms) && Others(Systems(ms)) == []
    ensures Systems(Others(ms)) == [] && Others(Others(ms)) == Others(ms)
    ensures |Systems(ms)| + |Others(ms)| == |ms|
  {
    if ms != [] {
      var rest := ms[1..];
      SplitTwice(rest);
      assert ([ms[0]] + Systems(rest))[1..] == Systems(rest) && ([ms[0]] + Others(rest))[1..] == Others(rest);
    }
  }

  lemma OlderThenRecent(xs: seq<Message>, n: nat)
    ensures xs == Older(xs, n) + Recent(xs, n)
    ensures n > 0 ==> |Recent(xs, n)| == if |xs| < n then |xs| else n
  {
  }

  lemma RecentIsOthers(ms: seq<Message>, n: nat)
    ensures Systems(Recent(Others(ms), n)) == [] && Others(Recent(Others(ms), n)) == Recent(Others(ms), n)
    ensures Others(Older(Others(ms), n)) == Older(Others(ms), n)
  {
    var older, recent := Older(Others(ms), n), Recent(Others(ms), n);
    OlderThenRecent(Others(ms), n);
    SplitTwice(ms);
    SplitTwice(older);
    SplitTwice(recent);
    SystemsAppend(older, recent);
  }

  /** What compression leaves, part by part. */
  lemma CompressedParts(ms: seq<Message>, n: nat)
    requires |ms| > n
    ensures Systems(Compress(ms, n)) == Systems(ms) + Summarize(Older(Others(ms), n))
    ensures Others(Compress(ms, n)) == Recent(Others(ms), n)
  {
    var s, r := Summarize(Older(Others(ms), n)), Recent(Others(ms), n);
    SystemsAppend(Systems(ms) + s, r);
    SystemsAppend(Systems(ms), s);
    SplitTwice(ms);
    RecentIsOthers(ms, n);
    assert Systems(s) == s && Others(s) == [] by {
      if s != [] { assert s[1..] == []; }
    }
  }

  lemma NothingToSummarize()
    ensures Summarize([]) == []
  {
  }

  /** Compressing twice is compressing once. */
  lemma CompressIsIdempotent(ms: seq<Message>, n: nat)
    ensures Compress(Compress(ms, n), n) == Compress(ms, n)
  {
    if |ms| > n {
      var c := Compress(ms, n);
      CompressedParts(ms, n);
      hide Systems, Others, Summarize;
      assert c == Systems(c) + Others(c);
      RecentIsShort(Others(ms), n);
      NothingOlder(c, n);
    }
  }

  lemma RecentIsShort(xs: seq<Message>, n: nat)
    ensures Older(Recent(xs, n), n) == [] && Recent(Recent(xs, n), n) == Recent(xs, n)
  {
  }

  lemma NothingOlder(c: seq<Message>, n: nat)
    requires c == Systems(c) + Others(c) && Older(Others(c), n) == [] && Recent(Others(c), n) == Others(c)
    ensures Compress(c, n) == c
  {
    hide Systems, Others, Older, Recent;
    NothingToSummarize();
    assert Systems(c) + [] == Systems(c);
  }

  /** A summary is added exactly if there is something to count. */
  lemma {:induction false} SummaryIffCounted(ms: seq<Message>)
    ensures Summarize(ms) == [] <==> forall m :: m in ms ==> m.Said? ==> m.role !in {"user", "assistant"}
  {
    if ms != [] {
      SummaryIffCounted(ms[1..]);
      assert forall m :: m in ms <==> m == ms[0] || m in ms[1..];
    }
  }

  /** With `max_recent` 0 Python's slice keeps every message, and nothing is summarized. */
  lemma ZeroKeepsEverything(ms: seq<Message>)
    ensures Systems(Compress(ms, 0)) == Systems(ms) && Others(Compress(ms, 0)) == Others(ms)
  {
    if |ms| > 0 {
      CompressedParts(ms, 0);
      NothingToSummarize();
      assert Systems(ms) + [] == Systems(ms);
    }
  }

  /** It never lengthens the conversation. */
  lemma CompressNeverGrows(ms: seq<Message>, n: nat)
    ensures |Compress(ms, n)| <= |ms|
  {
    if |ms| > n {
      SplitTwice(ms);
      OlderThenRecent(Others(ms), n);
    }
  }

  // ---------- what survives any interleaving of messages and compressions ----------

  function AddedSystems(ms: seq<Message>): seq<Message> {
    if ms == [] then [] else
      if ms[0].Said? && ms[0].role == "system" then [ms[0]] + AddedSystems(ms[1..]) else AddedSystems(ms[1..])
  }

  function Summarized(ms: seq<Message>, role: string): nat {
    if ms == [] then 0 else
      (if ms[0].Said? then 0 else if role == "user" then ms[0].users else ms[0].assistants) + Summarized(ms[1..], role)
  }

  lemma {:induction false} AddedSystemsAppend(a: seq<Message>, b: seq<Message>)
    ensures AddedSystems(a + b) == AddedSystems(a) + AddedSystems(b)
  {
    var ab := a + b;
    if a == [] {
      assert ab == b;
    } else {
      AddedSystemsAppend(a[1..], b);
      assert ab[0] == a[0] && ab[1..] == a[1..] + b;
      var rest := AddedSystems(a[1..]);
      assert [a[0]] + (rest + AddedSystems(b)) == [a[0]] + rest + AddedSystems(b);
    }
  }

  lemma {:induction false} SummarizedAppend(a: seq<Message>, b: seq<Message>, role: string)
    ensures Summarized(a + b, role) == Summarized(a, role) + Summarized(b, role)
  {
    var ab := a + b;
    if a == [] {
      assert ab == b;
    } else {
      SummarizedAppend(a[1..], b, role);
      assert ab[0] == a[0] && ab[1..] == a[1..] + b;
    }
  }

  lemma AddedAppend(a: seq<Message>, b: seq<Message>, role: string)
    ensures AddedSystems(a + b) == AddedSystems(a) + AddedSystems(b)
    ensures Summarized(a + b, role) == Summarized(a, role) + Summarized(b, role)
  {
    AddedSystemsAppend(a, b);
    SummarizedAppend(a, b, role);
  }

  lemma {:induction false} AddedAreSystems(ms: seq<Message>, role: string)
    ensures AddedSystems(Systems(ms)) == AddedSystems(ms) && AddedSystems(Others(ms)) == []
    ensures Summarized(Systems(ms), role) == Summarized(ms, role) && Summarized(Others(ms), role) == 0
    ensures role != "system" ==> Saying(Others(ms), role) == Saying(ms, role)
  {
    if ms != [] {
      var rest := ms[1..];
      AddedAreSystems(rest, role);
      assert ([ms[0]] + Systems(rest))[1..] == Systems(rest) && ([ms[0]] + Others(rest))[1..] == Others(rest);
    }
  }

  ghost predicate IsSuffix(a: seq<Message>, b: seq<Message>) {
    |a| <= |b| && b[|b| - |a|..] == a
  }

  /** `role`'s messages are kept or counted in a summary. */
  ghost predicate Accounted(all: seq<Message>, kept: seq<Message>, role: string) {
    Summarized(kept, role) + Saying(Others(kept), role) == Saying(all, role)
  }

  ghost predicate Faithful(all: seq<Message>, kept: seq<Message>, maxRecent: nat) {
    && AddedSystems(kept) == AddedSystems(all)
    && IsSuffix(Others(kept), Others(all))
    && (|Others(kept)| >= maxRecent || |Others(kept)| == |Others(all)|)
    && Accounted(all, kept, "user") && Accounted(all, kept, "assistant")
  }

  lemma AddKeepsFaithful(all: seq<Message>, kept: seq<Message>, m: Message, n: nat)
    requires Faithful(all, kept, n) && m.Said?
    ensures Faithful(all + [m], kept + [m], n)
  {
    SystemsAppend(all, [m]);
    SystemsAppend(kept, [m]);
    assert Others([m]) == if IsSystem(m) then [] else [m];
    AddAccounted(all, kept, m, "user");
    AddAccounted(all, kept, m, "assistant");
  }

  lemma AddAccounted(all: seq<Message>, kept: seq<Message>, m: Message, role: string)
    requires m.Said? && Accounted(all, kept, role) && role != "system"
    ensures Accounted(all + [m], kept + [m], role)
    ensures AddedSystems(all + [m]) == AddedSystems(all) + AddedSystems([m])
    ensures AddedSystems(kept + [m]) == AddedSystems(kept) + AddedSystems([m])
  {
    AddedAppend(all, [m], role);
    AddedAppend(kept, [m], role);
    SystemsAppend(kept, [m]);
    SayingAppend(Others(kept), Others([m]), role);
    SayingAppend(all, [m], role);
  }

  lemma CompressAccounted(all: seq<Message>, kept: seq<Message>, n: nat, role: string)
    requires |kept| > n && Accounted(all, kept, role) && role in {"user", "assistant"}
    ensures Accounted(all, Compress(kept, n), role)
    ensures AddedSystems(Compress(kept, n)) == AddedSystems(kept)
  {
    var older, recent := Older(Others(kept), n), Recent(Others(kept), n);
    var s := Summarize(older);
    CompressedParts(kept, n);
    OlderThenRecent(Others(kept), n);
    SayingAppend(older, recent, role);
    AddedAppend(Systems(kept) + s, recent, role);
    AddedAppend(Systems(kept), s, role);
    AddedAreSystems(kept, role);
    AddedAppend(older, recent, role);
    assert Summarized(s, role) == Saying(older, role) && AddedSystems(s) == [] by {
      if s != [] { assert s[1..] == []; }
    }
  }

  lemma CompressKeepsFaithful(all: seq<Message>, kept: seq<Message>, n: nat)
    requires Faithful(all, kept, n)
    ensures Faithful(all, Compress(kept, n), n)
  {
    if |kept| > n {
      CompressAccounted(all, kept, n, "user");
      CompressAccounted(all, kept, n, "assistant");
      CompressedParts(kept, n);
      OlderThenRecent(Others(kept), n);
    }
  }

  /**
   A visit leaves a conversation up to the threshold as it was. It cuts the other messages of a longer one to the
   `maxRecent` last ones, and keeps what was kept of everything added.
   */
  lemma VisitKeepsRecent(all: seq<Message>, ms: seq<Message>, threshold: nat, maxRecent: nat)
    ensures |ms| <= threshold ==> Kept(ms, threshold, maxRecent) == ms
    ensures |ms| > threshold && maxRecent > 0 ==>
              var others := Others(ms);
              Others(Kept(ms, threshold, maxRecent))
              == if |others| > maxRecent then others[|others| - maxRecent..] else others
    ensures Faithful(all, ms, maxRecent) ==> Faithful(all, Kept(ms, threshold, maxRecent), maxRecent)
  {
    hide Faithful;
    if |ms| > threshold {
      if |ms| > maxRecent {
        CompressedParts(ms, maxRecent);
      } else {
        SplitTwice(ms);
      }
      if Faithful(all, ms, maxRecent) {
        CompressKeepsFaithful(all, ms, maxRecent);
      }
    }
  }

  datatype Op = Add(role: string, content: string) | Compressing | Visiting(threshold: nat)

  function Run(kept: seq<Message>, ops: seq<Op>, maxRecent: nat): seq<Message>
    decreases |ops|
  {
    if ops == [] then kept else
      match ops[0]
      case Add(role, content) => Run(kept + [Said(role, content)], ops[1..], maxRecent)
      case Compressing => Run(Compress(kept, maxRecent), ops[1..], maxRecent)
      case Visiting(threshold) => Run(Kept(kept, threshold, maxRecent), ops[1..], maxRecent)
  }

  /** Everything the operations add, in order. */
  function Added(ops: seq<Op>): seq<Message>
    decreases |ops|
  {
    if ops == [] then [] else
      (match ops[0] case Add(role, content) => [Said(role, content)] case _ => []) + Added(ops[1..])
  }

  lemma {:induction false} RunKeepsFaithful(all: seq<Message>, kept: seq<Message>, ops: seq<Op>, n: nat)
    requires Faithful(all, kept, n)
    ensures Faithful(all + Added(ops), Run(kept, ops, n), n)
    decreases |ops|
  {
    hide Faithful, Compress, Kept;
    if ops == [] {
      assert all + [] == all;
    } else {
      match ops[0]
      case Add(role, content) =>
        var m := Said(role, content);
        AddKeepsFaithful(all, kept, m, n);
        RunKeepsFaithful(all + [m], kept + [m], ops[1..], n);
        assert all + [m] + Added(ops[1..]) == all + ([m] + Added(ops[1..]));
      case Compressing =>
        CompressKeepsFaithful(all, kept, n);
        RunKeepsFaithful(all, Compress(kept, n), ops[1..], n);
        assert [] + Added(ops[1..]) == Added(ops[1..]);
      case Visiting(threshold) =>
        VisitKeepsRecent(all, kept, threshold, n);
        RunKeepsFaithful(all, Kept(kept, threshold, n), ops[1..], n);
        assert [] + Added(ops[1..]) == Added(ops[1..]);
    }
  }

  /**
   However adding, compressing and visiting interleave: the added system messages survive in order, the other kept
   messages are the end of those added, at least `maxRecent` of them if there were that many, and every
   user and assistant message is kept or counted in a summary.
   */
  lemma ConversationIsConserved(ops: seq<Op>, maxRecent: nat)
    ensures Faithful(Added(ops), Run([], ops, maxRecent), maxRecent)
  {
    RunKeepsFaithful([], [], ops, maxRecent);
    assert [] + Added(ops) == Added(ops);
  }
}
