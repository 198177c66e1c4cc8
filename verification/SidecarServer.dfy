/**
 The sidecar's side of a connection (apps/runtime/sidecar/src/index.ts): every `data` event starts a handler
 that works through its complete lines and is suspended while an invoke is awaited, so that handlers of one
 connection overlap. They share the buffer and the socket, which a shutdown line ends.

 What a line means is a parameter, and so is how many events an invoke sends before its result or error.
 */
module SidecarServer {
  import opened Wrappers
  import opened JsonLines

  datatype Request = Ping | Shutdown | Invoke(id: string) | Other

  // `Result` is the last message of an invoke, be it a result or an error.
  datatype Reply = Pong | ParseError | Event(id: string, n: nat) | Result(id: string)

  // What can be seen of a connection: invokes that were run, and replies that were delivered.
  datatype Act = Ran(id: string) | Sent(reply: Reply)

  // `blank` is JavaScript's `!line.trim()`. `parse` fails where JSON.parse throws, and where reading the
  // `type` of what it returned does, as for the line `null`.
  datatype Syntax = Syntax(blank: string -> bool, parse: string -> Option<Request>, events: string -> nat)

  datatype Reading = Nothing | Answer(reply: Reply) | Call(id: string) | Stop

  function ReadLine(sx: Syntax, line: string): Reading {
    if sx.blank(line) then Nothing else
      match sx.parse(line)
      case None => Answer(ParseError)
      case Some(Ping) => Answer(Pong)
      case Some(Shutdown) => Stop
      case Some(Invoke(id)) => Call(id)
      case Some(Other) => Nothing
  }

  /** `socket.write`: on a socket that was ended the reply is lost. */
  function Written(open: bool, reply: Reply): seq<Act> {
    if open then [Sent(reply)] else []
  }

  // ---------- handlers ----------

  // A handler awaits an invoke, which has sent so many events, or is about to go on with its next line.
  datatype Handler = Awaiting(id: string, sent: nat, rest: seq<string>) | Ready(rest: seq<string>) | Done

  // How far a handler came without a break, what it brought about, and whether the socket is still open.
  datatype Stretch = Stretch(handler: Handler, acts: seq<Act>, open: bool)

  /** The loop over the lines up to the next `await`: a shutdown drops the rest of them. */
  function RunOn(sx: Syntax, open: bool, lines: seq<string>): Stretch {
    if lines == [] then Stretch(Done, [], open)
    else
      match ReadLine(sx, lines[0])
      case Stop => Stretch(Done, [], false)
      case Call(id) => Stretch(Awaiting(id, 0, lines[1..]), [Ran(id)], open)
      case Nothing => RunOn(sx, open, lines[1..])
      case Answer(reply) =>
        var s := RunOn(sx, open, lines[1..]);
        s.(acts := Written(open, reply) + s.acts)
  }

  // ---------- the connection ----------

  datatype World = World(buffer: string, open: bool, handlers: seq<Handler>, log: seq<Act>)

  const START := World("", true, [], [])

  // A chunk arrives, or the handler `k` makes its next move: its invoke sends a message, or it goes on.
  datatype Step = Data(chunk: string) | Go(k: nat)

  predicate Enabled(w: World, s: Step) {
    s.Go? ==> s.k < |w.handlers| && w.handlers[s.k] != Done
  }

  /** The next message of an awaited invoke; after the last one its handler can go on. */
  function Emitted(sx: Syntax, open: bool, h: Handler): Stretch
    requires h.Awaiting?
  {
    if h.sent < sx.events(h.id)
    then Stretch(h.(sent := h.sent + 1), Written(open, Event(h.id, h.sent)), open)
    else Stretch(Ready(h.rest), Written(open, Result(h.id)), open)
  }

  function Move(sx: Syntax, open: bool, h: Handler): Stretch {
    match h
    case Awaiting(_, _, _) => Emitted(sx, open, h)
    case Ready(rest) => RunOn(sx, open, rest)
    case Done => Stretch(Done, [], open)
  }

  function Next(sx: Syntax, w: World, s: Step): World
    requires Enabled(w, s)
  {
    match s
    case Data(chunk) =>
      var (lines, buffer) := Feed(w.buffer, chunk);
      var r := RunOn(sx, w.open, lines);
      World(buffer, r.open, w.handlers + [r.handler], w.log + r.acts)
    case Go(k) =>
      var r := Move(sx, w.open, w.handlers[k]);
      World(w.buffer, r.open, w.handlers[k := r.handler], w.log + r.acts)
  }

  ghost predicate Behaviour(sx: Syntax, w: World, steps: seq<Step>)
    decreases |steps|
  {
    steps != [] ==> Enabled(w, steps[0]) && Behaviour(sx, Next(sx, w, steps[0]), steps[1..])
  }

  function End(sx: Syntax, w: World, steps: seq<Step>): World
    requires Behaviour(sx, w, steps)
    decreases |steps|
  {
    if steps == [] then w else End(sx, Next(sx, w, steps[0]), steps[1..])
  }

  function Chunks(steps: seq<Step>): seq<string> {
    if steps == [] then []
    else if steps[0].Data? then [steps[0].chunk] + Chunks(steps[1..]) else Chunks(steps[1..])
  }

  ghost predicate Finished(w: World) {
    forall k :: 0 <= k < |w.handlers| ==> w.handlers[k] == Done
  }

  /** A complete run over the text: some cut of it into chunks, and some schedule of the handlers. */
  ghost predicate RunOver(sx: Syntax, text: string, steps: seq<Step>) {
    && Behaviour(sx, START, steps)
    && Concat(Chunks(steps)) == text && "" !in Chunks(steps)
    && Finished(End(sx, START, steps))
  }

  /** The complete lines of a text. */
  function LinesOf(text: string): seq<string> {
    Split(text)[..|Split(text)| - 1]
  }

  // ---------- a text that comes in one chunk ----------

  /** What an invoke still sends once it has sent so many events. */
  function Replies(sx: Syntax, id: string, sent: nat): seq<Act>
    decreases sx.events(id) - sent
  {
    if sent < sx.events(id) then [Sent(Event(id, sent))] + Replies(sx, id, sent + 1) else [Sent(Result(id))]
  }

  /** What one line brings about on an open socket. */
  function LineActs(sx: Syntax, line: string): seq<Act> {
    match ReadLine(sx, line)
    case Answer(reply) => [Sent(reply)]
    case Call(id) => [Ran(id)] + Replies(sx, id, 0)
    case _ => []
  }

  /** One line after the other, with every reply delivered, up to a shutdown. */
  function Straight(sx: Syntax, lines: seq<string>): seq<Act> {
    if lines == [] || ReadLine(sx, lines[0]) == Stop then []
    else LineActs(sx, lines[0]) + Straight(sx, lines[1..])
  }

  /** What a handler on an open socket still has to do. */
  function Ahead(sx: Syntax, h: Handler): seq<Act> {
    match h
    case Awaiting(id, sent, rest) => Replies(sx, id, sent) + Straight(sx, rest)
    case Ready(rest) => Straight(sx, rest)
    case Done => []
  }

  lemma {:induction false} RunOnIsStraight(sx: Syntax, lines: seq<string>)
    ensures var r := RunOn(sx, true, lines);
            r.acts + Ahead(sx, r.handler) == Straight(sx, lines) && (r.open || r.handler == Done)
  {
    hide Replies;
    if lines != [] {
      RunOnIsStraight(sx, lines[1..]);
      if ReadLine(sx, lines[0]).Answer? {
        var r := RunOn(sx, true, lines[1..]);
        Associative(LineActs(sx, lines[0]), r.acts, Ahead(sx, r.handler));
      } else if ReadLine(sx, lines[0]).Call? {
        var id := ReadLine(sx, lines[0]).id;
        Associative([Ran(id)], Replies(sx, id, 0), Straight(sx, lines[1..]));
      }
    }
  }

  lemma MoveIsStraight(sx: Syntax, h: Handler)
    ensures var r := Move(sx, true, h);
            r.acts + Ahead(sx, r.handler) == Ahead(sx, h) && (r.open || r.handler == Done)
  {
    hide Straight;
    match h
    case Awaiting(id, sent, rest) =>
      var r := Move(sx, true, h);
      Associative(r.acts, if r.handler.Awaiting? then Replies(sx, id, sent + 1) else [], Straight(sx, rest));
    case Ready(rest) => RunOnIsStraight(sx, rest);
    case Done =>
  }

  lemma {:induction false} OneHandler(sx: Syntax, w: World, steps: seq<Step>, all: seq<Act>)
    requires |w.handlers| == 1 && (w.open || w.handlers[0] == Done)
    requires w.log + Ahead(sx, w.handlers[0]) == all
    requires Behaviour(sx, w, steps) && Chunks(steps) == [] && Finished(End(sx, w, steps))
    ensures End(sx, w, steps).log == all
    decreases |steps|
  {
    hide Move, Ahead;
    if steps == [] {
      assert w.handlers[0] == Done && Ahead(sx, Done) == [] by { DoneHasNothingAhead(sx); }
    } else {
      assert steps[0] == Go(0);
      var r := Move(sx, true, w.handlers[0]);
      MoveIsStraight(sx, w.handlers[0]);
      Associative(w.log, r.acts, Ahead(sx, r.handler));
      OneHandler(sx, Next(sx, w, steps[0]), steps[1..], all);
    }
  }

  lemma DoneHasNothingAhead(sx: Syntax)
    ensures Ahead(sx, Done) == []
  {
  }

  /** A text that comes in one chunk is handled line by line, every reply being delivered. */
  lemma OneChunkIsStraight(sx: Syntax, text: string, steps: seq<Step>)
    requires RunOver(sx, text, steps) && Chunks(steps) == [text]
    ensures End(sx, START, steps).log == Straight(sx, LinesOf(text))
  {
    hide Split, Straight, Ahead, RunOn;
    assert steps != [] && steps[0] == Data(text) && Chunks(steps[1..]) == [];
    assert "" + text == text;
    RunOnIsStraight(sx, LinesOf(text));
    OneHandler(sx, Next(sx, START, steps[0]), steps[1..], Straight(sx, LinesOf(text)));
  }

  // ---------- texts without a shutdown: nothing is lost ----------

  ghost predicate HasStop(sx: Syntax, lines: seq<string>) {
    exists i :: 0 <= i < |lines| && ReadLine(sx, lines[i]) == Stop
  }

  ghost predicate HasCall(sx: Syntax, lines: seq<string>) {
    exists i :: 0 <= i < |lines| && ReadLine(sx, lines[i]).Call?
  }

  lemma HasFirst(sx: Syntax, lines: seq<string>)
    requires lines != []
    ensures HasStop(sx, lines) <==> ReadLine(sx, lines[0]) == Stop || HasStop(sx, lines[1..])
    ensures HasCall(sx, lines) <==> ReadLine(sx, lines[0]).Call? || HasCall(sx, lines[1..])
  {
    assert forall i :: 0 < i < |lines| ==> lines[i] == lines[1..][i - 1];
  }

  lemma HasAppend(sx: Syntax, a: seq<string>, b: seq<string>)
    ensures HasStop(sx, a + b) <==> HasStop(sx, a) || HasStop(sx, b)
    ensures HasCall(sx, a + b) <==> HasCall(sx, a) || HasCall(sx, b)
  {
    var ab := a + b;
    assert forall i :: 0 <= i < |a| ==> a[i] == ab[i];
    assert forall i :: 0 <= i < |b| ==> b[i] == ab[|a| + i];
  }

  lemma {:induction false} StraightAppend(sx: Syntax, a: seq<string>, b: seq<string>)
    ensures Straight(sx, a + b) == if HasStop(sx, a) then Straight(sx, a) else Straight(sx, a) + Straight(sx, b)
  {
    if a == [] {
      assert a + b == b;
    } else {
      StraightAppend(sx, a[1..], b);
      HasFirst(sx, a);
      assert (a + b)[0] == a[0] && (a + b)[1..] == a[1..] + b by { TailOfAppend(a, b); }
      hide HasStop, LineActs;
      Associative(LineActs(sx, a[0]), Straight(sx, a[1..]), Straight(sx, b));
    }
  }

  /** What all handlers still have to do on an open socket. */
  ghost function AllAhead(sx: Syntax, hs: seq<Handler>): multiset<Act> {
    if hs == [] then multiset{} else multiset(Ahead(sx, hs[0])) + AllAhead(sx, hs[1..])
  }

  lemma {:induction false} AllAheadAppend(sx: Syntax, hs: seq<Handler>, h: Handler)
    ensures AllAhead(sx, hs + [h]) == AllAhead(sx, hs) + multiset(Ahead(sx, h))
  {
    hide Ahead;
    if hs == [] {
      assert hs + [h] == [h];
    } else {
      AllAheadAppend(sx, hs[1..], h);
      assert (hs + [h])[1..] == hs[1..] + [h];
    }
  }

  lemma AddToBoth(m: multiset<Act>, a: multiset<Act>, b: multiset<Act>, c: multiset<Act>, d: multiset<Act>)
    requires a + b == c + d
    ensures (m + a) + b == (m + c) + d
  {
    forall x: Act ensures ((m + a) + b)[x] == ((m + c) + d)[x] {
      assert (a + b)[x] == (c + d)[x];
    }
  }

  lemma {:induction false} AllAheadUpdate(sx: Syntax, hs: seq<Handler>, k: nat, h: Handler)
    requires k < |hs|
    ensures AllAhead(sx, hs[k := h]) + multiset(Ahead(sx, hs[k])) == AllAhead(sx, hs) + multiset(Ahead(sx, h))
  {
    hide Ahead;
    if k == 0 {
      assert hs[k := h][1..] == hs[1..];
    } else {
      var rest, after := hs[1..], hs[k := h];
      AllAheadUpdate(sx, rest, k - 1, h);
      assert after[0] == hs[0] && after[1..] == rest[k - 1 := h] && rest[k - 1] == hs[k];
      AddToBoth(multiset(Ahead(sx, hs[0])), AllAhead(sx, rest[k - 1 := h]), multiset(Ahead(sx, hs[k])),
                AllAhead(sx, rest), multiset(Ahead(sx, h)));
      assert AllAhead(sx, after) == multiset(Ahead(sx, hs[0])) + AllAhead(sx, rest[k - 1 := h]);
    }
  }

  lemma {:induction false} NothingAhead(sx: Syntax, hs: seq<Handler>)
    requires forall k :: 0 <= k < |hs| ==> hs[k] == Done
    ensures AllAhead(sx, hs) == multiset{}
  {
    if hs != [] {
      NothingAhead(sx, hs[1..]);
    }
  }

  /** The lines a handler has not looked at yet. */
  function Unread(h: Handler): seq<string> {
    if h == Done then [] else h.rest
  }

  lemma {:induction false} RunOnLeaves(sx: Syntax, open: bool, lines: seq<string>)
    ensures var r := RunOn(sx, open, lines);
            && (HasStop(sx, Unread(r.handler)) ==> HasStop(sx, lines))
            && (HasCall(sx, Unread(r.handler)) ==> HasCall(sx, lines))
            && (!HasStop(sx, lines) ==> r.open == open)
  {
    if lines != [] {
      HasFirst(sx, lines);
      hide HasStop, HasCall;
      RunOnLeaves(sx, open, lines[1..]);
    }
  }

  ghost predicate NoStopAhead(sx: Syntax, w: World) {
    w.open && forall k :: 0 <= k < |w.handlers| ==> !HasStop(sx, Unread(w.handlers[k]))
  }

  /** The lines that are still to come out of the buffer. */
  function Coming(buffer: string, steps: seq<Step>): seq<string> {
    Concat(FeedAll(buffer, Chunks(steps)).0)
  }

  /** The lines a step takes out of the buffer. */
  function Taken(w: World, s: Step): seq<string> {
    if s.Data? then Feed(w.buffer, s.chunk).0 else []
  }

  lemma ComingFirst(sx: Syntax, w: World, steps: seq<Step>)
    requires steps != [] && Enabled(w, steps[0])
    ensures Coming(w.buffer, steps) == Taken(w, steps[0]) + Coming(Next(sx, w, steps[0]).buffer, steps[1..])
  {
    hide RunOn, Move;
    if steps[0].Data? {
      FeedAllCons(w.buffer, steps[0].chunk, Chunks(steps[1..]));
      var (lines, rest) := Feed(w.buffer, steps[0].chunk);
      ConcatCons(lines, FeedAll(rest, Chunks(steps[1..])).0);
    } else {
      assert Chunks(steps) == Chunks(steps[1..]);
      assert [] + Coming(w.buffer, steps[1..]) == Coming(w.buffer, steps[1..]);
    }
  }

  /** Without a shutdown, what was done and what is still ahead stay the same in all. */
  lemma {:induction false} NothingIsLost(sx: Syntax, w: World, steps: seq<Step>)
    requires Behaviour(sx, w, steps) && NoStopAhead(sx, w) && !HasStop(sx, Coming(w.buffer, steps))
    ensures var end := End(sx, w, steps);
            multiset(end.log) + AllAhead(sx, end.handlers)
            == multiset(w.log) + AllAhead(sx, w.handlers) + multiset(Straight(sx, Coming(w.buffer, steps)))
    decreases |steps|
  {
    hide Next, Taken, Ahead, Straight, HasStop, AllAhead, Coming, NoStopAhead;
    if steps == [] {
      assert Coming(w.buffer, []) == [] by { NothingComing(w.buffer); }
      assert Straight(sx, []) == [] by { StraightOfNone(sx); }
    } else {
      var w' := Next(sx, w, steps[0]);
      var taken, later := Taken(w, steps[0]), Coming(w'.buffer, steps[1..]);
      ComingFirst(sx, w, steps);
      HasAppend(sx, taken, later);
      StraightAppend(sx, taken, later);
      StepLosesNothing(sx, w, steps[0]);
      NothingIsLost(sx, w', steps[1..]);
    }
  }

  lemma NothingComing(buffer: string)
    ensures Coming(buffer, []) == []
  {
  }

  lemma StraightOfNone(sx: Syntax)
    ensures Straight(sx, []) == []
  {
  }

  lemma Cancel(a: multiset<Act>, a': multiset<Act>, h: multiset<Act>, h': multiset<Act>, done: multiset<Act>)
    requires a' + h == a + h' && done + h' == h
    ensures done + a' == a
  {
    forall x: Act ensures (done + a')[x] == a[x] {
      assert (a' + h)[x] == (a + h')[x] && (done + h')[x] == h[x];
    }
  }

  lemma StepLosesNothing(sx: Syntax, w: World, s: Step)
    requires Enabled(w, s) && NoStopAhead(sx, w) && !HasStop(sx, Taken(w, s))
    ensures var w' := Next(sx, w, s);
            && NoStopAhead(sx, w')
            && multiset(w'.log) + AllAhead(sx, w'.handlers)
               == multiset(w.log) + AllAhead(sx, w.handlers) + multiset(Straight(sx, Taken(w, s)))
  {
    hide RunOn, Ahead, Straight, Feed, HasStop, AllAhead;
    match s
    case Data(chunk) =>
      var lines := Feed(w.buffer, chunk).0;
      var r := RunOn(sx, w.open, lines);
      RunOnIsStraight(sx, lines);
      RunOnLeaves(sx, w.open, lines);
      AllAheadAppend(sx, w.handlers, r.handler);
    case Go(k) =>
      var h := w.handlers[k];
      var r := Move(sx, w.open, h);
      MoveIsStraight(sx, h);
      AllAheadUpdate(sx, w.handlers, k, r.handler);
      assert multiset(r.acts) + multiset(Ahead(sx, r.handler)) == multiset(Ahead(sx, h)) by {
        assert r.acts + Ahead(sx, r.handler) == Ahead(sx, h);
      }
      Cancel(AllAhead(sx, w.handlers), AllAhead(sx, w.handlers[k := r.handler]), multiset(Ahead(sx, h)),
             multiset(Ahead(sx, r.handler)), multiset(r.acts));
      StraightOfNone(sx);
      if h.Ready? {
        RunOnLeaves(sx, w.open, h.rest);
      }
  }

  // ---------- texts without an invoke: no handler is ever suspended ----------

  lemma {:induction false} RunOnWithoutCall(sx: Syntax, open: bool, lines: seq<string>)
    requires !HasCall(sx, lines)
    ensures RunOn(sx, open, lines)
         == Stretch(Done, if open then Straight(sx, lines) else [], open && !HasStop(sx, lines))
  {
    if lines != [] {
      HasFirst(sx, lines);
      hide HasStop, HasCall;
      if ReadLine(sx, lines[0]) != Stop {
        RunOnWithoutCall(sx, open, lines[1..]);
      }
    }
  }

  lemma {:induction false} NothingIsAwaited(sx: Syntax, w: World, steps: seq<Step>)
    requires Behaviour(sx, w, steps) && Finished(w) && !HasCall(sx, Coming(w.buffer, steps))
    ensures End(sx, w, steps).log == w.log + if w.open then Straight(sx, Coming(w.buffer, steps)) else []
    decreases |steps|
  {
    hide RunOn, Straight, Feed, HasStop, HasCall, Coming;
    if steps == [] {
      NothingComing(w.buffer);
      StraightOfNone(sx);
    } else {
      var w' := Next(sx, w, steps[0]);
      var lines, later := Taken(w, steps[0]), Coming(w'.buffer, steps[1..]);
      ComingFirst(sx, w, steps);
      HasAppend(sx, lines, later);
      StraightAppend(sx, lines, later);
      RunOnWithoutCall(sx, w.open, lines);
      NothingIsAwaited(sx, w', steps[1..]);
      Associative(w.log, Straight(sx, lines), Straight(sx, later));
    }
  }

  /** Unless a text has both a shutdown and an invoke, every run over it does what one chunk would. */
  lemma RunIsStraight(sx: Syntax, text: string, steps: seq<Step>)
    requires RunOver(sx, text, steps)
    requires !HasStop(sx, LinesOf(text)) || !HasCall(sx, LinesOf(text))
    ensures multiset(End(sx, START, steps).log) == multiset(Straight(sx, LinesOf(text)))
  {
    hide Next, Straight, HasStop, HasCall, Split, FeedAll;
    assert Coming("", steps) == LinesOf(text) by {
      ChunkingIsIrrelevant(Chunks(steps));
      var (batches, final) := FeedAll("", Chunks(steps));
      assert Concat(batches) == (Concat(batches) + [final])[..|Concat(batches)|];
    }
    if HasStop(sx, LinesOf(text)) {
      NothingIsAwaited(sx, START, steps);
    } else {
      NothingIsLostInAll(sx, steps);
    }
  }

  lemma NothingIsLostInAll(sx: Syntax, steps: seq<Step>)
    requires Behaviour(sx, START, steps) && Finished(End(sx, START, steps)) && !HasStop(sx, Coming("", steps))
    ensures multiset(End(sx, START, steps).log) == multiset(Straight(sx, Coming("", steps)))
  {
    hide Next, Straight, HasStop, Coming, AllAhead;
    NothingIsLost(sx, START, steps);
    NothingAhead(sx, []);
    NothingAhead(sx, End(sx, START, steps).handlers);
    var log, straight := End(sx, START, steps).log, Straight(sx, Coming("", steps));
    assert multiset(log) + multiset{} == multiset([]) + multiset{} + multiset(straight);
    assert multiset(log) + multiset{} == multiset(log);
    assert multiset([]) + multiset{} + multiset(straight) == multiset(straight);
  }

  // ---------- texts with both: replies are lost ----------

  lemma {:induction false} RunOnShortens(sx: Syntax, open: bool, lines: seq<string>)
    ensures var h := RunOn(sx, open, lines).handler;
            h == Done || (h.Awaiting? && h.sent == 0 && |h.rest| < |lines|)
  {
    if lines != [] {
      RunOnShortens(sx, open, lines[1..]);
    }
  }

  function MessagesLeft(sx: Syntax, h: Handler): nat {
    match h
    case Awaiting(id, sent, _) => if sent < sx.events(id) then sx.events(id) - sent + 2 else 2
    case Ready(_) => 1
    case Done => 0
  }

  /** Once all chunks have come, the handlers can come to their end, one after the other. */
  lemma {:induction false} CanFinish(sx: Syntax, w: World, k: nat) returns (steps: seq<Step>)
    requires k <= |w.handlers| && forall j :: 0 <= j < k ==> w.handlers[j] == Done
    ensures Behaviour(sx, w, steps) && Chunks(steps) == [] && Finished(End(sx, w, steps))
    decreases |w.handlers| - k, if k < |w.handlers| then |Unread(w.handlers[k])| else 0,
              if k < |w.handlers| then MessagesLeft(sx, w.handlers[k]) else 0
  {
    hide RunOn;
    if k == |w.handlers| {
      steps := [];
    } else if w.handlers[k] == Done {
      steps := CanFinish(sx, w, k + 1);
    } else {
      if w.handlers[k].Ready? {
        RunOnShortens(sx, w.open, w.handlers[k].rest);
      }
      var later := CanFinish(sx, Next(sx, w, Go(k)), k);
      steps := [Go(k)] + later;
      assert steps[1..] == later;
    }
  }

  ghost predicate NoReplies(acts: seq<Act>) {
    forall i :: 0 <= i < |acts| ==> acts[i].Ran?
  }

  lemma {:induction false} ClosedSendsNothing(sx: Syntax, lines: seq<string>)
    ensures var r := RunOn(sx, false, lines); !r.open && NoReplies(r.acts)
  {
    if lines != [] {
      ClosedSendsNothing(sx, lines[1..]);
    }
  }

  lemma ClosedStep(sx: Syntax, w: World, s: Step)
    requires Enabled(w, s) && !w.open
    ensures var w' := Next(sx, w, s); !w'.open && w.log <= w'.log && NoReplies(w'.log[|w.log|..])
  {
    hide RunOn;
    if s.Data? {
      ClosedSendsNothing(sx, Taken(w, s));
    } else if w.handlers[s.k].Ready? {
      ClosedSendsNothing(sx, w.handlers[s.k].rest);
    }
  }

  /** On a socket that has been ended invokes may still run, but no reply is delivered any more. */
  lemma {:induction false} ClosedStaysSilent(sx: Syntax, w: World, steps: seq<Step>)
    requires Behaviour(sx, w, steps) && !w.open
    ensures var end := End(sx, w, steps); w.log <= end.log && NoReplies(end.log[|w.log|..])
    decreases |steps|
  {
    hide RunOn;
    if steps != [] {
      var w' := Next(sx, w, steps[0]);
      ClosedStep(sx, w, steps[0]);
      ClosedStaysSilent(sx, w', steps[1..]);
      var end := End(sx, w, steps);
      assert end.log[|w.log|..] == w'.log[|w.log|..] + end.log[|w'.log|..];
    }
  }

  ghost predicate CallsFor(sx: Syntax, lines: seq<string>, id: string) {
    exists i :: 0 <= i < |lines| && ReadLine(sx, lines[i]) == Call(id)
  }

  /** What is left of a text after its last newline, as a chunk if there is any. */
  function Tail(last: string): seq<string> {
    if last == "" then [] else [last]
  }

  /** Every line comes in a chunk of its own, and all of them before any invoke has answered. */
  lemma {:induction false} OverlappingRun(sx: Syntax, w: World, lines: seq<string>, last: string, id: string)
    returns (steps: seq<Step>)
    requires w.buffer == "" && OneLiners(lines) && OneLine(last)
    requires w.open ==> HasStop(sx, lines)
    requires Sent(Result(id)) !in w.log && (Ran(id) in w.log || CallsFor(sx, lines, id))
    ensures Behaviour(sx, w, steps) && Chunks(steps) == LineByLine(lines) + Tail(last) && "" !in Chunks(steps)
    ensures Finished(End(sx, w, steps))
    ensures Ran(id) in End(sx, w, steps).log && Sent(Result(id)) !in End(sx, w, steps).log
    decreases |lines|
  {
    hide RunOn, Move, Feed, OneLine;
    if lines == [] && last == "" {
      steps := DrainSilently(sx, w, id);
    } else if lines == [] {
      var w' := Next(sx, w, Data(last));
      ClosedSendsNothing(sx, Taken(w, Data(last)));
      var later := DrainSilently(sx, w', id);
      steps := [Data(last)] + later;
      assert steps[1..] == later;
    } else {
      var chunk := lines[0] + "\n";
      var w' := Next(sx, w, Data(chunk));
      FeedLine(lines[0]);
      assert w.buffer + chunk == "" + chunk;
      RunOnOneLine(sx, w.open, lines[0], id);
      HasFirst(sx, lines);
      assert forall i :: 0 < i < |lines| ==> lines[i] == lines[1..][i - 1];
      var later := OverlappingRun(sx, w', lines[1..], last, id);
      steps := [Data(chunk)] + later;
      assert steps[1..] == later;
      assert LineByLine(lines) + Tail(last) == [chunk] + (LineByLine(lines[1..]) + Tail(last));
    }
  }

  lemma RunOnOneLine(sx: Syntax, open: bool, line: string, id: string)
    ensures var r := RunOn(sx, open, [line]);
            && Sent(Result(id)) !in r.acts && (ReadLine(sx, line) == Call(id) ==> Ran(id) in r.acts)
            && r.open == (open && ReadLine(sx, line) != Stop)
  {
    assert [line][1..] == [];
  }

  lemma DrainSilently(sx: Syntax, w: World, id: string) returns (steps: seq<Step>)
    requires !w.open && Sent(Result(id)) !in w.log && Ran(id) in w.log
    ensures Behaviour(sx, w, steps) && Chunks(steps) == [] && Finished(End(sx, w, steps))
    ensures Ran(id) in End(sx, w, steps).log && Sent(Result(id)) !in End(sx, w, steps).log
  {
    hide Next, Behaviour, End;
    steps := CanFinish(sx, w, 0);
    ClosedStaysSilent(sx, w, steps);
    var end := End(sx, w, steps);
    assert end.log == w.log + end.log[|w.log|..];
  }

  /** In one chunk, every invoke that is run has its last message delivered. */
  lemma {:induction false} StraightAnswers(sx: Syntax, lines: seq<string>, id: string)
    requires Ran(id) in Straight(sx, lines)
    ensures Sent(Result(id)) in Straight(sx, lines)
  {
    hide Replies;
    if ReadLine(sx, lines[0]) == Call(id) {
      RepliesEnd(sx, id, 0);
    } else {
      assert Ran(id) !in LineActs(sx, lines[0]) by {
        if ReadLine(sx, lines[0]).Call? { RepliesEnd(sx, ReadLine(sx, lines[0]).id, 0); }
      }
      StraightAnswers(sx, lines[1..], id);
    }
  }

  lemma {:induction false} RepliesEnd(sx: Syntax, id: string, sent: nat)
    ensures Sent(Result(id)) in Replies(sx, id, sent)
    ensures forall other :: Ran(other) !in Replies(sx, id, sent)
    decreases sx.events(id) - sent
  {
    if sent < sx.events(id) {
      RepliesEnd(sx, id, sent + 1);
    }
  }

  lemma AnsweredOrNot(a: seq<Act>, b: seq<Act>, id: string)
    requires Ran(id) in a && Sent(Result(id)) !in a
    requires Ran(id) in b ==> Sent(Result(id)) in b
    ensures multiset(a) != multiset(b)
  {
    assert Ran(id) in multiset(a) && Sent(Result(id)) !in multiset(a);
    assert Ran(id) in multiset(b) ==> Sent(Result(id)) in multiset(b);
  }

  // ---------- does the cut matter? ----------

  /** Every cut and every schedule run the invokes and deliver the replies that a single chunk would. */
  ghost predicate SameForEveryCut(sx: Syntax, text: string) {
    forall steps :: RunOver(sx, text, steps) ==>
      multiset(End(sx, START, steps).log) == multiset(Straight(sx, LinesOf(text)))
  }

  /**
   What the sidecar runs and answers is the same for every cut of a text and every schedule exactly when the
   complete lines of the text do not hold both a shutdown and an invoke.
   */
  lemma CutIsIrrelevantIff(sx: Syntax, text: string)
    ensures SameForEveryCut(sx, text) <==> !(HasStop(sx, LinesOf(text)) && HasCall(sx, LinesOf(text)))
  {
    hide Behaviour, Finished, Straight, Split, End;
    if HasStop(sx, LinesOf(text)) && HasCall(sx, LinesOf(text)) {
      var i :| 0 <= i < |LinesOf(text)| && ReadLine(sx, LinesOf(text)[i]).Call?;
      var id := ReadLine(sx, LinesOf(text)[i]).id;
      var pieces := Split(text);
      JoinSplit(text);
      WireOfLines(pieces);
      var last := pieces[|pieces| - 1];
      LineByLineJoins(LinesOf(text), Tail(last));
      var steps := OverlappingRun(sx, START, LinesOf(text), last, id);
      assert RunOver(sx, text, steps);
      if Ran(id) in Straight(sx, LinesOf(text)) {
        StraightAnswers(sx, LinesOf(text), id);
      }
      AnsweredOrNot(End(sx, START, steps).log, Straight(sx, LinesOf(text)), id);
    } else {
      forall steps | RunOver(sx, text, steps)
        ensures multiset(End(sx, START, steps).log) == multiset(Straight(sx, LinesOf(text)))
      {
        RunIsStraight(sx, text, steps);
      }
    }
  }

  /**
   An invoke line and a shutdown line. In one chunk the invoke is answered if it comes first and not run if it
   comes second; in two chunks it can be run without any of its replies being delivered.
   */
  lemma TwoChunksLoseReplies(sx: Syntax, first: string, second: string, id: string) returns (steps: seq<Step>)
    requires OneLine(first) && OneLine(second)
    requires (ReadLine(sx, first) == Call(id) && ReadLine(sx, second) == Stop)
          || (ReadLine(sx, first) == Stop && ReadLine(sx, second) == Call(id))
    ensures var text := first + "\n" + second + "\n";
            && Straight(sx, LinesOf(text))
               == (if ReadLine(sx, first) == Stop then [] else [Ran(id)] + Replies(sx, id, 0))
            && RunOver(sx, text, steps) && Chunks(steps) == [first + "\n", second + "\n"]
            && Ran(id) in End(sx, START, steps).log && NoReplies(End(sx, START, steps).log)
  {
    hide Behaviour, End, Split, OneLine, Replies, Straight, Finished, Chunks, Concat, NoReplies;
    var a, b := first + "\n", second + "\n";
    steps := RunOfTwo(sx, first, second, id);
    TwoLines(first, second);
    ConcatTwo(a, b);
    StraightOfTwo(sx, first, second, id);
  }

  lemma RunOfTwo(sx: Syntax, first: string, second: string, id: string) returns (steps: seq<Step>)
    requires OneLine(first) && OneLine(second)
    requires (ReadLine(sx, first) == Call(id) && ReadLine(sx, second) == Stop)
          || (ReadLine(sx, first) == Stop && ReadLine(sx, second) == Call(id))
    ensures Behaviour(sx, START, steps) && Finished(End(sx, START, steps))
    ensures Chunks(steps) == [first + "\n", second + "\n"]
    ensures Ran(id) in End(sx, START, steps).log && NoReplies(End(sx, START, steps).log)
  {
    hide Split, RunOn, OneLine, Feed, Behaviour, End, Chunks;
    var a, b := first + "\n", second + "\n";
    var w1 := Next(sx, START, Data(a));
    var w2 := Next(sx, w1, Data(b));
    FeedLine(first);
    FeedLine(second);
    StartOfTwo(sx, first, second, id);
    assert "" + a == a && "" + b == b;
    assert w2.log == [Ran(id)] && !w2.open;
    var rest := CanFinish(sx, w2, 0);
    ClosedStaysSilent(sx, w2, rest);
    steps := [Data(a), Data(b)] + rest;
    ArriveTwo(sx, a, b, rest);
    var log := End(sx, w2, rest).log;
    assert log == [Ran(id)] + log[1..];
  }

  lemma ArriveTwo(sx: Syntax, a: string, b: string, rest: seq<Step>)
    requires Behaviour(sx, Next(sx, Next(sx, START, Data(a)), Data(b)), rest)
    ensures var steps := [Data(a), Data(b)] + rest;
            && Behaviour(sx, START, steps) && Chunks(steps) == [a, b] + Chunks(rest)
            && End(sx, START, steps) == End(sx, Next(sx, Next(sx, START, Data(a)), Data(b)), rest)
  {
    hide Next;
    var steps := [Data(a), Data(b)] + rest;
    assert steps[1..] == [Data(b)] + rest && steps[1..][1..] == rest;
  }

  lemma ConcatTwo(a: string, b: string)
    ensures Concat([a, b]) == a + b
  {
    assert [a, b][1..] == [b] && [b][1..] == [];
    assert Concat([a, b]) == a + Concat([b]) && Concat([b]) == b + Concat([]);
    assert b + [] == b;
  }

  lemma TwoLines(a: string, b: string)
    requires OneLine(a) && OneLine(b)
    ensures LinesOf(a + "\n" + b + "\n") == [a, b]
    ensures a + "\n" + b + "\n" == (a + "\n") + (b + "\n")
  {
    hide Split, OneLine;
    SplitLine(a, b + "\n");
    SplitLine(b, "");
    EmptyIsOneLine();
    SplitLine("", "");
    assert a + "\n" + b + "\n" == a + "\n" + (b + "\n") && b + "\n" == b + "\n" + "";
    assert Split(a + "\n" + b + "\n") == [a, b, ""];
  }

  lemma StartOfTwo(sx: Syntax, first: string, second: string, id: string)
    requires (ReadLine(sx, first) == Call(id) && ReadLine(sx, second) == Stop)
          || (ReadLine(sx, first) == Stop && ReadLine(sx, second) == Call(id))
    ensures var r := RunOn(sx, true, [first]);
            var q := RunOn(sx, r.open, [second]);
            r.acts + q.acts == [Ran(id)] && !q.open
  {
  }

  lemma StraightOfTwo(sx: Syntax, first: string, second: string, id: string)
    requires (ReadLine(sx, first) == Call(id) && ReadLine(sx, second) == Stop)
          || (ReadLine(sx, first) == Stop && ReadLine(sx, second) == Call(id))
    ensures Straight(sx, [first, second]) == if ReadLine(sx, first) == Stop then [] else [Ran(id)] + Replies(sx, id, 0)
  {
    assert [first, second][1..] == [second];
    assert Straight(sx, [first, second])
        == if ReadLine(sx, first) == Stop then [] else LineActs(sx, first) + Straight(sx, [second]);
  }

  // ---------- single lines ----------

  /** An invoke sends its events in order and then its result. */
  lemma {:induction false} RepliesInOrder(sx: Syntax, id: string, sent: nat)
    requires sent <= sx.events(id)
    ensures var replies := Replies(sx, id, sent);
            && |replies| == sx.events(id) - sent + 1
            && (forall n :: 0 <= n < sx.events(id) - sent ==> replies[n] == Sent(Event(id, sent + n)))
            && replies[sx.events(id) - sent] == Sent(Result(id))
    decreases sx.events(id) - sent
  {
    if sent < sx.events(id) {
      RepliesInOrder(sx, id, sent + 1);
    }
  }

  lemma SingleLine(line: string)
    requires OneLine(line)
    ensures LinesOf(line + "\n") == [line]
  {
    hide Split, OneLine;
    SplitLine(line, "");
    EmptyIsOneLine();
    SplitLine("", "");
    assert line + "\n" == line + "\n" + "" && Split(line + "\n") == [line, ""];
  }

  lemma StraightOfOne(sx: Syntax, line: string)
    ensures Straight(sx, [line]) == LineActs(sx, line)
  {
    hide Replies;
    assert [line][1..] == [] && LineActs(sx, line) + [] == LineActs(sx, line);
  }

  /**
   A connection given one line answers a ping with a pong and what does not parse with an error, runs an invoke
   and delivers its replies, and does nothing about a blank line, a shutdown or any other message.
   */
  lemma LineIsAnswered(sx: Syntax, line: string, steps: seq<Step>)
    requires OneLine(line) && RunOver(sx, line + "\n", steps)
    ensures var log := multiset(End(sx, START, steps).log);
            if sx.blank(line) then log == multiset{}
            else match sx.parse(line)
                 case None => log == multiset{Sent(ParseError)}
                 case Some(Ping) => log == multiset{Sent(Pong)}
                 case Some(Invoke(id)) => log == multiset{Ran(id)} + multiset(Replies(sx, id, 0))
                 case Some(Shutdown) => log == multiset{}
                 case Some(Other) => log == multiset{}
  {
    hide Split, OneLine, Replies, RunOver, End, Straight;
    SingleLine(line);
    assert !(HasStop(sx, [line]) && HasCall(sx, [line]));
    RunIsStraight(sx, line + "\n", steps);
    StraightOfOne(sx, line);
    if !sx.blank(line) && sx.parse(line).Some? && sx.parse(line).value.Invoke? {
      var id := sx.parse(line).value.id;
      assert multiset([Ran(id)] + Replies(sx, id, 0)) == multiset{Ran(id)} + multiset(Replies(sx, id, 0));
    }
  }

  // ---------- the objects ----------

  /** A connection: the buffer and the socket its handlers share, and where each of them stands. */
  class Connection {
    const syntax: Syntax
    var buffer: string
    var open: bool   // `end` has not been called on the socket
    var handlers: seq<Handler>
    var log: seq<Act>

    constructor (syntax: Syntax)
      ensures this.syntax == syntax && View() == START
    {
      this.syntax := syntax;
      buffer, open, handlers, log := "", true, [], [];
    }

    ghost function View(): World
      reads this
    {
      World(buffer, open, handlers, log)
    }

    /** `socket.write`. */
    method Write(reply: Reply)
      modifies this`log
      ensures log == old(log) + Written(open, reply)
    {
      if open {
        log := log + [Sent(reply)];
      }
    }

    /** A `data` event: a handler of its own begins with the lines that are now complete. */
    method OnData(chunk: string)
      modifies this
      ensures View() == Next(syntax, old(View()), Data(chunk))
    {
      buffer := buffer + chunk;
      var lines := Split(buffer);
      buffer := lines[|lines| - 1];
      var handler := GoThrough(lines[..|lines| - 1]);
      handlers := handlers + [handler];
    }

    /** The awaited invoke of a handler sends its next message, or the handler goes on with its loop. */
    method Proceed(k: nat)
      requires k < |handlers| && handlers[k] != Done
      modifies this
      ensures View() == Next(syntax, old(View()), Go(k))
    {
      var handler := handlers[k];
      match handler
      case Awaiting(id, sent, rest) =>
        if sent < syntax.events(id) {
          Write(Event(id, sent));
          handlers := handlers[k := Awaiting(id, sent + 1, rest)];
        } else {
          Write(Result(id));
          handlers := handlers[k := Ready(rest)];
        }
      case Ready(rest) =>
        handler := GoThrough(rest);
        handlers := handlers[k := handler];
    }

    /** The loop over the lines of a handler, until it is done or has to await an invoke. */
    method GoThrough(lines: seq<string>) returns (handler: Handler)
      modifies this`open, this`log
      ensures var r := RunOn(syntax, old(open), lines);
              handler == r.handler && open == r.open && log == old(log) + r.acts
    {
      var i := 0;
      ghost var all := RunOn(syntax, open, lines);
      assert lines[0..] == lines;
      while i < |lines|
        invariant 0 <= i <= |lines|
        invariant var r := RunOn(syntax, open, lines[i..]);
                  r.handler == all.handler && r.open == all.open && log + r.acts == old(log) + all.acts
      {
        ghost var rest := RunOn(syntax, open, lines[i + 1..]);
        assert lines[i..][0] == lines[i] && lines[i..][1..] == lines[i + 1..];
        match ReadLine(syntax, lines[i]) {
          case Nothing =>
          case Answer(reply) =>
            Associative(log, Written(open, reply), rest.acts);
            Write(reply);
          case Call(id) =>
            log := log + [Ran(id)];
            return Awaiting(id, 0, lines[i + 1..]);
          case Stop =>
            open := false;
            return Done;
        }
        i := i + 1;
      }
      assert lines[|lines|..] == [];
      return Done;
    }
  }
}
