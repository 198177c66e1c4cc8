/**
 The sidecar's line protocol (apps/runtime/sidecar/src/index.ts, protocol.ts): a stream of characters cut
 into chunks anywhere and decoded line by line. The text is characters, not bytes.
 */
module JsonLines {
  import opened Wrappers

  // ---------- splitting ----------

  /** `s.split("\n")`. */
  function Split(s: string): (pieces: seq<string>)
    ensures pieces != []
  {
    if s == [] then [[]]
    else
      var rest := Split(s[1..]);
      if s[0] == '\n' then [[]] + rest else [[s[0]] + rest[0]] + rest[1..]
  }

  function Join(pieces: seq<string>): string
    requires pieces != []
  {
    if |pieces| == 1 then pieces[0] else pieces[0] + "\n" + Join(pieces[1..])
  }

  ghost predicate OneLine(s: string) {
    forall i :: 0 <= i < |s| ==> s[i] != '\n'
  }

  ghost predicate OneLiners(pieces: seq<string>) {
    forall i :: 0 <= i < |pieces| ==> OneLine(pieces[i])
  }

  lemma {:induction false} SplitLine(line: string, rest: string)
    requires OneLine(line)
    ensures Split(line) == [line]
    ensures Split(line + "\n" + rest) == [line] + Split(rest)
  {
    var s := line + "\n" + rest;
    if line == [] {
      assert s == "\n" + rest && s[1..] == rest;
    } else {
      SplitLine(line[1..], rest);
      assert s[1..] == line[1..] + "\n" + rest;
      assert [line[0]] + line[1..] == line;
    }
  }

  /** Splitting takes the text apart into newline-free pieces, and joining undoes it. */
  lemma {:induction false} JoinSplit(s: string)
    ensures Join(Split(s)) == s && OneLiners(Split(s))
  {
    if s != [] {
      var rest := Split(s[1..]);
      JoinSplit(s[1..]);
      assert s == [s[0]] + s[1..];
      if s[0] == '\n' {
        assert ([[]] + rest)[1..] == rest;
        assert Split(s) == [[]] + rest;
      } else {
        assert Split(s) == [[s[0]] + rest[0]] + rest[1..];
        hide Split;
        JoinFirst(s[0], rest);
      }
    }
  }

  lemma JoinFirst(c: char, pieces: seq<string>)
    requires pieces != []
    ensures Join([[c] + pieces[0]] + pieces[1..]) == [c] + Join(pieces)
  {
    var longer := [[c] + pieces[0]] + pieces[1..];
    assert longer[1..] == pieces[1..];
    if |pieces| > 1 {
      assert Join(longer) == [c] + pieces[0] + "\n" + Join(pieces[1..]);
    }
  }

  /** They are the only such pieces. */
  lemma {:induction false} SplitJoin(pieces: seq<string>)
    requires pieces != [] && OneLiners(pieces)
    ensures Split(Join(pieces)) == pieces
  {
    if |pieces| == 1 {
      SplitLine(pieces[0], "");
    } else {
      SplitJoin(pieces[1..]);
      SplitLine(pieces[0], Join(pieces[1..]));
    }
  }

  /** Messages as they go over the wire, each followed by a newline. */
  function Wire(messages: seq<string>): string {
    if messages == [] then "" else messages[0] + "\n" + Wire(messages[1..])
  }

  lemma {:induction false} WireOfLines(pieces: seq<string>)
    requires pieces != []
    ensures Wire(pieces[..|pieces| - 1]) + pieces[|pieces| - 1] == Join(pieces)
  {
    if |pieces| > 1 {
      WireOfLines(pieces[1..]);
      assert pieces[..|pieces| - 1][1..] == pieces[1..][..|pieces| - 2];
    }
  }

  lemma {:induction false} JoinAppend(front: seq<string>, pieces: seq<string>)
    requires pieces != []
    ensures Join(front + pieces) == Wire(front) + Join(pieces)
  {
    if front == [] {
      assert front + pieces == pieces;
    } else {
      JoinAppend(front[1..], pieces);
      assert (front + pieces)[1..] == front[1..] + pieces;
      assert Wire(front) + Join(pieces) == front[0] + "\n" + (Wire(front[1..]) + Join(pieces));
    }
  }

  /** Splitting a concatenation: the last piece of the first part runs on into the second. */
  lemma SplitAppend(a: string, b: string)
    ensures var pieces := Split(a);
            Split(a + b) == pieces[..|pieces| - 1] + Split(pieces[|pieces| - 1] + b)
  {
    hide Split, Join, Wire;
    var pieces := Split(a);
    var front, last := pieces[..|pieces| - 1], pieces[|pieces| - 1];
    JoinSplit(a);
    JoinSplit(last + b);
    WireOfLines(pieces);
    JoinAppend(front, Split(last + b));
    assert Wire(front) + (last + b) == a + b;
    SplitJoin(front + Split(last + b));
  }

  // ---------- the streaming decoder ----------

  /** One `data` event: the complete lines, and what stays in the buffer. */
  function Feed(buffer: string, chunk: string): (seq<string>, string) {
    var pieces := Split(buffer + chunk);
    (pieces[..|pieces| - 1], pieces[|pieces| - 1])
  }

  /** The batches of lines the events produce, one per chunk, and the final buffer. */
  function FeedAll(buffer: string, chunks: seq<string>): (seq<seq<string>>, string)
    decreases |chunks|
  {
    if chunks == [] then ([], buffer)
    else
      var (lines, rest) := Feed(buffer, chunks[0]);
      var (batches, final) := FeedAll(rest, chunks[1..]);
      ([lines] + batches, final)
  }

  function Concat<T>(parts: seq<seq<T>>): seq<T> {
    if parts == [] then [] else parts[0] + Concat(parts[1..])
  }

  lemma {:induction false} FeedAllSplits(buffer: string, chunks: seq<string>)
    requires OneLine(buffer)
    ensures var (batches, final) := FeedAll(buffer, chunks);
            Concat(batches) + [final] == Split(buffer + Concat(chunks)) && OneLine(final)
    decreases |chunks|
  {
    hide Split;
    if chunks == [] {
      SplitLine(buffer, "");
      assert buffer + Concat(chunks) == buffer;
    } else {
      var (lines, rest) := Feed(buffer, chunks[0]);
      var (batches, final) := FeedAll(rest, chunks[1..]);
      var later := Concat(chunks[1..]);
      JoinSplit(buffer + chunks[0]);
      FeedAllSplits(rest, chunks[1..]);
      SplitAppend(buffer + chunks[0], later);
      assert buffer + chunks[0] + later == buffer + Concat(chunks);
      assert Concat([lines] + batches) == lines + Concat(batches) by { ConcatCons(lines, batches); }
      assert lines + (Concat(batches) + [final]) == lines + Concat(batches) + [final];
    }
  }

  lemma ConcatCons<T>(x: seq<T>, parts: seq<seq<T>>)
    ensures Concat([x] + parts) == x + Concat(parts)
  {
    assert ([x] + parts)[1..] == parts;
  }

  /** However a text is cut into chunks, the lines emitted and the buffer are the text split at newlines. */
  lemma ChunkingIsIrrelevant(chunks: seq<string>)
    ensures var (batches, final) := FeedAll("", chunks);
            Concat(batches) + [final] == Split(Concat(chunks))
  {
    FeedAllSplits("", chunks);
    assert "" + Concat(chunks) == Concat(chunks);
  }

  lemma {:induction false} SplitWire(messages: seq<string>, tail: string)
    requires OneLiners(messages)
    ensures Split(Wire(messages) + tail) == messages + Split(tail)
  {
    if messages == [] {
      assert Wire(messages) + tail == tail;
    } else {
      var first, rest := messages[0], messages[1..];
      SplitWire(rest, tail);
      SplitLine(first, Wire(rest) + tail);
      Associative(first + "\n", Wire(rest), tail);
      hide Split, OneLine, Wire;
      Associative([first], rest, Split(tail));
      assert messages == [first] + rest;
    }
  }

  /** Newline-free messages are recovered exactly, in order, with nothing left over. */
  lemma MessagesRoundTrip(messages: seq<string>, chunks: seq<string>)
    requires OneLiners(messages) && Concat(chunks) == Wire(messages)
    ensures var (batches, final) := FeedAll("", chunks);
            Concat(batches) == messages && final == ""
  {
    ChunkingIsIrrelevant(chunks);
    SplitWire(messages, "");
    assert Wire(messages) + "" == Wire(messages);
    var (batches, final) := FeedAll("", chunks);
    assert Concat(batches) + [final] == messages + [[]];
    assert (Concat(batches) + [final])[..|messages|] == messages;
  }

  // ---------- small facts ----------

  lemma TailOfAppend<T>(a: seq<T>, b: seq<T>)
    requires a != []
    ensures (a + b)[0] == a[0] && (a + b)[1..] == a[1..] + b
  {
  }

  lemma Associative<T>(a: seq<T>, b: seq<T>, c: seq<T>)
    ensures a + (b + c) == a + b + c
  {
  }

  lemma FeedLine(line: string)
    requires OneLine(line)
    ensures Feed("", line + "\n") == ([line], "")
  {
    SplitLine(line, "");
    assert "" + (line + "\n") == line + "\n" + "";
  }

  /** One chunk per line. */
  function LineByLine(lines: seq<string>): seq<string> {
    if lines == [] then [] else [lines[0] + "\n"] + LineByLine(lines[1..])
  }

  lemma {:induction false} LineByLineJoins(lines: seq<string>, tail: seq<string>)
    ensures Concat(LineByLine(lines) + tail) == Wire(lines) + Concat(tail)
  {
    var chunks := LineByLine(lines) + tail;
    if lines == [] {
      assert chunks == tail;
    } else {
      LineByLineJoins(lines[1..], tail);
      assert chunks[0] == lines[0] + "\n" && chunks[1..] == LineByLine(lines[1..]) + tail;
      Associative(chunks[0], Wire(lines[1..]), Concat(tail));
    }
  }

  lemma FeedAllCons(buffer: string, chunk: string, chunks: seq<string>)
    ensures var (lines, rest) := Feed(buffer, chunk);
            FeedAll(buffer, [chunk] + chunks) == ([lines] + FeedAll(rest, chunks).0, FeedAll(rest, chunks).1)
  {
    assert ([chunk] + chunks)[1..] == chunks;
  }

  lemma EmptyIsOneLine()
    ensures OneLine("")
  {
  }
}
