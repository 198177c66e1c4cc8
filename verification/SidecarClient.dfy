/**
 The client's side of a request (apps/runtime/piagent_sidecar_client.py): read replies line by line until
 the result or the error of its own request arrives.
 */
module SidecarClient {
  import opened Wrappers
  import opened JsonLines

  datatype Reply = Reply(requestId: string, kind: string, payload: string)

  datatype ClientError = SocketClosed | BadJson | AgentError(payload: string)

  /** `StreamReader.readline`: up to and including the newline, or what is left of the stream. */
  function NextLine(s: string): (r: (string, string))
    ensures r.0 + r.1 == s
    ensures s != "" ==> r.0 != ""
  {
    if s == "" then ("", "")
    else if s[0] == '\n' then (s[..1], s[1..])
    else
      var (line, rest) := NextLine(s[1..]);
      assert line + rest == s[1..];
      ([s[0]] + line, rest)
  }

  /** The wait of `invoke` over everything the socket delivers before it closes. */
  function Await(parse: string -> Option<Reply>, stream: string, id: string): Result<Reply, ClientError>
    decreases |stream|
  {
    var (line, rest) := NextLine(stream);
    if line == "" then Err(SocketClosed)
    else
      match parse(line)
      case None => Err(BadJson)
      case Some(reply) =>
        if reply.requestId != id then Await(parse, rest, id)
        else if reply.kind == "result" then Ok(reply)
        else if reply.kind == "error" then Err(AgentError(reply.payload))
        else Await(parse, rest, id)
  }

  class StreamReader {
    var pending: string

    constructor (stream: string)
      ensures pending == stream
    {
      pending := stream;
    }

    method ReadLine() returns (line: string)
      modifies this
      ensures (line, pending) == NextLine(old(pending))
    {
      var r := NextLine(pending);
      line, pending := r.0, r.1;
    }
  }

  method Invoke(reader: StreamReader, parse: string -> Option<Reply>, id: string)
    returns (r: Result<Reply, ClientError>)
    modifies reader
    ensures r == Await(parse, old(reader.pending), id)
  {
    ghost var before := reader.pending;
    while true
      invariant Await(parse, reader.pending, id) == Await(parse, before, id)
      decreases |reader.pending|
    {
      var line := reader.ReadLine();
      if line == "" {
        return Err(SocketClosed);
      }
      var parsed := parse(line);
      if parsed.None? {
        return Err(BadJson);
      }
      var reply := parsed.value;
      if reply.requestId != id {
        continue;
      }
      if reply.kind == "result" {
        return Ok(reply);
      } else if reply.kind == "error" {
        return Err(AgentError(reply.payload));
      }
    }
  }

  // ---------- replies on the wire ----------

  /** Serialised replies hold no raw newline (section 7 of RFC 8259) and parse back, newline or not. */
  ghost predicate IsCodec(serialize: Reply -> string, parse: string -> Option<Reply>) {
    forall m :: OneLine(serialize(m)) && parse(serialize(m) + "\n") == Some(m)
  }

  function Lines(serialize: Reply -> string, replies: seq<Reply>): seq<string> {
    if replies == [] then [] else [serialize(replies[0])] + Lines(serialize, replies[1..])
  }

  predicate IsAnswer(m: Reply, id: string) {
    m.requestId == id && (m.kind == "result" || m.kind == "error")
  }

  function Outcome(m: Reply): Result<Reply, ClientError> {
    if m.kind == "result" then Ok(m) else Err(AgentError(m.payload))
  }

  lemma {:induction false} NextLineTakes(line: string, rest: string)
    requires OneLine(line)
    ensures NextLine(line + "\n" + rest) == (line + "\n", rest)
  {
    var s := line + "\n" + rest;
    if line == "" {
      assert s == "\n" + rest && s[..1] == "\n" && s[1..] == rest;
    } else {
      NextLineTakes(line[1..], rest);
      assert s[1..] == line[1..] + "\n" + rest;
      assert [line[0]] + (line[1..] + "\n") == line + "\n";
    }
  }

  ghost predicate IsFirstAnswer(replies: seq<Reply>, id: string, i: nat) {
    i < |replies| && IsAnswer(replies[i], id) && forall j :: 0 <= j < i ==> !IsAnswer(replies[j], id)
  }

  /** The client gets the first result or error for its request, whatever else arrives before it. */
  lemma {:induction false} AwaitFindsFirstAnswer(serialize: Reply -> string, parse: string -> Option<Reply>,
                                                 replies: seq<Reply>, tail: string, id: string, i: nat)
    requires IsCodec(serialize, parse) && IsFirstAnswer(replies, id, i)
    ensures Await(parse, Wire(Lines(serialize, replies)) + tail, id) == Outcome(replies[i])
    decreases i
  {
    SkipOne(serialize, parse, replies, tail, id);
    if i > 0 {
      assert !IsAnswer(replies[0], id);
      assert IsFirstAnswer(replies[1..], id, i - 1);
      AwaitFindsFirstAnswer(serialize, parse, replies[1..], tail, id, i - 1);
    }
  }

  lemma SkipOne(serialize: Reply -> string, parse: string -> Option<Reply>, replies: seq<Reply>, tail: string,
                id: string)
    requires IsCodec(serialize, parse) && replies != []
    ensures Await(parse, Wire(Lines(serialize, replies)) + tail, id)
         == if IsAnswer(replies[0], id) then Outcome(replies[0])
            else Await(parse, Wire(Lines(serialize, replies[1..])) + tail, id)
  {
    var line := serialize(replies[0]);
    var rest := Wire(Lines(serialize, replies[1..])) + tail;
    var stream := Wire(Lines(serialize, replies)) + tail;
    assert Lines(serialize, replies)[1..] == Lines(serialize, replies[1..]);
    assert stream == line + "\n" + rest;
    NextLineTakes(line, rest);
  }

  /** If the socket closes first, the client reports that. */
  lemma {:induction false} AwaitReportsClosure(serialize: Reply -> string, parse: string -> Option<Reply>,
                                               replies: seq<Reply>, id: string)
    requires IsCodec(serialize, parse) && forall i :: 0 <= i < |replies| ==> !IsAnswer(replies[i], id)
    ensures Await(parse, Wire(Lines(serialize, replies)), id) == Err(SocketClosed)
  {
    if replies != [] {
      SkipOne(serialize, parse, replies, "", id);
      assert Wire(Lines(serialize, replies)) + "" == Wire(Lines(serialize, replies));
      assert Wire(Lines(serialize, replies[1..])) + "" == Wire(Lines(serialize, replies[1..]));
      AwaitReportsClosure(serialize, parse, replies[1..], id);
    }
  }

  function Own(replies: seq<Reply>, id: string): seq<Reply> {
    if replies == [] then []
    else if replies[0].requestId == id then [replies[0]] + Own(replies[1..], id)
    else Own(replies[1..], id)
  }

  /** Replies to other requests, however interleaved, do not change what the client gets. */
  lemma {:induction false} OthersDoNotMatter(serialize: Reply -> string, parse: string -> Option<Reply>,
                                             replies: seq<Reply>, tail: string, id: string)
    requires IsCodec(serialize, parse)
    ensures Await(parse, Wire(Lines(serialize, replies)) + tail, id)
         == Await(parse, Wire(Lines(serialize, Own(replies, id))) + tail, id)
  {
    if replies != [] {
      SkipOne(serialize, parse, replies, tail, id);
      OthersDoNotMatter(serialize, parse, replies[1..], tail, id);
      if replies[0].requestId == id {
        var own := Own(replies, id);
        assert own[1..] == Own(replies[1..], id);
        SkipOne(serialize, parse, own, tail, id);
      }
    }
  }

  /** A line that is not JSON ends the wait with an error, whatever would follow. */
  lemma {:induction false} AwaitStopsAtGarbage(serialize: Reply -> string, parse: string -> Option<Reply>,
                                               replies: seq<Reply>, line: string, tail: string, id: string)
    requires IsCodec(serialize, parse) && OneLine(line) && parse(line + "\n").None?
    requires forall i :: 0 <= i < |replies| ==> !IsAnswer(replies[i], id)
    ensures Await(parse, Wire(Lines(serialize, replies)) + (line + "\n" + tail), id) == Err(BadJson)
  {
    var rest := line + "\n" + tail;
    if replies == [] {
      assert Wire(Lines(serialize, replies)) + rest == rest;
      NextLineTakes(line, tail);
    } else {
      SkipOne(serialize, parse, replies, rest, id);
      AwaitStopsAtGarbage(serialize, parse, replies[1..], line, tail, id);
    }
  }

  /** What is left of the stream when it ends within a line is read as a line of its own. */
  lemma {:induction false} LastLineNeedsNoNewline(line: string)
    requires OneLine(line)
    ensures NextLine(line) == (line, "")
  {
    if line != "" {
      LastLineNeedsNoNewline(line[1..]);
      assert [line[0]] + line[1..] == line;
    }
  }
}
