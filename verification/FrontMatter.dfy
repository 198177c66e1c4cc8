/**
 The archive files of the oracle (apps/ops/routers/oracle.py): a YAML header between `---` lines in front
 of a markdown body, written by `upload_archive` and taken apart again by `_read_frontmatter`.

 The header is kept as text; turning it into a dictionary is YAML's business.
 */
module FrontMatter {
  import opened Wrappers
  import JsonLines

  const CLOSING := "\n---\n"

  predicate OccursAt(s: string, pattern: string, i: nat) {
    i + |pattern| <= |s| && s[i..i + |pattern|] == pattern
  }

  /** `s.find(pattern, start)`. */
  function Find(s: string, pattern: string, start: nat): (r: Option<nat>)
    ensures r.Some? ==> start <= r.value && OccursAt(s, pattern, r.value)
    ensures r.Some? ==> forall i: nat :: start <= i < r.value ==> !OccursAt(s, pattern, i)
    ensures r.None? ==> forall i: nat :: start <= i ==> !OccursAt(s, pattern, i)
    decreases |s| - start
  {
    if start + |pattern| > |s| then None
    else if OccursAt(s, pattern, start) then Some(start)
    else Find(s, pattern, start + 1)
  }

  /** `_read_frontmatter`: the header text, if there is a header, and the body. */
  function ReadFrontmatter(content: string): (Option<string>, string) {
    if !("---" <= content) then (None, content)
    else
      match Find(content, CLOSING, 4)
      case None => (None, content)
      case Some(end) => (Some(content[4..end]), content[end + 5..])
  }

  /** The text `upload_archive` writes for a dumped header, which ends in a newline. */
  function Uploaded(header: string, body: string): string {
    "---\n" + (header + "\n") + "---\n\n" + "\n" + body
  }

  // ---------- a line that is exactly `---` ----------

  /** A line of `text` that reads `---` starts at `i`. */
  ghost predicate DashesAt(text: string, i: nat) {
    && i + 3 <= |text|
    && (i == 0 || text[i - 1] == '\n')
    && text[i] == text[i + 1] == text[i + 2] == '-'
    && (i + 3 == |text| || text[i + 3] == '\n')
  }

  ghost predicate HasDashes(text: string, start: nat) {
    exists i: nat :: start <= i && DashesAt(text, i)
  }

  function FirstNewline(text: string): (i: nat)
    ensures i <= |text|
    ensures JsonLines.OneLine(text[..i])
    ensures i < |text| ==> text[i] == '\n'
  {
    if text == "" || text[0] == '\n' then 0
    else
      var i := FirstNewline(text[1..]);
      assert text[..i + 1] == [text[0]] + text[1..][..i];
      i + 1
  }

  lemma FirstLineDashes(text: string, n: nat)
    requires n < |text| && text[n] == '\n' && JsonLines.OneLine(text[..n])
    ensures DashesAt(text, 0) <==> text[..n] == "---"
    ensures forall i: nat :: 1 <= i <= n ==> !DashesAt(text, i)
  {
    var first := text[..n];
    assert forall i :: 0 <= i < n ==> text[i] == first[i] != '\n';
    if first == "---" {
      assert first[0] == first[1] == first[2] == '-';
    }
    if DashesAt(text, 0) {
      assert n == 3;
      assert first == "---";
    }
  }

  lemma LaterLineDashes(text: string, n: nat, i: nat)
    requires n < |text| && text[n] == '\n'
    ensures DashesAt(text, n + 1 + i) <==> DashesAt(text[n + 1..], i)
  {
    var rest := text[n + 1..];
    assert forall j :: 0 <= j < |rest| ==> rest[j] == text[n + 1 + j];
  }

  /** Past its first line, the lines of a text are the lines of what follows. */
  lemma DashesAfterFirstLine(text: string)
    requires FirstNewline(text) < |text|
    ensures var n := FirstNewline(text);
            && (DashesAt(text, 0) <==> text[..n] == "---")
            && (HasDashes(text, 1) <==> HasDashes(text[n + 1..], 0))
  {
    hide DashesAt, FirstNewline, JsonLines.OneLine;
    var n := FirstNewline(text);
    var rest := text[n + 1..];
    FirstLineDashes(text, n);
    if i: nat :| 1 <= i && DashesAt(text, i) {
      LaterLineDashes(text, n, i - n - 1);
    }
    if i: nat :| DashesAt(rest, i) {
      LaterLineDashes(text, n, i);
    }
  }

  lemma DashesOnOnlyLine(text: string)
    requires FirstNewline(text) == |text|
    ensures HasDashes(text, 0) <==> text == "---"
    ensures !HasDashes(text, 1)
  {
    assert text[..|text|] == text;
    if HasDashes(text, 0) {
      var i: nat :| DashesAt(text, i);
      assert i == 0 && |text| == 3 && text == "---";
    }
    if text == "---" {
      assert DashesAt(text, 0);
    }
  }

  lemma {:induction false} DashesAreALine(text: string)
    ensures HasDashes(text, 0) <==> "---" in JsonLines.Split(text)
    ensures HasDashes(text, 1) <==> "---" in JsonLines.Split(text)[1..]
    decreases |text|
  {
    var n := FirstNewline(text);
    if n == |text| {
      assert text[..n] == text;
      JsonLines.SplitLine(text, "");
      DashesOnOnlyLine(text);
    } else {
      var rest := text[n + 1..];
      assert text == text[..n] + "\n" + rest;
      JsonLines.SplitLine(text[..n], rest);
      assert JsonLines.Split(text)[1..] == JsonLines.Split(rest);
      DashesAreALine(rest);
      DashesAfterFirstLine(text);
      assert HasDashes(text, 0) <==> DashesAt(text, 0) || HasDashes(text, 1);
    }
  }

  // ---------- the round trip ----------

  lemma UploadedShape(header: string, body: string)
    ensures Uploaded(header, body) == "---\n" + header + CLOSING + "\n\n" + body
    ensures "---" <= Uploaded(header, body)
    ensures OccursAt(Uploaded(header, body), CLOSING, 4 + |header|)
    ensures Uploaded(header, body)[4..4 + |header|] == header
    ensures Uploaded(header, body)[4 + |header| + 5..] == "\n\n" + body
  {
    var u := Uploaded(header, body);
    assert u == "---\n" + header + CLOSING + "\n\n" + body;
    assert u[..3] == "---";
  }

  lemma ClosingAt(s: string, i: nat)
    ensures OccursAt(s, CLOSING, i)
       <==> i + 5 <= |s| && s[i] == '\n' && s[i + 1] == s[i + 2] == s[i + 3] == '-' && s[i + 4] == '\n'
  {
    if i + 5 <= |s| {
      var m := s[i..i + 5];
      assert forall j :: 0 <= j < 5 ==> m[j] == s[i + j];
      assert CLOSING[0] == '\n' && CLOSING[1] == '-' && CLOSING[2] == '-' && CLOSING[3] == '-' && CLOSING[4] == '\n';
      assert m == CLOSING <==> forall j :: 0 <= j < 5 ==> m[j] == CLOSING[j];
    }
  }

  lemma MarkIffDashesAt(header: string, body: string, j: nat)
    requires 1 <= j
    ensures DashesAt(header, j) <==> j <= |header| && OccursAt(Uploaded(header, body), CLOSING, 3 + j)
  {
    hide OccursAt;
    UploadedShape(header, body);
    var u := Uploaded(header, body);
    ClosingAt(u, 3 + j);
    ClosingAt(u, 4 + |header|);
    assert forall i :: 0 <= i < |header| ==> u[4 + i] == u[4..4 + |header|][i] == header[i];
    hide Uploaded;
  }

  /** A closing mark before the real one is a later header line that reads `---`. */
  lemma EarlyMarkIffDashes(header: string, body: string)
    ensures (exists i: nat :: 4 <= i < 4 + |header| && OccursAt(Uploaded(header, body), CLOSING, i))
       <==> HasDashes(header, 1)
  {
    hide OccursAt, DashesAt, Uploaded;
    if i: nat :| 4 <= i < 4 + |header| && OccursAt(Uploaded(header, body), CLOSING, i) {
      MarkIffDashesAt(header, body, i - 3);
    }
    if j: nat :| 1 <= j && DashesAt(header, j) {
      MarkIffDashesAt(header, body, j);
    }
  }

  /**
   An uploaded archive reads back as its header and its body (preceded by the two blank-line newlines) if
   and only if no header line after the first is exactly `---`; the body may hold anything.
   */
  lemma RoundTripIff(header: string, body: string)
    ensures ReadFrontmatter(Uploaded(header, body)) == (Some(header), "\n\n" + body)
       <==> "---" !in JsonLines.Split(header)[1..]
  {
    var u := Uploaded(header, body);
    UploadedShape(header, body);
    EarlyMarkIffDashes(header, body);
    DashesAreALine(header);
    var found := Find(u, CLOSING, 4);
    assert found.Some? && found.value <= 4 + |header|;
    assert found.value == 4 + |header| <==> !HasDashes(header, 1);
    assert |u[4..found.value]| == found.value - 4;
  }

  /** A text that does not start with the mark, or never closes it, is all body. */
  lemma NoHeader(content: string)
    ensures ReadFrontmatter(content).0.None?
       <==> !("---" <= content) || forall i: nat :: i >= 4 ==> !OccursAt(content, CLOSING, i)
    ensures ReadFrontmatter(content).0.None? ==> ReadFrontmatter(content).1 == content
  {
  }
}
