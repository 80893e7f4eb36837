/** An ADR file: what the parser reads from it line by line, and the text that is written back. YAML is a codec of
    which the model only knows what it does to frontmatter it wrote itself. */
module Document {
  import opened Wrappers

  datatype Status = Proposed | Accepted | Rejected | Superseded | Deprecated | Reserved | Other(text: string)

  datatype Frontmatter = Frontmatter(
    id: string, title: string, status: Status, date: string, plan: string, tags: seq<string>,
    supersededBy: string, supersedes: seq<string>, relatesTo: seq<string>, deciders: seq<string>,
    consulted: seq<string>, informed: seq<string>, riskLevel: string)

  const EMPTY := Frontmatter("", "", Other(""), "", "", [], "", [], [], [], [], [], "")

  datatype Adr = Adr(fm: Frontmatter, body: string)

  datatype Parsed = Ok(adr: Adr) | MissingClose | BadYaml

  datatype Codec = Codec(encode: Frontmatter -> string, decode: string -> Option<Frontmatter>)

  // ----- Lines -----

  /** The length of the first line, without its newline. */
  function LineEnd(s: string): (n: nat)
    ensures n <= |s| && (n < |s| ==> s[n] == '\n') && '\n' !in s[..n]
  {
    if s == "" || s[0] == '\n' then 0
    else
      var n := 1 + LineEnd(s[1..]);
      assert s[..n] == [s[0]] + s[1..][..n - 1];
      n
  }

  /** One carriage return at the end of a line is taken for part of the line break. */
  function DropCR(line: string): string
  {
    if line != "" && line[|line| - 1] == '\r' then line[..|line| - 1] else line
  }

  /** The lines a scanner delivers: an unterminated last line counts, an empty one does not. */
  function Lines(s: string): seq<string>
    decreases |s|
  {
    if s == "" then []
    else
      var n := LineEnd(s);
      [DropCR(s[..n])] + if n < |s| then Lines(s[n + 1..]) else []
  }

  function Unlines(lines: seq<string>): string
  {
    if lines == [] then "" else lines[0] + "\n" + Unlines(lines[1..])
  }

  predicate Blank(c: char) { c == ' ' || c == '\t' || c == '\r' }

  function TrimRight(line: string): string
  {
    if line != "" && Blank(line[|line| - 1]) then TrimRight(line[..|line| - 1]) else line
  }

  const FENCE := "---"

  predicate IsFence(line: string) { TrimRight(line) == FENCE }

  predicate IsBlank(line: string) { TrimRight(line) == "" }

  // ----- Parsing -----

  function FirstWritten(lines: seq<string>): (n: nat)
    ensures n <= |lines| && (n < |lines| ==> !IsBlank(lines[n]))
    ensures forall i :: 0 <= i < n ==> IsBlank(lines[i])
  {
    if lines == [] || !IsBlank(lines[0]) then 0 else 1 + FirstWritten(lines[1..])
  }

  function FirstFence(lines: seq<string>): (n: nat)
    ensures n <= |lines| && (n < |lines| ==> IsFence(lines[n]))
    ensures forall i :: 0 <= i < n ==> !IsFence(lines[i])
  {
    if lines == [] || IsFence(lines[0]) then 0 else 1 + FirstFence(lines[1..])
  }

  /** The document after its opening fence. */
  function Fenced(codec: Codec, rest: seq<string>): Parsed
  {
    var j := FirstFence(rest);
    if j == |rest| then MissingClose
    else if j == 0 then Ok(Adr(EMPTY, Unlines(rest[1..])))
    else
      match codec.decode(Unlines(rest[..j]))
      case None => BadYaml
      case Some(fm) => Ok(Adr(fm, Unlines(rest[j + 1..])))
  }

  function ParsedLines(codec: Codec, lines: seq<string>): Parsed
  {
    var k := FirstWritten(lines);
    if k == |lines| then Ok(Adr(EMPTY, ""))
    else if !IsFence(lines[k]) then Ok(Adr(EMPTY, Unlines(lines)))
    else Fenced(codec, lines[k + 1..])
  }

  function Parse(codec: Codec, content: string): Parsed { ParsedLines(codec, Lines(content)) }

  lemma {:induction false} UnlinesAppend(xs: seq<string>, ys: seq<string>)
    ensures Unlines(xs + ys) == Unlines(xs) + Unlines(ys)
  {
    if xs == [] {
      assert xs + ys == ys;
    } else {
      UnlinesAppend(xs[1..], ys);
      assert (xs + ys)[1..] == xs[1..] + ys;
    }
  }

  lemma UnlinesOne(line: string)
    ensures Unlines([line]) == line + "\n"
  {
    assert [line][1..] == [];
  }

  lemma {:induction false} FirstWrittenAt(lines: seq<string>, n: nat)
    requires n <= |lines| && (n < |lines| ==> !IsBlank(lines[n])) && forall i :: 0 <= i < n ==> IsBlank(lines[i])
    ensures FirstWritten(lines) == n
  {
  }

  lemma {:induction false} FirstFenceAt(lines: seq<string>, n: nat)
    requires n <= |lines| && (n < |lines| ==> IsFence(lines[n])) && forall i :: 0 <= i < n ==> !IsFence(lines[i])
    ensures FirstFence(lines) == n
  {
  }

  /** The remaining lines of the scanner, each with a newline. */
  method ReadRest(lines: seq<string>, from: nat) returns (text: string)
    requires from <= |lines|
    ensures text == Unlines(lines[from..])
  {
    text := "";
    var i := from;
    while i < |lines|
      invariant from <= i <= |lines|
      invariant text == Unlines(lines[from..i])
    {
      text := text + lines[i] + "\n";
      assert lines[from..i + 1] == lines[from..i] + [lines[i]];
      UnlinesAppend(lines[from..i], [lines[i]]);
      UnlinesOne(lines[i]);
      i := i + 1;
    }
    assert lines[from..i] == lines[from..];
  }

  /** Reads up to the first line with anything on it. */
  method ReadPreamble(lines: seq<string>) returns (preamble: seq<string>, first: string)
    ensures |preamble| <= |lines| && preamble == lines[..|preamble|]
    ensures first == "" <==> FirstWritten(lines) == |lines|
    ensures first != "" ==>
              |preamble| == FirstWritten(lines) + 1 <= |lines| && first == TrimRight(lines[|preamble| - 1])
  {
    preamble, first := [], "";
    while |preamble| < |lines|
      invariant |preamble| <= |lines| && preamble == lines[..|preamble|] && first == ""
      invariant forall j :: 0 <= j < |preamble| ==> IsBlank(lines[j])
      decreases |lines| - |preamble|
    {
      var line := lines[|preamble|];
      preamble := preamble + [line];
      first := TrimRight(line);
      if first != "" {
        FirstWrittenAt(lines, |preamble| - 1);
        return;
      }
    }
    FirstWrittenAt(lines, |lines|);
  }

  /** Reads up to the closing fence, which is the last line consumed if it is found. */
  method ReadYaml(lines: seq<string>, from: nat) returns (yaml: seq<string>, closed: bool)
    requires from <= |lines|
    ensures |yaml| == FirstFence(lines[from..]) && yaml == lines[from..][..|yaml|]
    ensures closed <==> |yaml| < |lines| - from
  {
    yaml, closed := [], false;
    ghost var rest := lines[from..];
    while from + |yaml| < |lines|
      invariant |yaml| <= |rest| && yaml == rest[..|yaml|]
      invariant forall j :: 0 <= j < |yaml| ==> !IsFence(rest[j])
      decreases |rest| - |yaml|
    {
      var line := lines[from + |yaml|];
      assert line == rest[|yaml|];
      if TrimRight(line) == FENCE {
        FirstFenceAt(rest, |yaml|);
        return yaml, true;
      }
      yaml := yaml + [line];
    }
    FirstFenceAt(rest, |yaml|);
  }

  method ParseFenced(codec: Codec, lines: seq<string>, from: nat) returns (r: Parsed)
    requires from <= |lines|
    ensures r == Fenced(codec, lines[from..])
  {
    var yaml, closed := ReadYaml(lines, from);
    if !closed {
      return MissingClose;
    }
    var body := ReadRest(lines, from + |yaml| + 1);
    assert lines[from..][|yaml| + 1..] == lines[from + |yaml| + 1..];
    var fm := EMPTY;
    if |yaml| > 0 {
      var raw := ReadRest(yaml, 0);
      var decoded := codec.decode(raw);
      if decoded.None? {
        return BadYaml;
      }
      fm := decoded.value;
    }
    return Ok(Adr(fm, body));
  }

  method ParseLines(codec: Codec, lines: seq<string>) returns (r: Parsed)
    ensures r == ParsedLines(codec, lines)
  {
    var preamble, first := ReadPreamble(lines);
    if first == "" {
      return Ok(Adr(EMPTY, ""));
    }
    var i := |preamble|;
    if first != FENCE {
      var text := ReadRest(preamble, 0);
      var more := ReadRest(lines, i);
      UnlinesAppend(lines[..i], lines[i..]);
      assert lines[..i] + lines[i..] == lines;
      return Ok(Adr(EMPTY, text + more));
    }
    r := ParseFenced(codec, lines, i);
  }

  // ----- What is written -----

  function Compose(codec: Codec, fm: Frontmatter, body: string): string
  {
    "---\n" + codec.encode(fm) + "---\n" + body
  }

  predicate Terminated(s: string) { s == "" || s[|s| - 1] == '\n' }

  predicate NoLineCR(s: string) { forall i :: 0 < i < |s| && s[i] == '\n' ==> s[i - 1] != '\r' }

  /** What the model knows of the codec: it reads back what it wrote, and writes whole lines, with plain line breaks,
      none of which could be taken for the closing fence. */
  ghost predicate Faithful(codec: Codec)
  {
    forall fm: Frontmatter :: FaithfulOn(codec, fm, codec.encode(fm))
  }

  ghost predicate FaithfulOn(codec: Codec, fm: Frontmatter, text: string)
  {
    && codec.decode(text) == Some(fm) && text != "" && Terminated(text) && NoLineCR(text)
    && forall i :: 0 <= i < |Lines(text)| ==> !IsFence(Lines(text)[i])
  }

  /** A body as it comes back from the parser. */
  function Norm(body: string): string { Unlines(Lines(body)) }

  lemma {:induction false} LineEndAt(s: string, n: nat)
    requires n <= |s| && (n < |s| ==> s[n] == '\n') && '\n' !in s[..n]
    ensures LineEnd(s) == n
  {
    if n > 0 {
      assert s[..n] == [s[0]] + s[1..][..n - 1];
      LineEndAt(s[1..], n - 1);
    }
  }

  lemma LinesFirst(line: string, rest: string)
    requires '\n' !in line
    ensures Lines(line + "\n" + rest) == [DropCR(line)] + Lines(rest)
  {
    var s := line + "\n" + rest;
    assert s[..|line|] == line && s[|line| + 1..] == rest;
    LineEndAt(s, |line|);
  }

  lemma Regroup<T>(a: seq<T>, b: seq<T>, c: seq<T>)
    ensures a + b + c == a + (b + c)
  {
  }

  lemma LinesRegroup(line: string, rest: string, more: string)
    requires '\n' !in line && Lines(rest + more) == Lines(rest) + Lines(more)
    ensures Lines(line + "\n" + rest + more) == Lines(line + "\n" + rest) + Lines(more)
  {
    Regroup(line + "\n", rest, more);
    LinesFirst(line, rest);
    LinesFirst(line, rest + more);
    Regroup([DropCR(line)], Lines(rest), Lines(more));
  }

  /** Splitting at a line break splits the lines. */
  lemma {:induction false} LinesAppend(a: string, b: string)
    requires Terminated(a)
    ensures Lines(a + b) == Lines(a) + Lines(b)
    decreases |a|
  {
    if a == "" {
      assert a + b == b;
    } else {
      var n := LineEnd(a);
      LineBreakFound(a);
      LinesAppend(a[n + 1..], b);
      LinesRegroup(a[..n], a[n + 1..], b);
      AtBreak(a, n);
    }
  }

  lemma LineBreakFound(a: string)
    requires Terminated(a) && a != ""
    ensures LineEnd(a) < |a| && Terminated(a[LineEnd(a) + 1..])
  {
    assert a[..|a|][|a| - 1] == a[|a| - 1];
  }

  lemma LastLineChanges(body: string)
    requires body != "" && '\n' !in body
    ensures Norm(body) != body && !Terminated(body)
    ensures |Norm(body)| <= |body| + 1 && Terminated(Norm(body))
  {
    LineEndAt(body, |body|);
    assert body[..|body|] == body;
    assert Lines(body) == [DropCR(body)];
    UnlinesOne(DropCR(body));
    var norm := DropCR(body) + "\n";
    assert Norm(body) == norm && norm[|norm| - 1] == '\n' && body[|body| - 1] in body;
  }

  lemma FirstLineKept(line: string, rest: string)
    requires '\n' !in line
    ensures Norm(line + "\n" + rest) == line + "\n" + rest <==> DropCR(line) == line && Norm(rest) == rest
  {
    NormFirst(line, rest);
    var n, body, norm := |line|, line + "\n" + rest, DropCR(line) + "\n" + Norm(rest);
    if DropCR(line) == line {
      assert norm[n + 1..] == Norm(rest) && body[n + 1..] == rest;
    } else {
      assert norm[n - 1] == '\n' && body[n - 1] == '\r';
    }
  }

  ghost predicate KeptExactlyWhenPlain(body: string)
  {
    && (Norm(body) == body <==> Terminated(body) && NoLineCR(body))
    && |Norm(body)| <= |body| + 1 && Terminated(Norm(body))
  }

  lemma KeptFromRest(line: string, rest: string)
    requires '\n' !in line && KeptExactlyWhenPlain(rest)
    ensures KeptExactlyWhenPlain(line + "\n" + rest)
  {
    FirstLineKept(line, rest);
    NormFirst(line, rest);
    TerminatedFirst(line, rest);
    TerminatedFirst(DropCR(line), Norm(rest));
    NoLineCRFirst(line, rest);
  }

  lemma AtBreak(body: string, n: nat)
    requires n < |body| && body[n] == '\n'
    ensures body == body[..n] + "\n" + body[n + 1..]
  {
  }

  lemma {:induction false} EveryBody(body: string)
    ensures KeptExactlyWhenPlain(body)
    decreases |body|
  {
    var n := LineEnd(body);
    if n < |body| {
      EveryBody(body[n + 1..]);
      KeptFromRest(body[..n], body[n + 1..]);
      AtBreak(body, n);
    } else if body != "" {
      assert body[..n] == body;
      LastLineChanges(body);
    }
  }

  /** The body comes back unchanged exactly when its lines are all terminated, and by a plain newline. */
  lemma BodyKeptExactlyWhen(body: string)
    ensures Norm(body) == body <==> Terminated(body) && NoLineCR(body)
    ensures |Norm(body)| <= |body| + 1 && Terminated(Norm(body))
  {
    EveryBody(body);
  }

  lemma NormFirst(line: string, rest: string)
    requires '\n' !in line
    ensures Norm(line + "\n" + rest) == DropCR(line) + "\n" + Norm(rest)
  {
    LinesFirst(line, rest);
    assert ([DropCR(line)] + Lines(rest))[1..] == Lines(rest);
  }

  lemma TerminatedFirst(line: string, rest: string)
    ensures Terminated(line + "\n" + rest) <==> Terminated(rest)
  {
    if rest != "" {
      var s := line + "\n" + rest;
      assert s[|s| - 1] == rest[|rest| - 1];
    }
  }

  lemma NoLineCRFirst(line: string, rest: string)
    requires '\n' !in line
    ensures NoLineCR(line + "\n" + rest) <==> DropCR(line) == line && NoLineCR(rest)
  {
    var s, n := line + "\n" + rest, |line|;
    assert forall i :: 0 <= i < |rest| ==> s[n + 1 + i] == rest[i];
    assert s[n] == '\n' && (n > 0 ==> s[n - 1] == line[n - 1]);
    assert forall i :: 0 <= i < n ==> s[i] == line[i];
    if DropCR(line) == line && NoLineCR(rest) {
      forall i | 0 < i < |s| && s[i] == '\n'
        ensures s[i - 1] != '\r'
      {
        if i > n + 1 {
          assert rest[i - n - 1] == '\n';
        }
      }
    }
    if NoLineCR(s) {
      forall i | 0 < i < |rest| && rest[i] == '\n'
        ensures rest[i - 1] != '\r'
      {
        assert s[n + 1 + i] == '\n' && s[n + i] == rest[i - 1];
      }
    }
  }

  lemma ComposedLines(codec: Codec, fm: Frontmatter, body: string)
    requires Terminated(codec.encode(fm))
    ensures Lines(Compose(codec, fm, body)) == [FENCE] + (Lines(codec.encode(fm)) + ([FENCE] + Lines(body)))
  {
    var yaml := codec.encode(fm);
    var tail := "---" + "\n" + body;
    assert Compose(codec, fm, body) == "---" + "\n" + (yaml + tail);
    FenceFacts();
    LinesFirst(FENCE, yaml + tail);
    LinesAppend(yaml, tail);
    LinesFirst(FENCE, body);
  }

  lemma FencedLines(codec: Codec, inner: seq<string>, rest: seq<string>)
    requires inner != [] && forall i :: 0 <= i < |inner| ==> !IsFence(inner[i])
    ensures ParsedLines(codec, [FENCE] + (inner + ([FENCE] + rest)))
            == match codec.decode(Unlines(inner)) case None => BadYaml case Some(fm) => Ok(Adr(fm, Unlines(rest)))
  {
    var tail := inner + ([FENCE] + rest);
    var lines := [FENCE] + tail;
    FenceFacts();
    FirstWrittenAt(lines, 0);
    FirstFenceAt(tail, |inner|);
    assert lines[1..] == tail && tail[..|inner|] == inner && tail[|inner| + 1..] == rest;
  }

  /** Parsing what was composed gives back the frontmatter and the body, whatever they are. */
  lemma RoundTrip(codec: Codec, fm: Frontmatter, body: string)
    requires Faithful(codec)
    ensures Parse(codec, Compose(codec, fm, body)) == Ok(Adr(fm, Norm(body)))
  {
    var yaml := codec.encode(fm);
    assert FaithfulOn(codec, fm, yaml);
    BodyKeptExactlyWhen(yaml);
    ComposedLines(codec, fm, body);
    FencedLines(codec, Lines(yaml), Lines(body));
  }

  // ----- What else can be in a file -----

  ghost predicate AllBlank(text: string) { forall i :: 0 <= i < |Lines(text)| ==> IsBlank(Lines(text)[i]) }

  ghost predicate NoFence(text: string) { forall i :: 0 <= i < |Lines(text)| ==> !IsFence(Lines(text)[i]) }

  /** A file without a fence is all body, and one with nothing on its lines has none. */
  lemma WithoutFrontmatter(codec: Codec, text: string)
    requires NoFence(text)
    ensures Parse(codec, text) == Ok(Adr(EMPTY, if AllBlank(text) then "" else Norm(text)))
  {
    if AllBlank(text) {
      FirstWrittenAt(Lines(text), |Lines(text)|);
    }
  }

  lemma FenceAfterBlanks(codec: Codec, blanks: seq<string>, rest: seq<string>)
    requires forall i :: 0 <= i < |blanks| ==> IsBlank(blanks[i])
    ensures ParsedLines(codec, blanks + ([FENCE] + rest)) == Fenced(codec, rest)
  {
    var lines, n := blanks + ([FENCE] + rest), |blanks|;
    FenceFacts();
    assert lines[n] == FENCE && lines[n + 1..] == rest;
    FirstWrittenAt(lines, n);
  }

  /** Blank lines before the opening fence do not matter. */
  lemma OpenedLines(codec: Codec, lead: string, rest: string)
    requires Terminated(lead) && AllBlank(lead)
    ensures Parse(codec, lead + ("---\n" + rest)) == Fenced(codec, Lines(rest))
  {
    var tail := "---" + "\n" + rest;
    assert "---\n" + rest == tail;
    FenceFacts();
    LinesFirst(FENCE, rest);
    LinesAppend(lead, tail);
    FenceAfterBlanks(codec, Lines(lead), Lines(rest));
  }

  /** A fence is three dashes with nothing but blanks after them. */
  lemma {:induction false} FenceExactlyWhen(line: string)
    ensures IsFence(line) <==> |line| >= 3 && line[..3] == FENCE && forall i :: 3 <= i < |line| ==> Blank(line[i])
    ensures IsBlank(line) <==> forall i :: 0 <= i < |line| ==> Blank(line[i])
  {
    if line != "" {
      FenceExactlyWhen(line[..|line| - 1]);
    }
  }

  lemma Unclosed(codec: Codec, lead: string, yaml: string)
    requires Terminated(lead) && AllBlank(lead) && NoFence(yaml)
    ensures Parse(codec, lead + ("---\n" + yaml)) == MissingClose
  {
    OpenedLines(codec, lead, yaml);
    FirstFenceAt(Lines(yaml), |Lines(yaml)|);
  }

  lemma ClosedLines(codec: Codec, yaml: seq<string>, rest: seq<string>)
    requires forall i :: 0 <= i < |yaml| ==> !IsFence(yaml[i])
    ensures Fenced(codec, yaml + ([FENCE] + rest))
            == if yaml == [] then Ok(Adr(EMPTY, Unlines(rest)))
               else match codec.decode(Unlines(yaml)) case None => BadYaml case Some(fm) => Ok(Adr(fm, Unlines(rest)))
  {
    var lines := yaml + ([FENCE] + rest);
    FenceFacts();
    FirstFenceAt(lines, |yaml|);
    assert lines[..|yaml|] == yaml && lines[|yaml| + 1..] == rest;
  }

  lemma LinesToFence(yaml: string, body: string)
    requires Terminated(yaml)
    ensures Lines(yaml + ("---\n" + body)) == Lines(yaml) + ([FENCE] + Lines(body))
  {
    var tail := "---" + "\n" + body;
    assert "---\n" + body == tail;
    LinesAppend(yaml, tail);
    FenceFacts();
    LinesFirst(FENCE, body);
  }

  /** Between two fences stands the frontmatter, or nothing, and what follows is the body. */
  lemma Closed(codec: Codec, lead: string, yaml: string, body: string)
    requires Terminated(lead) && AllBlank(lead) && Terminated(yaml) && NoFence(yaml)
    ensures Parse(codec, lead + ("---\n" + (yaml + ("---\n" + body))))
            == if yaml == "" then Ok(Adr(EMPTY, Norm(body)))
               else match codec.decode(Norm(yaml)) case None => BadYaml case Some(fm) => Ok(Adr(fm, Norm(body)))
  {
    OpenedLines(codec, lead, yaml + ("---\n" + body));
    LinesToFence(yaml, body);
    ClosedLines(codec, Lines(yaml), Lines(body));
  }

  /** A text format for documents: how it is read, how it is written, and what writing does to a body. */
  datatype Format = Format(parse: string -> Parsed, compose: (Frontmatter, string) -> string, norm: string -> string)

  function TextFormat(codec: Codec): Format
  {
    Format(content => Parse(codec, content), (fm, body) => Compose(codec, fm, body), body => Norm(body))
  }

  ghost predicate RoundTrips(format: Format)
  {
    forall fm, body :: format.parse(format.compose(fm, body)) == Ok(Adr(fm, format.norm(body)))
  }

  lemma TextFormatRoundTrips(codec: Codec)
    requires Faithful(codec)
    ensures RoundTrips(TextFormat(codec))
  {
    forall fm: Frontmatter, body: string
      ensures Parse(codec, Compose(codec, fm, body)) == Ok(Adr(fm, Norm(body)))
    {
      RoundTrip(codec, fm, body);
    }
  }

  lemma FenceFacts()
    ensures IsFence(FENCE) && !IsBlank(FENCE) && DropCR(FENCE) == FENCE && '\n' !in FENCE
  {
  }

  /** A carriage return before a line break is lost each time a document is written and read again. */
  lemma CarriageReturnsWearOff()
    ensures Norm("x\r\r\n") == "x\r\n" && Norm("x\r\n") == "x\n"
  {
    NormFirst("x\r\r", "");
    NormFirst("x\r", "");
    assert "x\r\r\n" == "x\r\r" + "\n" + "" && "x\r\n" == "x\r" + "\n" + "";
  }
}
