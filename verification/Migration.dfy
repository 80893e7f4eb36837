/** Moving a legacy ADR file to structured frontmatter, once: a second run finds the id and leaves the file alone. The
    patterns that read the legacy header lines are parameters. */
module Migration {
  import opened Document
  import opened Text

  /** What the title pattern finds in a line. */
  datatype Title = NoTitle | Title(digits: string, title: string)

  /** The regular expressions: the title of one line, and the rest of the frontmatter and the body of a whole file. */
  datatype Patterns = Patterns(title: string -> Title, others: string -> Frontmatter, body: string -> string)

  datatype Report = Skipped | Success(before: string, after: string)

  function SplitLines(s: string): (lines: seq<string>)
    ensures lines != []
    decreases |s|
  {
    var n := LineEnd(s);
    [s[..n]] + if n < |s| then SplitLines(s[n + 1..]) else []
  }

  function TrimSuffix(s: string, suffix: string): string
  {
    if |suffix| <= |s| && s[|s| - |suffix|..] == suffix then s[..|s| - |suffix|] else s
  }

  predicate Numbered(fileName: string)
  {
    var base := TrimSuffix(fileName, ".md");
    |base| >= 4 && forall i :: 0 <= i < 4 ==> Digit(base[i])
  }

  predicate Titled(p: Patterns, content: string)
  {
    exists i :: 0 <= i < |SplitLines(content)| && p.title(SplitLines(content)[i]).Title?
  }

  function FirstTitle(p: Patterns, lines: seq<string>): (t: Title)
    ensures t.Title? <==> exists i :: 0 <= i < |lines| && p.title(lines[i]).Title?
  {
    if lines == [] then NoTitle
    else if p.title(lines[0]).Title? then
      assert exists i :: 0 <= i < |lines| && p.title(lines[i]).Title?;
      p.title(lines[0])
    else
      var t := FirstTitle(p, lines[1..]);
      assert t.Title? ==> exists i :: 0 <= i < |lines| && p.title(lines[i]).Title? by {
        if t.Title? {
          var i :| 0 <= i < |lines[1..]| && p.title(lines[1..][i]).Title?;
          assert p.title(lines[i + 1]).Title?;
        }
      }
      t
  }

  function Extracted(p: Patterns, content: string, fileName: string): Frontmatter
  {
    var t := FirstTitle(p, SplitLines(content));
    var fm := p.others(content);
    if t.Title? then fm.(id := "ADR-" + t.digits, title := t.title)
    else if Numbered(fileName) then fm.(id := "ADR-" + TrimSuffix(fileName, ".md")[..4], title := "")
    else fm.(id := "", title := "")
  }

  ghost predicate FirstTitled(p: Patterns, lines: seq<string>, i: nat)
  {
    i < |lines| && p.title(lines[i]).Title? && forall j :: 0 <= j < i ==> p.title(lines[j]).NoTitle?
  }

  /** The first title line gives number and title; without one the first four digits of the file name give the number;
      and the rest is what the other patterns find. */
  ghost predicate Labels(p: Patterns, content: string, fileName: string, fm: Frontmatter)
  {
    && fm == p.others(content).(id := fm.id, title := fm.title)
    && (forall i: nat :: FirstTitled(p, SplitLines(content), i) ==>
          var t := p.title(SplitLines(content)[i]); fm.id == "ADR-" + t.digits && fm.title == t.title)
    && (!Titled(p, content) ==>
          fm.title == "" && fm.id == if Numbered(fileName) then "ADR-" + fileName[..4] else "")
  }

  lemma {:induction false} FirstTitleAt(p: Patterns, lines: seq<string>, i: nat)
    requires FirstTitled(p, lines, i)
    ensures FirstTitle(p, lines) == p.title(lines[i])
  {
    if i > 0 {
      assert p.title(lines[0]).NoTitle?;
      FirstTitleAt(p, lines[1..], i - 1);
    }
  }

  lemma ExtractedLabels(p: Patterns, content: string, fileName: string)
    ensures Labels(p, content, fileName, Extracted(p, content, fileName))
  {
    var fm := Extracted(p, content, fileName);
    forall i: nat | FirstTitled(p, SplitLines(content), i)
      ensures var t := p.title(SplitLines(content)[i]); fm.id == "ADR-" + t.digits && fm.title == t.title
    {
      FirstTitleAt(p, SplitLines(content), i);
    }
    var t, base := FirstTitle(p, SplitLines(content)), TrimSuffix(fileName, ".md");
    assert t.Title? <==> Titled(p, content);
    assert Numbered(fileName) ==> base[..4] == fileName[..4];
  }

  /** The lines are the text without its line breaks. */
  lemma {:induction false} LinesJoinBack(s: string)
    ensures Join(SplitLines(s), '\n') == s
    ensures forall i :: 0 <= i < |SplitLines(s)| ==> '\n' !in SplitLines(s)[i]
    decreases |s|
  {
    var n := LineEnd(s);
    if n < |s| {
      LinesJoinBack(s[n + 1..]);
      var rest := SplitLines(s[n + 1..]);
      OnePartMore(s[..n], rest, '\n');
      JoinMore(s[..n], rest, '\n');
      AtBreak(s, n);
    } else {
      assert s[..n] == s;
    }
  }

  method Extract(p: Patterns, content: string, fileName: string) returns (fm: Frontmatter, body: string)
    ensures fm == Extracted(p, content, fileName) && body == p.body(content)
    ensures Labels(p, content, fileName, fm)
    ensures fm.id != "" <==> Titled(p, content) || Numbered(fileName)
  {
    ExtractedLabels(p, content, fileName);
    var id, title := "", "";
    var lines := SplitLines(content);
    var i := 0;
    while i < |lines|
      invariant 0 <= i <= |lines| && id == ""
      invariant FirstTitle(p, lines[i..]) == FirstTitle(p, lines)
      decreases |lines| - i
    {
      var m := p.title(lines[i]);
      assert lines[i..][0] == lines[i] && lines[i..][1..] == lines[i + 1..];
      if m.Title? {
        id, title := "ADR-" + m.digits, m.title;
        break;
      }
      i := i + 1;
    }
    assert i == |lines| ==> lines[i..] == [];
    if id == "" {
      var base := TrimSuffix(fileName, ".md");
      if |base| >= 4 {
        var allDigits := true;
        var k := 0;
        while k < 4 && allDigits
          invariant 0 <= k <= 4 && (allDigits <==> forall j :: 0 <= j < k ==> Digit(base[j]))
          decreases 4 - k, allDigits
        {
          if !Digit(base[k]) {
            allDigits := false;
          }
          k := k + 1;
        }
        if allDigits {
          id := "ADR-" + base[..4];
        }
      }
    }
    fm := p.others(content).(id := id, title := title);
    body := p.body(content);
  }

  predicate HasFrontmatter(codec: Codec, content: string)
  {
    Parse(codec, content).Ok? && Parse(codec, content).adr.fm.id != ""
  }

  function Migrated(codec: Codec, p: Patterns, content: string, fileName: string): string
  {
    if HasFrontmatter(codec, content) then content
    else Compose(codec, Extracted(p, content, fileName), "\n" + p.body(content))
  }

  lemma BlankLineFirst(codec: Codec, fm: Frontmatter, body: string)
    ensures "---\n" + codec.encode(fm) + "---\n\n" + body == Compose(codec, fm, "\n" + body)
  {
    assert "---\n" + "\n" + body == "---\n\n" + body;
  }

  class LegacyFile {
    const name: string
    var content: string

    constructor (fileName: string, text: string)
      ensures name == fileName && content == text
    {
      name, content := fileName, text;
    }

    method Migrate(codec: Codec, p: Patterns, dryRun: bool) returns (report: Report)
      modifies this
      ensures report.Skipped? <==> HasFrontmatter(codec, old(content))
      ensures report.Success? ==>
                report.before == old(content) && report.after == Migrated(codec, p, old(content), name)
      ensures content == if dryRun then old(content) else Migrated(codec, p, old(content), name)
    {
      var parsed := ParseLines(codec, Lines(content));
      if parsed.Ok? && parsed.adr.fm.id != "" {
        return Skipped;
      }
      var fm, body := Extract(p, content, name);
      var out := "---\n" + codec.encode(fm) + "---\n\n" + body;
      BlankLineFirst(codec, fm, body);
      var before := content;
      if !dryRun {
        content := out;
      }
      return Success(before, out);
    }
  }

  lemma {:induction false} ExtractedId(p: Patterns, content: string, fileName: string)
    ensures Extracted(p, content, fileName).id != "" <==> Titled(p, content) || Numbered(fileName)
  {
    var t := FirstTitle(p, SplitLines(content));
    assert t.Title? <==> Titled(p, content);
  }

  /** After one migration the file is skipped exactly when a title line or the file's own name gave it an id. */
  lemma SkippedExactlyWhen(codec: Codec, p: Patterns, content: string, fileName: string)
    requires Faithful(codec) && !HasFrontmatter(codec, content)
    ensures HasFrontmatter(codec, Migrated(codec, p, content, fileName)) <==> Titled(p, content) || Numbered(fileName)
    ensures Parse(codec, Migrated(codec, p, content, fileName))
            == Ok(Adr(Extracted(p, content, fileName), Norm("\n" + p.body(content))))
  {
    RoundTrip(codec, Extracted(p, content, fileName), "\n" + p.body(content));
    ExtractedId(p, content, fileName);
  }

  function Migrator(codec: Codec, p: Patterns, fileName: string): string -> string
  {
    (content: string) => Migrated(codec, p, content, fileName)
  }

  function Iterate(f: string -> string, content: string, times: nat): string
  {
    if times == 0 then content else f(Iterate(f, content, times - 1))
  }

  lemma {:induction false} IterateStable(f: string -> string, content: string, times: nat)
    requires times >= 1 && f(f(content)) == f(content)
    ensures Iterate(f, content, times) == f(content)
  {
    if times == 1 {
      assert Iterate(f, content, 0) == content;
    } else {
      IterateStable(f, content, times - 1);
    }
  }

  /** Any number of migrations is as good as one, for a file that has an id to be found or has one already. */
  lemma Idempotent(codec: Codec, p: Patterns, content: string, fileName: string, times: nat)
    requires Faithful(codec) && times >= 1
    requires HasFrontmatter(codec, content) || Titled(p, content) || Numbered(fileName)
    ensures Iterate(Migrator(codec, p, fileName), content, times) == Migrated(codec, p, content, fileName)
    ensures HasFrontmatter(codec, Migrated(codec, p, content, fileName))
  {
    if !HasFrontmatter(codec, content) {
      SkippedExactlyWhen(codec, p, content, fileName);
    }
    IterateStable(Migrator(codec, p, fileName), content, times);
  }

  /** For a body pattern that does not shorten what was composed, as patterns that find no more header lines do not, the
      second migration changes nothing exactly when the first found an id. */
  lemma SecondChangesNothingExactlyWhen(codec: Codec, p: Patterns, content: string, fileName: string)
    requires Faithful(codec) && !HasFrontmatter(codec, content)
    requires var once := Migrated(codec, p, content, fileName); |p.body(once)| >= |once|
    ensures var once := Migrated(codec, p, content, fileName);
            Migrated(codec, p, once, fileName) == once <==> Titled(p, content) || Numbered(fileName)
  {
    var once := Migrated(codec, p, content, fileName);
    SkippedExactlyWhen(codec, p, content, fileName);
    if !HasFrontmatter(codec, once) {
      assert |Migrated(codec, p, once, fileName)| > |once|;
    }
  }
}
