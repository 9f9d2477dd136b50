/**
 * The exercise blocks of a course step.
 *
 * A step's text is cut at every "```exercise" marker; each non-empty piece
 * loses its first `title="..."` attribute and its closing fence, and what is
 * left is scanned line by line: `<hint>`/`<solution>` tags open sections, the
 * first non-blank untagged line opens the description, fence lines are
 * skipped, and each section's lines are joined with newlines and trimmed.
 */
module ExerciseParser {
  import opened Wrappers
  import opened Text

  const HintOpen := "<hint>"
  const HintClose := "</hint>"
  const SolutionOpen := "<solution>"
  const SolutionClose := "</solution>"
  const Fence := "```"
  const ExerciseMarker := "```exercise"
  const ClosingFence := "\n```"
  const TitleAttr := "title=\""
  const DefaultTitle := "Exercise"

  /** The section the scanner is filling; `NoSection` is the source's `null`. */
  datatype Section = NoSection | Description | Hint | Solution

  /** The `Partial<Exercise>` filled while a block is scanned. */
  datatype Draft = Draft(description: Option<string>, hint: Option<string>, solution: Option<string>)

  /** An exercise as handed to the card list: the parsed fields plus the block's title. */
  datatype Exercise = Exercise(title: string, description: Option<string>, hint: Option<string>, solution: Option<string>)

  /** The scanner's three mutable variables: the exercise so far, the open section, the line buffer. */
  datatype Scan = Scan(draft: Draft, section: Section, buffer: seq<string>)

  const NoFields := Draft(None, None, None)
  const Start := Scan(NoFields, NoSection, [])

  /** A JavaScript truthiness test on an optional string: present and non-empty. */
  predicate Truthy(v: Option<string>) {
    v.Some? && v.value != ""
  }

  /** The scanner state never holds buffered lines while no section is open. */
  predicate Consistent(st: Scan) {
    st.section == NoSection ==> st.buffer == []
  }

  /** The draft with section `s`'s field set to `text`; with no section open nothing is set. */
  function SetField(d: Draft, s: Section, text: string): Draft {
    match s
    case Description => d.(description := Some(text))
    case Hint => d.(hint := Some(text))
    case Solution => d.(solution := Some(text))
    case NoSection => d
  }

  /** `saveBuffer`: a non-empty buffer, joined and trimmed, replaces the open section's field. */
  function SaveBuffer(st: Scan): Scan {
    if |st.buffer| > 0 then
      Scan(SetField(st.draft, st.section, Trim(Join(st.buffer, "\n"))), st.section, [])
    else
      st
  }

  /** How the loop reads a line, by its trimmed form, tested in the loop's order. */
  datatype LineKind =
    | HintStart(rest: string)
    | HintEnd
    | SolutionStart(rest: string)
    | SolutionEnd
    | FenceLine
    | TextLine

  function Classify(line: string): LineKind {
    var trimmed := Trim(line);
    if StartsWith(trimmed, HintOpen) then HintStart(Trim(DropPrefix(trimmed, HintOpen)))
    else if trimmed == HintClose then HintEnd
    else if StartsWith(trimmed, SolutionOpen) then SolutionStart(Trim(DropPrefix(trimmed, SolutionOpen)))
    else if trimmed == SolutionClose then SolutionEnd
    else if StartsWith(trimmed, Fence) then FenceLine
    else TextLine
  }

  /** An opening tag: flush, open `s`, and buffer what followed the tag on its line. */
  function OpenSection(st: Scan, s: Section, rest: string): Scan {
    var saved := SaveBuffer(st);
    Scan(saved.draft, s, saved.buffer + [rest])
  }

  /** A closing tag: flush and close. */
  function CloseSection(st: Scan): Scan {
    var saved := SaveBuffer(st);
    Scan(saved.draft, NoSection, saved.buffer)
  }

  /** A plain line: kept as it is inside a section; a non-blank one outside opens the description. */
  function TakeText(st: Scan, line: string): Scan {
    if st.section != NoSection then st.(buffer := st.buffer + [line])
    else if Trim(line) != "" then Scan(st.draft, Description, st.buffer + [line])
    else st
  }

  /** One iteration of the scanning loop. */
  function Feed(st: Scan, line: string): Scan {
    match Classify(line)
    case HintStart(rest) => OpenSection(st, Hint, rest)
    case HintEnd => CloseSection(st)
    case SolutionStart(rest) => OpenSection(st, Solution, rest)
    case SolutionEnd => CloseSection(st)
    case FenceLine => st
    case TextLine => TakeText(st, line)
  }

  /** The scanner state after feeding `lines` to `st`, in order. */
  function FeedAll(st: Scan, lines: seq<string>): Scan
  {
    Fold(Feed, st, lines)
  }

  /** Left fold of a scanner step over lines. */
  function Fold(step: (Scan, string) -> Scan, st: Scan, lines: seq<string>): Scan
    decreases |lines|
  {
    if lines == [] then st else step(Fold(step, st, lines[..|lines| - 1]), lines[|lines| - 1])
  }

  lemma FoldEmpty(step: (Scan, string) -> Scan, st: Scan)
    ensures Fold(step, st, []) == st
  {
  }

  lemma FoldSnoc(step: (Scan, string) -> Scan, st: Scan, lines: seq<string>, line: string)
    ensures Fold(step, st, lines + [line]) == step(Fold(step, st, lines), line)
  {
    assert (lines + [line])[..|lines|] == lines;
  }

  /** Feeding one more line is one more scanner step. */
  lemma FeedAllSnoc(st: Scan, lines: seq<string>, line: string)
    ensures FeedAll(st, lines + [line]) == Feed(FeedAll(st, lines), line)
  {
    FoldSnoc(Feed, st, lines, line);
  }

  /** Feeding one more line of `lines` is one more scanner step. */
  lemma FeedAllStep(st: Scan, lines: seq<string>, i: nat)
    requires i < |lines|
    ensures FeedAll(st, lines[..i + 1]) == Feed(FeedAll(st, lines[..i]), lines[i])
  {
    assert lines[..i + 1][..i] == lines[..i];
  }

  /** The last flush and the "any exercise data?" test after the loop. */
  function Finish(st: Scan): (r: seq<Draft>)
    ensures |r| <= 1
    ensures r != [] ==> Truthy(r[0].description) || Truthy(r[0].hint) || Truthy(r[0].solution)
    ensures var d := SaveBuffer(st).draft;
      (r != [] <==> Truthy(d.description) || Truthy(d.hint) || Truthy(d.solution)) && (r != [] ==> r[0] == d)
  {
    var saved := SaveBuffer(st);
    var d := saved.draft;
    if Truthy(d.description) || Truthy(d.hint) || Truthy(d.solution) then [d] else []
  }

  /** What `parseExercises` returns for `content`. */
  function Parse(content: string): seq<Draft> {
    Finish(FeedAll(Start, Split(content, "\n")))
  }

  /** `parseExercises`: the line loop over `content.split('\n')`. */
  method ParseExercises(content: string) returns (exercises: seq<Draft>)
    ensures exercises == Parse(content)
  {
    exercises := [];
    var lines := Split(content, "\n");
    var current := NoFields;
    var section := NoSection;
    var buffer: seq<string> := [];
    var i := 0;
    while i < |lines|
      invariant 0 <= i <= |lines|
      invariant Scan(current, section, buffer) == FeedAll(Start, lines[..i])
    {
      ghost var before := Scan(current, section, buffer);
      var line := lines[i];
      var trimmed := Trim(line);
      FeedLine(before, line);
      if StartsWith(trimmed, HintOpen) {
        var saved := SaveBuffer(Scan(current, section, buffer));
        current, buffer := saved.draft, saved.buffer;
        section := Hint;
        buffer := buffer + [Trim(DropPrefix(trimmed, HintOpen))];
        assert Scan(current, section, buffer) == Feed(before, line);
      } else if trimmed == HintClose {
        var saved := SaveBuffer(Scan(current, section, buffer));
        current, buffer := saved.draft, saved.buffer;
        section := NoSection;
        assert Scan(current, section, buffer) == Feed(before, line);
      } else if StartsWith(trimmed, SolutionOpen) {
        var saved := SaveBuffer(Scan(current, section, buffer));
        current, buffer := saved.draft, saved.buffer;
        section := Solution;
        buffer := buffer + [Trim(DropPrefix(trimmed, SolutionOpen))];
        assert Scan(current, section, buffer) == Feed(before, line);
      } else if trimmed == SolutionClose {
        var saved := SaveBuffer(Scan(current, section, buffer));
        current, buffer := saved.draft, saved.buffer;
        section := NoSection;
        assert Scan(current, section, buffer) == Feed(before, line);
      } else if StartsWith(trimmed, Fence) {
        // code fence markers are skipped
      } else {
        if section != NoSection {
          buffer := buffer + [line];
        } else if trimmed != "" {
          section := Description;
          buffer := buffer + [line];
        }
        assert Scan(current, section, buffer) == Feed(before, line);
      }
      FeedAllStep(Start, lines, i);
      assert Scan(current, section, buffer) == FeedAll(Start, lines[..i + 1]);
      i := i + 1;
    }
    assert lines[..i] == lines;
    var saved := SaveBuffer(Scan(current, section, buffer));
    current := saved.draft;
    if Truthy(current.description) || Truthy(current.hint) || Truthy(current.solution) {
      exercises := exercises + [current];
    }
  }

  /** One scanner step, spelled out as the loop's chain of tests on the trimmed line. */
  lemma FeedLine(st: Scan, line: string)
    ensures var t := Trim(line);
      Feed(st, line)
      == if StartsWith(t, HintOpen) then OpenSection(st, Hint, Trim(DropPrefix(t, HintOpen)))
         else if t == HintClose then CloseSection(st)
         else if StartsWith(t, SolutionOpen) then OpenSection(st, Solution, Trim(DropPrefix(t, SolutionOpen)))
         else if t == SolutionClose then CloseSection(st)
         else if StartsWith(t, Fence) then st
         else TakeText(st, line)
  {
  }

  // ---------------------------------------------------------------------
  // Properties of the line scanner
  // ---------------------------------------------------------------------

  /** A line the scanner treats as plain text: no tag, no fence. */
  predicate Ordinary(line: string) {
    Classify(line) == TextLine
  }

  /** A fence line: its trimmed form starts with three backticks. */
  predicate IsFenceLine(line: string) {
    StartsWith(Trim(line), Fence)
  }

  /** A fence line is never taken for a tag, so it leaves the scanner untouched. */
  lemma FenceLineIsSkipped(st: Scan, line: string)
    requires IsFenceLine(line)
    ensures Feed(st, line) == st
  {
    var t := Trim(line);
    assert t[..|Fence|] == Fence;
    assert t[0] == '`';
    DifferAt(t, HintOpen, 0);
    DifferAt(t, HintClose, 0);
    DifferAt(t, SolutionOpen, 0);
    DifferAt(t, SolutionClose, 0);
    assert Classify(line) == FenceLine;
  }

  /** The lines that remain once fence lines are dropped. */
  function WithoutFences(lines: seq<string>): (r: seq<string>)
    ensures forall k :: 0 <= k < |r| ==> !IsFenceLine(r[k])
    decreases |lines|
  {
    if lines == [] then []
    else
      var init := WithoutFences(lines[..|lines| - 1]);
      var last := lines[|lines| - 1];
      if IsFenceLine(last) then init else init + [last]
  }

  /** Fence lines contribute to no field, wherever they stand, even inside `<solution>`. */
  lemma {:induction false} FenceLinesIgnored(st: Scan, lines: seq<string>)
    ensures FeedAll(st, WithoutFences(lines)) == FeedAll(st, lines)
    decreases |lines|
  {
    if lines != [] {
      var init := lines[..|lines| - 1];
      var last := lines[|lines| - 1];
      FenceLinesIgnored(st, init);
      if IsFenceLine(last) {
        FenceLineIsSkipped(FeedAll(st, init), last);
      } else {
        var kept := WithoutFences(init) + [last];
        assert kept[..|kept| - 1] == WithoutFences(init);
      }
    }
  }

  /** Feeding `a` then `b` is feeding `a + b`. */
  lemma FeedAllAppend(st: Scan, a: seq<string>, b: seq<string>)
    ensures FeedAll(st, a + b) == FeedAll(FeedAll(st, a), b)
  {
    FoldAppend(Feed, st, a, b);
  }

  lemma {:induction false} FoldAppend(step: (Scan, string) -> Scan, st: Scan, a: seq<string>, b: seq<string>)
    ensures Fold(step, st, a + b) == Fold(step, Fold(step, st, a), b)
    decreases |b|
  {
    if b == [] {
      assert a + b == a;
    } else {
      var ab := a + b;
      assert ab[..|ab| - 1] == a + b[..|b| - 1];
      FoldAppend(step, st, a, b[..|b| - 1]);
    }
  }

  /** Every scanner step keeps the buffer empty while no section is open. */
  lemma FeedConsistent(st: Scan, line: string)
    requires Consistent(st)
    ensures Consistent(Feed(st, line))
  {
  }

  /** From the start, the scanner never buffers a line outside a section. */
  lemma {:induction false} RunConsistent(lines: seq<string>)
    ensures Consistent(FeedAll(Start, lines))
    decreases |lines|
  {
    if lines != [] {
      RunConsistent(lines[..|lines| - 1]);
      FeedConsistent(FeedAll(Start, lines[..|lines| - 1]), lines[|lines| - 1]);
    }
  }

  /** While no section is open a blank line is skipped; the first non-blank plain line opens the description. */
  lemma PlainLineOutsideSection(st: Scan, line: string)
    requires Consistent(st) && st.section == NoSection && Ordinary(line)
    ensures Trim(line) == "" ==> Feed(st, line) == st
    ensures Trim(line) != "" ==> Feed(st, line) == Scan(st.draft, Description, [line])
  {
  }

  /** Inside an open section a plain line is buffered as it is, untrimmed. */
  lemma PlainLineInsideSection(st: Scan, line: string)
    requires st.section != NoSection && Ordinary(line)
    ensures Feed(st, line) == st.(buffer := st.buffer + [line])
  {
  }

  /** Either closing tag flushes and closes whatever section is open. */
  lemma CloseTagClosesAnySection(st: Scan, line: string)
    requires Trim(line) == HintClose || Trim(line) == SolutionClose
    ensures Feed(st, line) == SaveBuffer(st).(section := NoSection)
  {
    var t := Trim(line);
    assert t[1] == '/';
    DifferAt(t, HintOpen, 1);
    DifferAt(t, SolutionOpen, 1);
  }

  /** The tag, the section it opens and the one that closes it. */
  function OpenTag(s: Section): string
    requires s == Hint || s == Solution
  {
    if s == Hint then HintOpen else SolutionOpen
  }

  function CloseTag(s: Section): string
    requires s == Hint || s == Solution
  {
    if s == Hint then HintClose else SolutionClose
  }

  /**
   * A tagged section replaces whatever an earlier section of the same kind
   * stored: after `<hint>`, plain lines and `</hint>` the hint is exactly
   * those lines, joined and trimmed, and no other field changes.
   */
  lemma {:induction false} TaggedSectionOverwrites(st: Scan, s: Section, body: seq<string>)
    requires s == Hint || s == Solution
    requires st.section == NoSection && st.buffer == []
    requires forall k :: 0 <= k < |body| ==> Ordinary(body[k])
    ensures FeedAll(st, [OpenTag(s)] + body + [CloseTag(s)])
         == Scan(SetField(st.draft, s, Trim(Join([""] + body, "\n"))), NoSection, [])
  {
    var inSection := Scan(st.draft, s, [""]);
    OpenTagStep(st, s);
    FeedBodyInSection(inSection, body);
    var filled := inSection.(buffer := [""] + body);
    FeedAllAppend(st, [OpenTag(s)], body);
    var closing := [OpenTag(s)] + body + [CloseTag(s)];
    assert closing == ([OpenTag(s)] + body) + [CloseTag(s)];
    FeedAllSnoc(st, [OpenTag(s)] + body, CloseTag(s));
    CloseTagStep(filled, s);
  }

  /** A bare opening tag, with nothing buffered, opens its section with one empty line. */
  lemma OpenTagStep(st: Scan, s: Section)
    requires s == Hint || s == Solution
    requires st.buffer == []
    ensures FeedAll(st, [OpenTag(s)]) == Scan(st.draft, s, [""])
  {
    var tag := OpenTag(s);
    if s == Solution {
      ClassifySolutionOpen();
    } else {
      ClassifyHintOpen();
    }
    assert Feed(st, tag) == OpenSection(st, s, "");
    FoldEmpty(Feed, st);
    FeedAllSnoc(st, [], tag);
    assert [] + [tag] == [tag];
  }

  /**
   * An opening tag with text after it on the same line flushes the buffer,
   * opens the tag's section and buffers that text, trimmed.
   */
  lemma OpenTagWithText(st: Scan, s: Section, x: string)
    requires s == Hint || s == Solution
    ensures Feed(st, OpenTag(s) + x) == OpenSection(st, s, Trim(x))
  {
    var tag := OpenTag(s);
    assert tag[0] == '<' && tag[1] != '/' && tag[|tag| - 1] == '>';
    TrimAfterWord(tag, x);
    var trimmed := Trim(tag + x);
    assert trimmed[1] == tag[1];
    if s == Solution {
      DifferAt(trimmed, HintOpen, 1);
      DifferAt(trimmed, HintClose, 1);
    }
  }

  /** A bare `<hint>` line opens the hint with nothing after the tag. */
  lemma ClassifyHintOpen()
    ensures Classify(HintOpen) == HintStart("")
  {
    var tag := HintOpen;
    assert tag[0] == '<' && tag[|tag| - 1] == '>';
    TrimNonBlankEnds(tag);
    assert DropPrefix(tag, tag) == "";
    assert Trim("") == "";
  }

  /** A bare `<solution>` line opens the solution with nothing after the tag. */
  lemma ClassifySolutionOpen()
    ensures Classify(SolutionOpen) == SolutionStart("")
  {
    var tag := SolutionOpen;
    assert tag[0] == '<' && tag[|tag| - 1] == '>';
    TrimNonBlankEnds(tag);
    assert DropPrefix(tag, tag) == "";
    assert Trim("") == "";
    DifferAt(tag, HintOpen, 1);
    DifferAt(tag, HintClose, 1);
  }

  /** A bare closing tag flushes the buffer into the open section and closes it. */
  lemma CloseTagStep(st: Scan, s: Section)
    requires s == Hint || s == Solution
    ensures Feed(st, CloseTag(s)) == SaveBuffer(st).(section := NoSection)
  {
    var tag := CloseTag(s);
    assert tag[0] == '<' && tag[|tag| - 1] == '>';
    TrimNonBlankEnds(tag);
    CloseTagClosesAnySection(st, tag);
  }

  /** Plain lines fed into an open section are appended to its buffer. */
  lemma {:induction false} FeedBodyInSection(st: Scan, body: seq<string>)
    requires st.section != NoSection
    requires forall k :: 0 <= k < |body| ==> Ordinary(body[k])
    ensures FeedAll(st, body) == st.(buffer := st.buffer + body)
    decreases |body|
  {
    if body == [] {
      assert st.buffer + body == st.buffer;
    } else {
      var init := body[..|body| - 1];
      FeedBodyInSection(st, init);
      assert st.buffer + init + [body[|body| - 1]] == st.buffer + body;
    }
  }

  // ---------------------------------------------------------------------
  // A block without tags or fences is one exercise: its trimmed text.
  // ---------------------------------------------------------------------

  /** The index of the first non-blank line, or the number of lines when all are blank. */
  function FirstNonBlank(lines: seq<string>): (k: nat)
    ensures k <= |lines|
    ensures forall j :: 0 <= j < k ==> Trim(lines[j]) == ""
    ensures k < |lines| ==> Trim(lines[k]) != ""
  {
    if lines == [] then 0
    else if Trim(lines[0]) != "" then 0
    else
      var k := FirstNonBlank(lines[1..]);
      assert forall j :: 1 <= j <= k ==> lines[j] == lines[1..][j - 1];
      1 + k
  }

  /** `FirstNonBlank` is the only index with its two properties. */
  lemma FirstNonBlankUnique(lines: seq<string>, k: nat)
    requires k <= |lines|
    requires forall j :: 0 <= j < k ==> Trim(lines[j]) == ""
    requires k < |lines| ==> Trim(lines[k]) != ""
    ensures FirstNonBlank(lines) == k
  {
  }

  /** On plain lines the scanner only ever takes the text branch. */
  lemma {:induction false} FeedOrdinaryLines(st: Scan, lines: seq<string>)
    requires forall k :: 0 <= k < |lines| ==> Ordinary(lines[k])
    ensures FeedAll(st, lines) == Fold(TakeText, st, lines)
    decreases |lines|
  {
    if lines == [] {
      FoldEmpty(Feed, st);
      FoldEmpty(TakeText, st);
    } else {
      var n := |lines|;
      var init := lines[..n - 1];
      var last := lines[n - 1];
      assert lines == init + [last];
      FeedOrdinaryLines(st, init);
      FeedAllSnoc(st, init, last);
      assert Ordinary(last);
      assert Feed(FeedAll(st, init), last) == TakeText(FeedAll(st, init), last);
    }
  }

  /** Plain lines: the scanner skips the leading blank ones and buffers the rest as the description. */
  lemma FeedPlainLines(lines: seq<string>)
    requires forall k :: 0 <= k < |lines| ==> Ordinary(lines[k])
    ensures var k := FirstNonBlank(lines);
      FeedAll(Start, lines) == if k == |lines| then Start else Scan(NoFields, Description, lines[k..])
  {
    FeedOrdinaryLines(Start, lines);
    TakeTextFromStart(lines);
  }

  lemma {:induction false} TakeTextFromStart(lines: seq<string>)
    ensures var k := FirstNonBlank(lines);
      Fold(TakeText, Start, lines) == if k == |lines| then Start else Scan(NoFields, Description, lines[k..])
    decreases |lines|
  {
    if lines == [] {
      FoldEmpty(TakeText, Start);
    } else {
      var init, last := lines[..|lines| - 1], lines[|lines| - 1];
      assert lines == init + [last];
      FoldSnoc(TakeText, Start, init, last);
      TakeTextFromStart(init);
      FirstNonBlankSnoc(init, last);
      TakeTextLast(init, last, FirstNonBlank(init));
    }
  }

  /** The inductive step of `TakeTextFromStart`, on the state the earlier lines left. */
  lemma TakeTextLast(init: seq<string>, last: string, k0: nat)
    requires k0 <= |init|
    ensures var prev := if k0 == |init| then Start else Scan(NoFields, Description, init[k0..]);
      TakeText(prev, last)
      == if k0 < |init| then Scan(NoFields, Description, (init + [last])[k0..])
         else if Trim(last) != "" then Scan(NoFields, Description, (init + [last])[|init|..])
         else Start
  {
    if k0 < |init| {
      assert (init + [last])[k0..] == init[k0..] + [last];
    } else if Trim(last) != "" {
      assert (init + [last])[|init|..] == [last];
    }
  }

  /** The first non-blank line of `init + [last]`: that of `init`, else `last` when it is not blank. */
  lemma FirstNonBlankSnoc(init: seq<string>, last: string)
    ensures var k0 := FirstNonBlank(init);
      FirstNonBlank(init + [last])
      == if k0 < |init| then k0 else if Trim(last) != "" then |init| else |init| + 1
  {
    var k0 := FirstNonBlank(init);
    var k := if k0 < |init| then k0 else if Trim(last) != "" then |init| else |init| + 1;
    BlankBeforeSnoc(init, last, k0);
    FirstNonBlankUnique(init + [last], k);
  }

  /** The lines of `init + [last]` before the first non-blank line of `init` are blank. */
  lemma BlankBeforeSnoc(init: seq<string>, last: string, k0: nat)
    requires k0 <= |init|
    requires forall j :: 0 <= j < k0 ==> Trim(init[j]) == ""
    ensures forall j :: 0 <= j < k0 ==> Trim((init + [last])[j]) == ""
  {
    forall j | 0 <= j < k0 ensures Trim((init + [last])[j]) == "" {
      assert (init + [last])[j] == init[j];
    }
  }

  /** The concatenation of two blank texts is blank. */
  lemma BlankConcat(a: string, b: string)
    requires Blank(a) && Blank(b)
    ensures Blank(a + b)
  {
  }

  /** Blank leading lines do not change the trimmed join. */
  lemma SkipBlankLines(lines: seq<string>, k: nat)
    requires 0 < k < |lines|
    requires forall j :: 0 <= j < k ==> Trim(lines[j]) == ""
    ensures Trim(Join(lines, "\n")) == Trim(Join(lines[k..], "\n"))
  {
    var head := lines[..k];
    var tail := lines[k..];
    assert lines == head + tail;
    JoinAppend(head, tail, "\n");
    BlankHead(lines, k);
    TrimBlankPrefix(Join(head, "\n") + "\n", Join(tail, "\n"));
  }

  /** The blank leading lines, joined and followed by a newline, form a blank text. */
  lemma BlankHead(lines: seq<string>, k: nat)
    requires 0 < k < |lines|
    requires forall j :: 0 <= j < k ==> Trim(lines[j]) == ""
    ensures Blank(Join(lines[..k], "\n") + "\n")
  {
    var head := lines[..k];
    forall j | 0 <= j < |head| ensures Blank(head[j]) {
      assert head[j] == lines[j];
      assert Trim(head[j]) == "";
    }
    JoinBlank(head, "\n");
    BlankConcat(Join(head, "\n"), "\n");
  }

  /** A join whose first line is not blank is not blank. */
  lemma NonBlankFirstLine(lines: seq<string>)
    requires lines != [] && Trim(lines[0]) != ""
    ensures Trim(Join(lines, "\n")) != ""
  {
    JoinStartsWithFirst(lines, "\n");
    var j :| 0 <= j < |lines[0]| && !IsWhitespace(lines[0][j]);
    assert Join(lines, "\n")[j] == lines[0][j];
  }

  /** All-blank lines join to a blank text. */
  lemma BlankLines(lines: seq<string>)
    requires forall j :: 0 <= j < |lines| ==> Trim(lines[j]) == ""
    ensures Trim(Join(lines, "\n")) == ""
  {
    forall j | 0 <= j < |lines| ensures Blank(lines[j]) {
      assert Trim(lines[j]) == "";
    }
    JoinBlank(lines, "\n");
  }

  /** The trimmed join of lines is that of the lines from the first non-blank one. */
  lemma TrimJoinFromFirstNonBlank(lines: seq<string>)
    ensures var k := FirstNonBlank(lines);
      && (k == |lines| ==> Trim(Join(lines, "\n")) == "")
      && (k < |lines| ==> Trim(Join(lines, "\n")) == Trim(Join(lines[k..], "\n")) != "")
  {
    var k := FirstNonBlank(lines);
    if k == |lines| {
      BlankLines(lines);
    } else {
      if k > 0 {
        SkipBlankLines(lines, k);
      } else {
        assert lines[k..] == lines;
      }
      NonBlankFirstLine(lines[k..]);
    }
  }

  /** A text whose lines hold no tag and no fence parses to its trimmed self as the description, or to nothing when blank. */
  lemma PlainContent(content: string)
    requires forall k :: 0 <= k < |Split(content, "\n")| ==> Ordinary(Split(content, "\n")[k])
    ensures Parse(content) == if Trim(content) == "" then [] else [Draft(Some(Trim(content)), None, None)]
  {
    var lines := Split(content, "\n");
    JoinSplit(content, "\n");
    FeedPlainLines(lines);
    TrimJoinFromFirstNonBlank(lines);
    assert Parse(content) == Finish(FeedAll(Start, lines));
  }

  // ---------------------------------------------------------------------
  // The block split, the title and the closing fence
  // ---------------------------------------------------------------------

  /** The first `"` at or after index `k`. */
  function QuoteFrom(s: string, k: nat): (r: Option<nat>)
    ensures r.Some? ==> k <= r.value < |s| && s[r.value] == '"'
    ensures r.Some? ==> forall j :: k <= j < r.value ==> s[j] != '"'
    ensures r.None? ==> forall j :: k <= j < |s| ==> s[j] != '"'
    decreases |s| - k
  {
    if k >= |s| then None
    else if s[k] == '"' then Some(k)
    else QuoteFrom(s, k + 1)
  }

  /** Where a title attribute starts and where its closing quote stands. */
  datatype Span = Span(start: nat, close: nat)

  /** `title="X"` with X non-empty and free of quotes starts at `i`, its closing quote at `j`. */
  predicate TitleAt(s: string, i: nat, j: nat) {
    && OccursAt(s, TitleAttr, i)
    && i + |TitleAttr| < j < |s|
    && s[j] == '"'
    && forall k :: i + |TitleAttr| <= k < j ==> s[k] != '"'
  }

  /** The leftmost match of `/title="([^"]+)"/` at or after index `i`. */
  function TitleMatchFrom(s: string, i: nat): (r: Option<Span>)
    ensures r.Some? ==> i <= r.value.start && TitleAt(s, r.value.start, r.value.close)
    ensures r.Some? ==> forall a, b :: i <= a < r.value.start ==> !TitleAt(s, a, b)
    ensures r.None? ==> forall a, b :: i <= a ==> !TitleAt(s, a, b)
    decreases |s| - i
  {
    if i + |TitleAttr| >= |s| then None
    else
      var q := QuoteFrom(s, i + |TitleAttr|);
      if OccursAt(s, TitleAttr, i) && q.Some? && q.value > i + |TitleAttr| then
        Some(Span(i, q.value))
      else
        TitleMatchFrom(s, i + 1)
  }

  /** `block.match(/title="([^"]+)"/)`. */
  function TitleMatch(block: string): (r: Option<Span>)
    ensures r.Some? ==> TitleAt(block, r.value.start, r.value.close)
    ensures r.Some? ==> forall a: nat, b: nat :: a < r.value.start ==> !TitleAt(block, a, b)
    ensures r.None? ==> forall a: nat, b: nat :: !TitleAt(block, a, b)
  {
    TitleMatchFrom(block, 0)
  }

  /** The title shown on the card: the leftmost attribute's value, or "Exercise". */
  function Title(block: string): (title: string)
    ensures title != "" && forall k :: 0 <= k < |title| ==> title[k] != '"'
    ensures TitleMatch(block).None? ==> title == DefaultTitle
    ensures TitleMatch(block).Some? ==>
      var m := TitleMatch(block).value;
      m.start + |TitleAttr| <= m.close <= |block| && title == block[m.start + |TitleAttr|..m.close]
  {
    match TitleMatch(block)
    case Some(m) => block[m.start + |TitleAttr|..m.close]
    case None => DefaultTitle
  }

  /** `block.replace(/title="[^"]+"/, '').trim()`: only the first attribute goes. */
  function WithoutTitle(block: string): (r: string)
    ensures TitleMatch(block).None? ==> r == Trim(block)
    ensures TitleMatch(block).Some? ==>
      var m := TitleMatch(block).value;
      && block == block[..m.start] + TitleAttr + Title(block) + "\"" + block[m.close + 1..]
      && r == Trim(block[..m.start] + block[m.close + 1..])
  {
    match TitleMatch(block)
    case Some(m) =>
      TitleSlices(block, m.start, m.close);
      Trim(block[..m.start] + block[m.close + 1..])
    case None => Trim(block)
  }

  /** `.replace(/\n```$/, '').trim()`: a fence at the very end, after a newline, goes. */
  function WithoutClosingFence(s: string): (r: string)
    ensures Trim(r) == r
    ensures EndsWith(s, ClosingFence) ==>
      s == s[..|s| - |ClosingFence|] + ClosingFence && r == Trim(s[..|s| - |ClosingFence|])
    ensures !EndsWith(s, ClosingFence) ==> r == Trim(s)
  {
    var body := if EndsWith(s, ClosingFence) then s[..|s| - |ClosingFence|] else s;
    TrimIdempotent(body);
    Trim(body)
  }

  /** A matched attribute cuts the block into the text before it, the attribute and the text after it. */
  lemma TitleSlices(block: string, i: nat, j: nat)
    requires TitleAt(block, i, j)
    ensures block == block[..i] + TitleAttr + block[i + |TitleAttr|..j] + "\"" + block[j + 1..]
  {
    assert block[i..i + |TitleAttr|] == TitleAttr;
    assert block[j..j + 1] == "\"";
    assert block == block[..i] + block[i..i + |TitleAttr|] + block[i + |TitleAttr|..j] + block[j..j + 1] + block[j + 1..];
  }

  /** A body followed by the closing fence comes back trimmed and without the fence. */
  lemma FenceStripped(body: string)
    ensures WithoutClosingFence(body + ClosingFence) == Trim(body)
  {
    var s := body + ClosingFence;
    assert s[|s| - |ClosingFence|..] == ClosingFence;
    assert s[..|s| - |ClosingFence|] == body;
  }

  /** `content.split(/```exercise/).filter(Boolean)`. */
  function Blocks(content: string): (blocks: seq<string>)
    ensures forall k :: 0 <= k < |blocks| ==> blocks[k] != "" && !Contains(blocks[k], ExerciseMarker)
  {
    NonEmpty(Split(content, ExerciseMarker))
  }

  /** `.filter(Boolean)` on strings. */
  function NonEmpty(xs: seq<string>): (r: seq<string>)
    ensures |r| <= |xs|
    ensures forall k :: 0 <= k < |r| ==> r[k] != "" && r[k] in xs
    ensures forall k :: 0 <= k < |xs| && xs[k] != "" ==> xs[k] in r
  {
    if xs == [] then []
    else if xs[0] == "" then NonEmpty(xs[1..])
    else [xs[0]] + NonEmpty(xs[1..])
  }

  /** The filter on a piece followed by more pieces. */
  lemma NonEmptyCons(x: string, t: seq<string>)
    ensures NonEmpty([x] + t) == (if x == "" then [] else [x]) + NonEmpty(t)
  {
    assert ([x] + t)[0] == x && ([x] + t)[1..] == t;
  }

  /** The filter keeps the pieces of a concatenation in order: each side's survivors, left then right. */
  lemma {:induction false} NonEmptyAppend(a: seq<string>, b: seq<string>)
    ensures NonEmpty(a + b) == NonEmpty(a) + NonEmpty(b)
    decreases |a|
  {
    if a == [] {
      assert a + b == b;
    } else {
      var x, t := a[0], a[1..];
      var keep: seq<string> := if x == "" then [] else [x];
      NonEmptyAppend(t, b);
      assert a == [x] + t;
      AppendAssoc([x], t, b);
      NonEmptyCons(x, t + b);
      NonEmptyCons(x, t);
      AppendAssoc(keep, NonEmpty(t), NonEmpty(b));
    }
  }

  /** One piece survives the filter exactly when it is non-empty. */
  lemma NonEmptySingle(x: string)
    ensures NonEmpty([x]) == if x == "" then [] else [x]
  {
    assert [x][1..] == [];
  }

  /** The exercise marker has no proper prefix that is also a suffix, so its occurrences cannot overlap. */
  lemma MarkerUnbordered()
    ensures Unbordered(ExerciseMarker)
  {
    var m := ExerciseMarker;
    forall n | 0 < n < |m| ensures m[n..] != m[..|m| - n] {
      if n == 5 || n == 7 {
        assert m[n..][0] != m[..|m| - n][0];
      } else {
        assert m[n..][|m| - n - 1] != m[..|m| - n][|m| - n - 1];
      }
    }
  }

  /**
   * The blocks are the non-empty pieces, in order, of any cutting of the
   * content into marker-free pieces that the marker joins back together.
   */
  lemma BlocksArePieces(content: string, pieces: seq<string>)
    requires Join(pieces, ExerciseMarker) == content
    requires forall k :: 0 <= k < |pieces| ==> !Contains(pieces[k], ExerciseMarker)
    ensures Blocks(content) == NonEmpty(pieces)
  {
    MarkerUnbordered();
    FilterJoinedPieces(content, pieces, ExerciseMarker);
  }

  /** `BlocksArePieces` for any unbordered separator. */
  lemma FilterJoinedPieces(content: string, pieces: seq<string>, sep: string)
    requires sep != [] && Unbordered(sep) && Join(pieces, sep) == content
    requires forall k :: 0 <= k < |pieces| ==> !Contains(pieces[k], sep)
    ensures NonEmpty(Split(content, sep)) == NonEmpty(pieces)
  {
    if pieces == [] {
      assert content == [];
      SplitNoSeparator(content, sep);
      NonEmptySingle(content);
    } else {
      SplitJoinUnbordered(pieces, sep);
    }
  }

  /** The test the source applies before keeping an exercise: some field is a non-empty text. */
  predicate HasData(e: Exercise) {
    Truthy(e.description) || Truthy(e.hint) || Truthy(e.solution)
  }

  /** What one block contributes: its first parsed exercise with the block's title, if any. */
  function BlockExercise(block: string): (r: Option<Exercise>)
    ensures r.Some? ==> HasData(r.value) && r.value.title == Title(block)
    ensures var p := Parse(WithoutClosingFence(WithoutTitle(block)));
      (r.Some? <==> p != []) && (r.Some? ==> r.value == Exercise(Title(block), p[0].description, p[0].hint, p[0].solution))
  {
    var parsed := Parse(WithoutClosingFence(WithoutTitle(block)));
    if |parsed| > 0 then
      Some(Exercise(Title(block), parsed[0].description, parsed[0].hint, parsed[0].solution))
    else
      None
  }

  /** The present results of `f` over `blocks`, in order. */
  function Gather(f: string -> Option<Exercise>, blocks: seq<string>): seq<Exercise>
    decreases |blocks|
  {
    if blocks == [] then []
    else
      var init := Gather(f, blocks[..|blocks| - 1]);
      match f(blocks[|blocks| - 1])
      case Some(e) => init + [e]
      case None => init
  }

  /** The exercises of `blocks`, in block order, blocks that parse to nothing dropped. */
  function Collect(blocks: seq<string>): seq<Exercise> {
    Gather(BlockExercise, blocks)
  }

  /** At most one result per block, and only results `f` vouches for. */
  lemma {:induction false} GatherShape(f: string -> Option<Exercise>, blocks: seq<string>)
    requires forall b :: f(b).Some? ==> HasData(f(b).value)
    ensures |Gather(f, blocks)| <= |blocks|
    ensures forall k :: 0 <= k < |Gather(f, blocks)| ==> HasData(Gather(f, blocks)[k])
    decreases |blocks|
  {
    if blocks != [] {
      GatherShape(f, blocks[..|blocks| - 1]);
    }
  }

  /** At most one exercise comes from each block, each with a non-empty field. */
  lemma CollectShape(blocks: seq<string>)
    ensures |Collect(blocks)| <= |blocks|
    ensures forall k :: 0 <= k < |Collect(blocks)| ==> HasData(Collect(blocks)[k])
  {
    GatherShape(BlockExercise, blocks);
  }

  lemma CollectStep(blocks: seq<string>, i: nat)
    requires i < |blocks|
    ensures Collect(blocks[..i + 1]) == match BlockExercise(blocks[i])
      case Some(e) => Collect(blocks[..i]) + [e]
      case None => Collect(blocks[..i])
  {
    assert blocks[..i + 1][..i] == blocks[..i];
    assert Gather(BlockExercise, blocks[..i + 1]) == match BlockExercise(blocks[i])
      case Some(e) => Gather(BlockExercise, blocks[..i]) + [e]
      case None => Gather(BlockExercise, blocks[..i]);
  }

  /** `BlockExercise` in terms of the drafts parsed from the block's cleaned text. */
  lemma BlockExerciseOf(block: string, parsed: seq<Draft>)
    requires parsed == Parse(WithoutClosingFence(WithoutTitle(block)))
    ensures BlockExercise(block)
      == if |parsed| > 0 then Some(Exercise(Title(block), parsed[0].description, parsed[0].hint, parsed[0].solution)) else None
  {
  }

  /** `ExerciseList`'s loop over the blocks, before rendering. */
  method ExerciseList(content: string) returns (exercises: seq<Exercise>)
    ensures exercises == Collect(Blocks(content))
  {
    var blocks := Blocks(content);
    exercises := [];
    var i := 0;
    while i < |blocks|
      invariant 0 <= i <= |blocks|
      invariant exercises == Collect(blocks[..i])
    {
      var block := blocks[i];
      var title := Title(block);
      var contentWithoutTitle := WithoutTitle(block);
      var cleanContent := WithoutClosingFence(contentWithoutTitle);
      var parsed := ParseExercises(cleanContent);
      CollectStep(blocks, i);
      BlockExerciseOf(block, parsed);
      if |parsed| > 0 {
        exercises := exercises + [Exercise(title, parsed[0].description, parsed[0].hint, parsed[0].solution)];
      }
      i := i + 1;
    }
    assert blocks[..i] == blocks;
  }

  /** A step with no exercise marker is a single block: the whole (non-empty) text. */
  lemma NoMarkerSingleBlock(content: string)
    requires content != "" && !Contains(content, ExerciseMarker)
    ensures Blocks(content) == [content]
  {
    SplitNoSeparator(content, ExerciseMarker);
  }
}
