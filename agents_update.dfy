/**
 * The AGENTS.md updater: collects tagged lines from session logs, renders them as an
 * auto-generated section and splices that section into the block between the
 * CODEX-TOOLKIT markers, leaving everything outside the block alone.
 */
module AgentsUpdate {
  import opened Wrappers
  import opened Text
  import opened Seqs

  const CODEX_START: string := "<!-- CODEX-TOOLKIT:START -->"
  const CODEX_END: string := "<!-- CODEX-TOOLKIT:END -->"
  const AUTO_START: string := "<!-- CODEX-TOOLKIT:AUTO:START -->"
  const AUTO_END: string := "<!-- CODEX-TOOLKIT:AUTO:END -->"

  const MISSING_MARKERS: string := "Missing CODEX-TOOLKIT markers in AGENTS.md"
  const OUTSIDE_CHANGED: string := "Update would modify content outside CODEX markers"

  // ---------------------------------------------------------------------
  // Order-preserving dedupe
  // ---------------------------------------------------------------------

  /** Keeps the first occurrence of each value, tracking the values seen so far in a set. */
  method DedupePreserve(values: seq<string>) returns (output: seq<string>)
    ensures output == Dedupe(values)
  {
    var seen: set<string> := {};
    output := [];
    var i := 0;
    while i < |values|
      invariant 0 <= i <= |values|
      invariant output == Dedupe(values[..i])
      invariant forall x :: x in seen <==> x in output
    {
      var value := values[i];
      assert values[..i + 1][..i] == values[..i];
      if value !in seen {
        seen := seen + {value};
        output := output + [value];
      }
      i := i + 1;
    }
    assert values[..i] == values;
  }

  /** The dedupe keeps first occurrences in order, drops every duplicate, loses no value and is idempotent. */
  lemma DedupePreserveSpec(values: seq<string>)
    ensures IsSubsequence(Dedupe(values), values)
    ensures NoDuplicates(Dedupe(values))
    ensures forall x :: x in Dedupe(values) <==> x in values
    ensures Dedupe(Dedupe(values)) == Dedupe(values)
    ensures KeptFirst(values, Dedupe(values), Id) && KeptInOrder(values, Dedupe(values), Id)
  {
    DedupeFirstOrder(values);
    DedupeSubsequence(values);
    DedupeNoDuplicates(values);
    DedupeIdempotent(values);
  }

  // ---------------------------------------------------------------------
  // The marked block
  // ---------------------------------------------------------------------

  /** The four marker comments; every operation on the block is stated for any markers. */
  datatype Markers = Markers(start: string, end: string, autoStart: string, autoEnd: string)

  const TOOLKIT: Markers := Markers(CODEX_START, CODEX_END, AUTO_START, AUTO_END)

  /**
   * The end marker is shorter than the start marker, cannot be found inside it, and the
   * start marker does not begin with whitespace.
   */
  predicate Separated(mk: Markers) {
    && |mk.end| < |mk.start|
    && !IsSpace(mk.start[0])
    && forall d | 0 <= d && d + |mk.end| < |mk.start| :: !OccursAt(mk.start, mk.end, d)
  }

  lemma ToolkitSeparated()
    ensures Separated(TOOLKIT)
  {
    var mk := TOOLKIT;
    assert |mk.start| == 28 && |mk.end| == 26;
    forall d | 0 <= d && d + |mk.end| < |mk.start|
      ensures !OccursAt(mk.start, mk.end, d)
    {
      if d == 0 {
        assert mk.start[19] != mk.end[19];
      } else {
        assert mk.start[1] != mk.end[0];
      }
    }
  }

  /** AGENTS.md cut into the text before the block, the block itself (markers included) and the rest. */
  datatype Marked = Marked(prefix: string, block: string, suffix: string)

  /** The markers exist and the first end marker does not come before the first start marker. */
  predicate HasBlock(text: string, mk: Markers) {
    var start := Find(text, mk.start);
    var end := Find(text, mk.end);
    start >= 0 && end >= 0 && end >= start
  }

  /** Cuts the text at the first start marker and just after the first end marker. */
  function SplitBlock(text: string, mk: Markers): (r: Result<Marked, string>)
    ensures r.Err? <==> !HasBlock(text, mk)
    ensures r.Err? ==> r.error == MISSING_MARKERS
    ensures r.Ok? ==> r.value.prefix + r.value.block + r.value.suffix == text
    ensures r.Ok? ==> EndsWith(r.value.block, mk.end)
  {
    var start := Find(text, mk.start);
    var end := Find(text, mk.end);
    if start == -1 || end == -1 || end < start then Err(MISSING_MARKERS)
    else
      var stop := end + |mk.end|;
      assert text[..start] + text[start..stop] + text[stop..] == text;
      Ok(Marked(text[..start], text[start..stop], text[stop..]))
  }

  /** `_split_marked`: the block between the CODEX-TOOLKIT markers. */
  function SplitMarked(text: string): (r: Result<Marked, string>)
    ensures r.Err? <==> !HasBlock(text, TOOLKIT)
    ensures r.Ok? ==> r.value.prefix + r.value.block + r.value.suffix == text
    ensures r.Ok? ==> StartsWith(r.value.block, CODEX_START) && EndsWith(r.value.block, CODEX_END)
  {
    if HasBlock(text, TOOLKIT) then
      ToolkitSeparated();
      SplitBlockShape(text, TOOLKIT);
      SplitBlock(text, TOOLKIT)
    else SplitBlock(text, TOOLKIT)
  }

  /** The first end marker cannot start inside the first start marker, so it ends after it. */
  lemma MarkersApart(text: string, mk: Markers)
    requires Separated(mk) && HasBlock(text, mk)
    ensures Find(text, mk.end) + |mk.end| >= Find(text, mk.start) + |mk.start|
  {
    var start := Find(text, mk.start);
    var end := Find(text, mk.end);
    if end + |mk.end| < start + |mk.start| {
      NestedOccurrence(text, mk.start, mk.end, start, end);
    }
  }

  /** A needle found inside an occurrence of a longer needle occurs in that needle. */
  lemma NestedOccurrence(text: string, outer: string, inner: string, start: nat, end: nat)
    requires OccursAt(text, outer, start) && OccursAt(text, inner, end)
    requires start <= end && end + |inner| <= start + |outer|
    ensures OccursAt(outer, inner, end - start)
  {
    var d := end - start;
    forall i | 0 <= i < |inner| ensures outer[d + i] == inner[i] {
      assert outer[d + i] == text[start..start + |outer|][d + i];
      assert inner[i] == text[end..end + |inner|][i];
    }
    assert outer[d..d + |inner|] == inner;
  }

  /** The block runs from the first start marker through the first end marker. */
  lemma SplitBlockShape(text: string, mk: Markers)
    requires Separated(mk) && HasBlock(text, mk)
    ensures var m := SplitBlock(text, mk).value;
      m.prefix == text[..Find(text, mk.start)]
      && StartsWith(m.block, mk.start)
      && m.block == text[Find(text, mk.start)..Find(text, mk.end) + |mk.end|]
  {
    var start := Find(text, mk.start);
    var m := SplitBlock(text, mk).value;
    assert m.prefix == text[..start];
    assert m.block == text[start..Find(text, mk.end) + |mk.end|];
    assert StartsWith(m.block, mk.start) by {
      MarkersApart(text, mk);
      assert m.block[..|mk.start|] == text[start..start + |mk.start|];
    }
  }

  /** Stripping trailing whitespace never reaches back past a non-space character. */
  lemma {:induction false} RStripAfter(a: string, b: string)
    requires b != [] && !IsSpace(b[0])
    ensures RStrip(a + b) == a + RStrip(b)
    decreases |b|
  {
    var ab := a + b;
    if IsSpace(b[|b| - 1]) {
      var b' := b[..|b| - 1];
      assert ab[..|ab| - 1] == a + b';
      RStripAfter(a, b');
    }
  }

  // ---------------------------------------------------------------------
  // Splicing the auto section into the block
  // ---------------------------------------------------------------------

  /** The block with the auto section put in: over the old auto span, or just before the end marker. */
  function PlaceSection(block: string, section: string, mk: Markers): string
    requires EndsWith(block, mk.end)
  {
    if Contains(block, mk.autoStart) && Contains(block, mk.autoEnd) then
      var autoStart := Find(block, mk.autoStart);
      var autoEnd := Find(block, mk.autoEnd) + |mk.autoEnd|;
      block[..autoStart] + section + block[autoEnd..]
    else
      var insertAt := RFind(block, mk.end);
      (RStrip(block[..insertAt]) + "\n\n") + section + ("\n\n" + block[insertAt..])
  }

  /** The updated text; the outside-the-block guard can never fire. */
  function UpdateContent(text: string, section: string, mk: Markers): (r: Result<string, string>)
    ensures r.Ok? <==> HasBlock(text, mk)
    ensures r.Err? ==> r.error == MISSING_MARKERS
    ensures r.Ok? ==> StartsWith(r.value, SplitBlock(text, mk).value.prefix)
    ensures r.Ok? ==> EndsWith(r.value, SplitBlock(text, mk).value.suffix)
  {
    match SplitBlock(text, mk)
    case Err(e) => Err(e)
    case Ok(m) =>
      var updated := m.prefix + PlaceSection(m.block, section, mk) + m.suffix;
      assert updated[..|m.prefix|] == m.prefix;
      assert updated[|updated| - |m.suffix|..] == m.suffix;
      if StartsWith(updated, m.prefix) && EndsWith(updated, m.suffix) then Ok(updated)
      else Err(OUTSIDE_CHANGED)
  }

  /** Inserting after the trimmed start of `block` inside `text == prefix + block + suffix`. */
  lemma InsertSplice(text: string, prefix: string, block: string, suffix: string, at: nat, stop: nat, section: string)
    requires prefix + block + suffix == text && 0 < at <= |block| && !IsSpace(block[0])
    requires stop == |prefix| + at
    ensures prefix + ((RStrip(block[..at]) + "\n\n") + section + ("\n\n" + block[at..])) + suffix
      == RStrip(text[..stop]) + "\n\n" + section + "\n\n" + text[stop..]
  {
    assert text[..stop] == prefix + block[..at];
    assert text[stop..] == block[at..] + suffix;
    RStripAfter(prefix, block[..at]);
  }

  /**
   * Proof step: with the markers present, the update unfolds to the block
   * with the section placed, between the untouched outside parts.
   */
  lemma UpdateIsSplice(text: string, section: string, mk: Markers)
    requires HasBlock(text, mk)
    ensures var m := SplitBlock(text, mk).value;
      UpdateContent(text, section, mk).value == m.prefix + PlaceSection(m.block, section, mk) + m.suffix
  {
  }

  /**
   * With both auto markers in the block, the span of the block from the
   * first auto start through the end of the first auto end is replaced by
   * the section, and everything else is kept in place.
   */
  lemma UpdateReplacesAutoSpan(text: string, section: string, mk: Markers)
    requires HasBlock(text, mk)
    requires var block := SplitBlock(text, mk).value.block;
      Contains(block, mk.autoStart) && Contains(block, mk.autoEnd)
    ensures var m := SplitBlock(text, mk).value;
      UpdateContent(text, section, mk).value
        == m.prefix + (m.block[..Find(m.block, mk.autoStart)] + section + m.block[Find(m.block, mk.autoEnd) + |mk.autoEnd|..]) + m.suffix
  {
    UpdateIsSplice(text, section, mk);
    PlaceAutoSpan(SplitBlock(text, mk).value.block, section, mk);
  }

  /** Otherwise the section goes just before the end marker, after the trimmed text before it, padded by blank lines. */
  lemma UpdateInsertsBeforeEnd(text: string, section: string, mk: Markers)
    requires Separated(mk) && HasBlock(text, mk)
    requires var block := SplitBlock(text, mk).value.block;
      !(Contains(block, mk.autoStart) && Contains(block, mk.autoEnd))
    ensures var end := Find(text, mk.end);
      UpdateContent(text, section, mk).value
        == RStrip(text[..end]) + "\n\n" + section + "\n\n" + text[end..]
  {
    UpdateIsSplice(text, section, mk);
    SplitBlockShape(text, mk);
    MarkersApart(text, mk);
    var m := SplitBlock(text, mk).value;
    var insertAt := RFind(m.block, mk.end);
    assert insertAt == Find(text, mk.end) - Find(text, mk.start);
    assert m.block[0] == mk.start[0];
    assert PlaceSection(m.block, section, mk)
      == (RStrip(m.block[..insertAt]) + "\n\n") + section + ("\n\n" + m.block[insertAt..]);
    InsertSplice(text, m.prefix, m.block, m.suffix, insertAt, Find(text, mk.end), section);
  }

  lemma ContainsSpliced(p: string, x: string, mid: string, y: string, q: string)
    ensures Contains(p + (x + mid + y) + q, mid)
  {
    var r := p + (x + mid + y) + q;
    assert r[|p| + |x|..|p| + |x| + |mid|] == mid;
    ContainsAt(r, mid, |p| + |x|);
  }

  /** Whenever the markers are there, the new section appears in the result. */
  lemma UpdateShowsSection(text: string, section: string, mk: Markers)
    requires HasBlock(text, mk)
    ensures Contains(UpdateContent(text, section, mk).value, section)
  {
    UpdateIsSplice(text, section, mk);
    var m := SplitBlock(text, mk).value;
    var before, after := PlaceSectionAround(m.block, section, mk);
    ContainsSpliced(m.prefix, before, section, after, m.suffix);
  }

  /** Proof step: the first branch of `PlaceSection`, unfolded for callers that know both auto markers are present. */
  lemma PlaceAutoSpan(block: string, section: string, mk: Markers)
    requires EndsWith(block, mk.end) && Contains(block, mk.autoStart) && Contains(block, mk.autoEnd)
    ensures PlaceSection(block, section, mk)
      == block[..Find(block, mk.autoStart)] + section + block[Find(block, mk.autoEnd) + |mk.autoEnd|..]
  {
  }

  /** The placed block is the section with some text on either side. */
  lemma PlaceSectionAround(block: string, section: string, mk: Markers) returns (before: string, after: string)
    requires EndsWith(block, mk.end)
    ensures PlaceSection(block, section, mk) == before + section + after
  {
    if Contains(block, mk.autoStart) && Contains(block, mk.autoEnd) {
      PlaceAutoSpan(block, section, mk);
      before := block[..Find(block, mk.autoStart)];
      after := block[Find(block, mk.autoEnd) + |mk.autoEnd|..];
    } else {
      var insertAt := RFind(block, mk.end);
      before := RStrip(block[..insertAt]) + "\n\n";
      after := "\n\n" + block[insertAt..];
    }
  }

  /** `update_agents_content` with the CODEX-TOOLKIT markers. */
  function UpdateAgentsContent(text: string, section: string): (r: Result<string, string>)
    ensures r.Ok? <==> HasBlock(text, TOOLKIT)
    ensures r.Ok? ==> Contains(r.value, section)
    ensures r.Ok? ==> StartsWith(r.value, SplitMarked(text).value.prefix)
    ensures r.Ok? ==> EndsWith(r.value, SplitMarked(text).value.suffix)
  {
    if HasBlock(text, TOOLKIT) then
      UpdateShowsSection(text, section, TOOLKIT);
      UpdateContent(text, section, TOOLKIT)
    else UpdateContent(text, section, TOOLKIT)
  }

  // ---------------------------------------------------------------------
  // Rendering the auto section
  // ---------------------------------------------------------------------

  const HEADING: string := "#### Session Notes (Auto)"
  /** The fallback todo; written in two pieces because the verifier reads characters only out of short literals. */
  const DEFAULT_TODO: string := "Review recent sessions for updates; " + "no explicit AGENTS_NOTE found."
  const TODO_TAG: string := "todo:"
  const TODO_PREFIX: string := "TODO: "

  /** `todo.lower().startswith("todo:")`. */
  predicate HasTodoTag(t: string) {
    StartsWith(Lower(t), TODO_TAG)
  }

  /** One todo bullet: the "TODO: " prefix is added unless the todo already carries the tag in some case. */
  function TodoLine(t: string): string {
    if HasTodoTag(t) then "- " + t else "- " + TODO_PREFIX + t
  }

  /** Every todo bullet reads "- " then text tagged "todo:" in some case, and ends with the todo itself. */
  lemma TodoLineTagged(t: string)
    ensures var line := TodoLine(t);
      |line| >= 2 && line[..2] == "- " && HasTodoTag(line[2..]) && EndsWith(line, t)
    ensures HasTodoTag(t) ==> TodoLine(t) == "- " + t
  {
    var line := TodoLine(t);
    if !HasTodoTag(t) {
      assert line[2..] == TODO_PREFIX + t;
      LowerConcat(TODO_PREFIX, t);
      assert Lower(TODO_PREFIX)[..|TODO_TAG|] == TODO_TAG;
    }
    assert line[|line| - |t|..] == t;
  }

  /** The bullets for the notes, in order. */
  function NoteLines(notes: seq<string>): (r: seq<string>)
    ensures |r| == |notes|
    ensures forall i | 0 <= i < |notes| :: r[i] == "- " + notes[i]
    decreases |notes|
  {
    if notes == [] then []
    else NoteLines(notes[..|notes| - 1]) + ["- " + notes[|notes| - 1]]
  }

  /** The bullets for the todos, in order. */
  function TodoLines(todos: seq<string>): (r: seq<string>)
    ensures |r| == |todos|
    ensures forall i | 0 <= i < |todos| :: r[i] == TodoLine(todos[i])
    decreases |todos|
  {
    if todos == [] then []
    else TodoLines(todos[..|todos| - 1]) + [TodoLine(todos[|todos| - 1])]
  }

  /** The todos actually rendered: the default one when there is nothing at all to report. */
  function RenderedTodos(notes: seq<string>, todos: seq<string>): seq<string> {
    if notes == [] && todos == [] then [DEFAULT_TODO] else todos
  }

  /** The lines of the auto section. */
  function AutoLines(notes: seq<string>, todos: seq<string>): seq<string> {
    [AUTO_START, HEADING] + NoteLines(notes) + TodoLines(RenderedTodos(notes, todos)) + [AUTO_END]
  }

  /** Builds the section line by line and joins the lines with newlines. */
  method RenderAutoSection(notes: seq<string>, todos: seq<string>) returns (section: string)
    ensures section == Join(AutoLines(notes, todos), "\n")
  {
    var rendered := todos;
    if |notes| == 0 && |todos| == 0 {
      rendered := [DEFAULT_TODO];
    }
    var lines := [AUTO_START, HEADING];
    for i := 0 to |notes|
      invariant lines == [AUTO_START, HEADING] + NoteLines(notes[..i])
    {
      assert notes[..i + 1][..i] == notes[..i];
      lines := lines + ["- " + notes[i]];
    }
    assert notes[..|notes|] == notes;
    for j := 0 to |rendered|
      invariant lines == [AUTO_START, HEADING] + NoteLines(notes) + TodoLines(rendered[..j])
    {
      assert rendered[..j + 1][..j] == rendered[..j];
      var todo := rendered[j];
      if HasTodoTag(todo) {
        lines := lines + ["- " + todo];
      } else {
        lines := lines + ["- " + TODO_PREFIX + todo];
      }
    }
    assert rendered[..|rendered|] == rendered;
    lines := lines + [AUTO_END];
    section := Join(lines, "\n");
  }

  /** The joined text starts with the first part and ends with the last. */
  lemma {:induction false} JoinEnds(parts: seq<string>, sep: string)
    requires parts != []
    ensures StartsWith(Join(parts, sep), parts[0])
    ensures EndsWith(Join(parts, sep), parts[|parts| - 1])
    decreases |parts|
  {
    if |parts| > 1 {
      JoinEnds(parts[1..], sep);
      var rest := Join(parts[1..], sep);
      var r := Join(parts, sep);
      assert r == parts[0] + sep + rest;
      assert r[|r| - |rest|..] == rest;
      assert r[..|parts[0]|] == parts[0];
    }
  }

  /** The lines open with the auto start marker and the heading, list every note then every rendered todo, and close with the auto end marker. */
  lemma AutoLinesShape(notes: seq<string>, todos: seq<string>)
    ensures var lines := AutoLines(notes, todos);
      var rendered := RenderedTodos(notes, todos);
      && |lines| == 3 + |notes| + |rendered|
      && lines[0] == AUTO_START && lines[1] == HEADING && lines[|lines| - 1] == AUTO_END
      && (forall i | 0 <= i < |notes| :: lines[2 + i] == "- " + notes[i])
      && (forall i | 0 <= i < |rendered| :: lines[2 + |notes| + i] == TodoLine(rendered[i]))
  {
    var lines, rendered := AutoLines(notes, todos), RenderedTodos(notes, todos);
    FramedParts(lines, NoteLines(notes), TodoLines(rendered));
    TodoBullets(lines, 2 + |notes|, rendered);
  }

  /** Lines holding the todo lines from position `at` on hold the todo bullets. */
  lemma TodoBullets(lines: seq<string>, at: nat, rendered: seq<string>)
    requires at + |rendered| <= |lines|
    requires forall i | 0 <= i < |rendered| :: lines[at + i] == TodoLines(rendered)[i]
    ensures forall i | 0 <= i < |rendered| :: lines[at + i] == TodoLine(rendered[i])
  {
    forall i | 0 <= i < |rendered|
      ensures lines[at + i] == TodoLine(rendered[i])
    {
      assert lines[at + i] == TodoLines(rendered)[i];
    }
  }

  /** Where each part sits in the framed list of lines. */
  lemma FramedParts(lines: seq<string>, noteLines: seq<string>, todoLines: seq<string>)
    requires lines == [AUTO_START, HEADING] + noteLines + todoLines + [AUTO_END]
    ensures |lines| == 3 + |noteLines| + |todoLines|
    ensures lines[0] == AUTO_START && lines[1] == HEADING && lines[|lines| - 1] == AUTO_END
    ensures forall i | 0 <= i < |noteLines| :: lines[2 + i] == noteLines[i]
    ensures forall i | 0 <= i < |todoLines| :: lines[2 + |noteLines| + i] == todoLines[i]
  {
  }

  /** With no notes and no todos the only bullet is the default todo. */
  lemma AutoLinesDefault()
    ensures AutoLines([], []) == [AUTO_START, HEADING, "- " + TODO_PREFIX + DEFAULT_TODO, AUTO_END]
  {
    assert !HasTodoTag(DEFAULT_TODO) by {
      assert DEFAULT_TODO[0] == 'R';
      assert Lower(DEFAULT_TODO)[0] == LowerChar('R') == 'r';
    }
    assert TodoLines([DEFAULT_TODO]) == [TodoLine(DEFAULT_TODO)];
  }

  /** The rendered section starts with the auto start marker and ends with the auto end marker. */
  lemma AutoSectionFramed(notes: seq<string>, todos: seq<string>)
    ensures var section := Join(AutoLines(notes, todos), "\n");
      StartsWith(section, AUTO_START) && EndsWith(section, AUTO_END)
  {
    var lines := AutoLines(notes, todos);
    AutoLinesShape(notes, todos);
    JoinEnds(lines, "\n");
  }

  // ---------------------------------------------------------------------
  // Reading tagged lines from the sessions
  // ---------------------------------------------------------------------

  const NOTE_TAG: string := "AGENTS_NOTE:"
  const TODO_LINE_TAG: string := "AGENTS_TODO:"
  const SKILL_TAG: string := "SKILL_SUGGESTION:"
  const SOURCE_OPEN: string := " (source: "

  /** A suggested skill, with the session file it came from. */
  datatype Skill = Skill(name: string, description: string, source: string)

  /** What one session line contributes. */
  datatype LineUpdate = Note(text: string) | Todo(text: string) | Suggest(skill: Skill) | Ignored

  /** A session log given by its file name and its lines. */
  datatype SessionFile = SessionFile(name: string, lines: seq<string>)

  /**
   * The pattern "optional whitespace, the tag, optional whitespace, at least one more
   * character", with the captured text stripped.
   */
  function TagPayload(line: string, tag: string): (r: Option<string>)
    ensures r.Some? ==> Strip(r.value) == r.value
  {
    var rest := LStrip(line);
    if StartsWith(rest, tag) && |rest| > |tag| then
      StripIdempotent(rest[|tag|..]);
      Some(Strip(rest[|tag|..]))
    else None
  }

  /** An indented tagged line reads back as its payload. */
  lemma TagPayloadRoundTrip(indent: string, tag: string, payload: string)
    requires IsBlank(indent) && tag != [] && !IsSpace(tag[0])
    requires payload != [] && Strip(payload) == payload
    ensures TagPayload(indent + tag + payload, tag) == Some(payload)
  {
    var rest := tag + payload;
    assert LStrip(indent + tag + payload) == rest by {
      assert indent + tag + payload == indent + rest;
      LStripOfBlank(indent);
      LStripConcat(indent, rest);
    }
    assert rest[|tag|..] == payload;
  }

  /** The stripped text before position `at` and after the `width` characters there. */
  function Halves(payload: string, at: nat, width: nat): (r: (string, string))
    requires at + width <= |payload|
    ensures Strip(r.0) == r.0 && Strip(r.1) == r.1
  {
    StripIdempotent(payload[..at]);
    StripIdempotent(payload[at + width..]);
    (Strip(payload[..at]), Strip(payload[at + width..]))
  }

  /** No character before the first occurrence of `[c]` (or anywhere, if none) is `c`. */
  lemma FreeBeforeFind(hay: string, c: char)
    ensures var k := Find(hay, [c]);
      FreeOf(hay[..if k >= 0 then k else |hay|], c)
  {
    var k := Find(hay, [c]);
    var stop := if k >= 0 then k else |hay|;
    forall j | 0 <= j < stop
      ensures hay[j] != c
    {
      assert !OccursAt(hay, [c], j);
      assert hay[j..j + 1] == [hay[j]];
    }
  }

  lemma StripFree(s: string, c: char)
    requires FreeOf(s, c)
    ensures FreeOf(Strip(s), c)
  {
    StripChars(s);
    assert forall i | 0 <= i < |Strip(s)| :: Strip(s)[i] in Strip(s);
  }

  /** Splits a suggestion at the first ":", or else at the first " - "; both halves stripped. */
  function ParseSkillPayload(payload: string): (r: (string, string))
    ensures FreeOf(r.0, ':')
    ensures Strip(r.0) == r.0 && Strip(r.1) == r.1
    ensures !Contains(payload, ":") && !Contains(payload, " - ") ==> r == (Strip(payload), "")
  {
    var colon := Find(payload, ":");
    FreeBeforeFind(payload, ':');
    if colon >= 0 then
      StripFree(payload[..colon], ':');
      Halves(payload, colon, 1)
    else
      var dash := Find(payload, " - ");
      if dash >= 0 then
        assert payload[..dash] == payload[..|payload|][..dash];
        StripFree(payload[..dash], ':');
        Halves(payload, dash, 3)
      else
        StripFree(payload, ':');
        StripIdempotent(payload);
        (Strip(payload), "")
  }

  /** A payload whose first colon follows `a` is split there. */
  lemma ParseSkillAtColon(a: string, b: string)
    requires FreeOf(a, ':')
    ensures ParseSkillPayload(a + ":" + b) == (Strip(a), Strip(b))
  {
    var p := a + ":" + b;
    assert p[..|a|] == a && p[|a|] == ':' && p[|a| + 1..] == b;
    ColonAt(p, a, b);
  }

  /** The same, for a payload given by its parts. */
  lemma ColonAt(p: string, a: string, b: string)
    requires |p| == |a| + 1 + |b| && p[..|a|] == a && p[|a|] == ':' && p[|a| + 1..] == b
    requires FreeOf(a, ':')
    ensures ParseSkillPayload(p) == (Strip(a), Strip(b))
  {
    assert p[|a|..|a| + 1] == ":";
    assert OccursAt(p, ":", |a|);
    forall j | 0 <= j < |a|
      ensures !OccursAt(p, ":", j)
    {
      assert p[j] == a[j];
    }
    assert Find(p, ":") == |a|;
  }

  /**
   * The decision for one line given what each of the three patterns captured: the note pattern
   * is tried first, then the todo pattern, then the skill pattern; the first that matches
   * decides, and an empty payload (or an empty skill name) makes the line count for nothing.
   */
  function Decide(note: Option<string>, todo: Option<string>, skill: Option<string>, source: string): (u: LineUpdate)
    ensures u.Note? <==> note.Some? && note.value != ""
    ensures u.Note? ==> u.text == note.value + SOURCE_OPEN + source + ")"
    ensures u.Todo? <==> note.None? && todo.Some? && todo.value != ""
    ensures u.Todo? ==> u.text == todo.value + SOURCE_OPEN + source + ")"
    ensures u.Suggest? <==> note.None? && todo.None? && skill.Some? && skill.value != "" && ParseSkillPayload(skill.value).0 != ""
    ensures u.Suggest? ==> u.skill == Skill(ParseSkillPayload(skill.value).0, ParseSkillPayload(skill.value).1, source)
  {
    match note
    case Some(payload) => if payload != "" then Note(payload + SOURCE_OPEN + source + ")") else Ignored
    case None =>
      match todo
      case Some(payload) => if payload != "" then Todo(payload + SOURCE_OPEN + source + ")") else Ignored
      case None =>
        match skill
        case Some(payload) =>
          if payload == "" then Ignored
          else
            var (name, description) := ParseSkillPayload(payload);
            if name != "" then Suggest(Skill(name, description, source)) else Ignored
        case None => Ignored
  }

  /** One session line, matched against the three tagged patterns. */
  function Classify(line: string, source: string): LineUpdate {
    Decide(TagPayload(line, NOTE_TAG), TagPayload(line, TODO_LINE_TAG), TagPayload(line, SKILL_TAG), source)
  }

  /** The lines of one file, classified in order (by `Classify`, or by any other classifier). */
  function FileUpdates(f: SessionFile, classify: (string, string) -> LineUpdate): seq<LineUpdate> {
    seq(|f.lines|, k requires 0 <= k < |f.lines| => classify(f.lines[k], f.name))
  }

  /** The lines of all files, classified, file after file. */
  function AllUpdates(files: seq<SessionFile>, classify: (string, string) -> LineUpdate): seq<LineUpdate>
    decreases |files|
  {
    if files == [] then [] else AllUpdates(files[..|files| - 1], classify) + FileUpdates(files[|files| - 1], classify)
  }

  function NotesOf(us: seq<LineUpdate>): seq<string>
    decreases |us|
  {
    if us == [] then []
    else NotesOf(us[..|us| - 1]) + if us[|us| - 1].Note? then [us[|us| - 1].text] else []
  }

  function TodosOf(us: seq<LineUpdate>): seq<string>
    decreases |us|
  {
    if us == [] then []
    else TodosOf(us[..|us| - 1]) + if us[|us| - 1].Todo? then [us[|us| - 1].text] else []
  }

  function SkillsOf(us: seq<LineUpdate>): seq<Skill>
    decreases |us|
  {
    if us == [] then []
    else SkillsOf(us[..|us| - 1]) + if us[|us| - 1].Suggest? then [us[|us| - 1].skill] else []
  }

  /** Adding one update extends the notes, todos and skills by what it carries. */
  lemma OfSnoc(us: seq<LineUpdate>, u: LineUpdate)
    ensures NotesOf(us + [u]) == NotesOf(us) + if u.Note? then [u.text] else []
    ensures TodosOf(us + [u]) == TodosOf(us) + if u.Todo? then [u.text] else []
    ensures SkillsOf(us + [u]) == SkillsOf(us) + if u.Suggest? then [u.skill] else []
  {
    assert (us + [u])[..|us|] == us;
  }

  /** Files one classified line under the notes, the todos or the skills. */
  method Absorb(u: LineUpdate, ghost before: seq<LineUpdate>, notes: seq<string>, todos: seq<string>, skills: seq<Skill>)
    returns (notes': seq<string>, todos': seq<string>, skills': seq<Skill>)
    requires notes == NotesOf(before) && todos == TodosOf(before) && skills == SkillsOf(before)
    ensures notes' == NotesOf(before + [u]) && todos' == TodosOf(before + [u]) && skills' == SkillsOf(before + [u])
  {
    notes', todos', skills' := notes, todos, skills;
    match u {
      case Note(text) => notes' := notes + [text];
      case Todo(text) => todos' := todos + [text];
      case Suggest(skill) => skills' := skills + [skill];
      case Ignored =>
    }
    OfSnoc(before, u);
  }

  /** Files one more file's lines, as `classify` sorts them, into the notes, todos and skills collected so far. */
  method ScanFile(f: SessionFile, classify: (string, string) -> LineUpdate,
                  ghost before: seq<LineUpdate>, notes: seq<string>, todos: seq<string>, skills: seq<Skill>)
    returns (notes': seq<string>, todos': seq<string>, skills': seq<Skill>)
    requires notes == NotesOf(before) && todos == TodosOf(before) && skills == SkillsOf(before)
    ensures var after := before + FileUpdates(f, classify);
      notes' == NotesOf(after) && todos' == TodosOf(after) && skills' == SkillsOf(after)
  {
    ghost var ups := FileUpdates(f, classify);
    ghost var scanned := before;
    notes', todos', skills' := notes, todos, skills;
    for j := 0 to |f.lines|
      invariant scanned == Extended(before, ups, j)
      invariant notes' == NotesOf(scanned) && todos' == TodosOf(scanned) && skills' == SkillsOf(scanned)
    {
      var u := classify(f.lines[j], f.name);
      notes', todos', skills' := Absorb(u, scanned, notes', todos', skills');
      scanned := scanned + [u];
    }
    assert scanned == before + FileUpdates(f, classify) by {
      ExtendedAll(before, ups, |ups|);
      assert ups[..|ups|] == ups;
    }
  }

  /** `before` followed by the first `j` elements of `ups`, one element at a time. */
  ghost function Extended(before: seq<LineUpdate>, ups: seq<LineUpdate>, j: nat): seq<LineUpdate>
    requires j <= |ups|
  {
    if j == 0 then before else Extended(before, ups, j - 1) + [ups[j - 1]]
  }

  lemma {:induction false} ExtendedAll(before: seq<LineUpdate>, ups: seq<LineUpdate>, j: nat)
    requires j <= |ups|
    ensures Extended(before, ups, j) == before + ups[..j]
  {
    if j > 0 {
      ExtendedAll(before, ups, j - 1);
      assert ups[..j] == ups[..j - 1] + [ups[j - 1]];
    }
  }

  /** Scans every line of every file, then dedupes the notes and the todos (not the skills). */
  method CollectSessionUpdates(files: seq<SessionFile>) returns (notes: seq<string>, todos: seq<string>, skills: seq<Skill>)
    ensures notes == Dedupe(NotesOf(AllUpdates(files, Classify)))
    ensures todos == Dedupe(TodosOf(AllUpdates(files, Classify)))
    ensures skills == SkillsOf(AllUpdates(files, Classify))
  {
    var allNotes: seq<string> := [];
    var allTodos: seq<string> := [];
    skills := [];
    var i := 0;
    while i < |files|
      invariant 0 <= i <= |files|
      invariant allNotes == NotesOf(AllUpdates(files[..i], Classify))
      invariant allTodos == TodosOf(AllUpdates(files[..i], Classify))
      invariant skills == SkillsOf(AllUpdates(files[..i], Classify))
    {
      assert files[..i + 1][..i] == files[..i];
      allNotes, allTodos, skills := ScanFile(files[i], Classify, AllUpdates(files[..i], Classify), allNotes, allTodos, skills);
      i := i + 1;
    }
    assert files[..i] == files;
    notes := DedupePreserve(allNotes);
    todos := DedupePreserve(allTodos);
  }

  /** A value is collected exactly when some line was classified as carrying it. */
  lemma {:induction false} OfIff(us: seq<LineUpdate>)
    ensures forall x :: x in NotesOf(us) <==> Note(x) in us
    ensures forall x :: x in TodosOf(us) <==> Todo(x) in us
    ensures forall x :: x in SkillsOf(us) <==> Suggest(x) in us
    decreases |us|
  {
    if us != [] {
      var init := us[..|us| - 1];
      OfIff(init);
      assert us == init + [us[|us| - 1]];
    }
  }

  /** Every classified update comes from some line of some file. */
  lemma {:induction false} AllUpdatesFrom(files: seq<SessionFile>, classify: (string, string) -> LineUpdate, u: LineUpdate)
    requires u in AllUpdates(files, classify)
    ensures exists i, k | 0 <= i < |files| && 0 <= k < |files[i].lines| :: classify(files[i].lines[k], files[i].name) == u
    decreases |files|
  {
    var init := files[..|files| - 1];
    if u in AllUpdates(init, classify) {
      AllUpdatesFrom(init, classify, u);
      var i, k :| 0 <= i < |init| && 0 <= k < |init[i].lines| && classify(init[i].lines[k], init[i].name) == u;
      assert files[i] == init[i];
    } else {
      var last := files[|files| - 1];
      var k :| 0 <= k < |last.lines| && FileUpdates(last, classify)[k] == u;
    }
  }

  /**
   * The collected notes hold no duplicate and are exactly the notes of the classified lines;
   * likewise the todos. Skills are kept as they come, repeats included.
   */
  lemma CollectedSpec(files: seq<SessionFile>, classify: (string, string) -> LineUpdate)
    ensures var notes := Dedupe(NotesOf(AllUpdates(files, classify)));
      NoDuplicates(notes) && forall x :: x in notes <==> Note(x) in AllUpdates(files, classify)
    ensures var todos := Dedupe(TodosOf(AllUpdates(files, classify)));
      NoDuplicates(todos) && forall x :: x in todos <==> Todo(x) in AllUpdates(files, classify)
    ensures forall x :: x in SkillsOf(AllUpdates(files, classify)) <==> Suggest(x) in AllUpdates(files, classify)
  {
    OfIff(AllUpdates(files, classify));
    DedupePreserveSpec(NotesOf(AllUpdates(files, classify)));
    DedupePreserveSpec(TodosOf(AllUpdates(files, classify)));
  }

  /** A collected note is a non-empty payload of some file's note line, followed by that file's name. */
  lemma NoteSourced(files: seq<SessionFile>, x: string)
    requires x in Dedupe(NotesOf(AllUpdates(files, Classify)))
    ensures exists i, k | 0 <= i < |files| && 0 <= k < |files[i].lines| ::
      var p := TagPayload(files[i].lines[k], NOTE_TAG);
      p.Some? && p.value != "" && x == p.value + SOURCE_OPEN + files[i].name + ")"
  {
    CollectedSpec(files, Classify);
    AllUpdatesFrom(files, Classify, Note(x));
  }

  // ---------------------------------------------------------------------
  // Skill file names
  // ---------------------------------------------------------------------

  /** A character a slug may hold besides the dash. */
  predicate SlugChar(c: char) { IsLowerAscii(c) || IsDigit(c) }

  predicate AllSlugChars(p: string) {
    forall i | 0 <= i < |p| :: SlugChar(p[i])
  }

  /** Lower-case letters and digits in dash-separated runs: no leading, trailing or doubled dash. */
  predicate IsSlug(s: string) {
    s != [] && SlugChar(s[0]) && SlugChar(s[|s| - 1]) &&
    forall i | 0 <= i < |s| :: SlugChar(s[i]) || (s[i] == '-' && 0 < i < |s| - 1 && SlugChar(s[i + 1]))
  }

  predicate Filled(part: string) { part != "" }

  /** The lower-cased name with every character that is not a letter or digit turned into a dash. */
  function Cleaned(name: string): (r: string)
    ensures |r| == |name|
    ensures forall i | 0 <= i < |r| :: r[i] == '-' || SlugChar(r[i])
  {
    var low := Lower(name);
    seq(|low|, i requires 0 <= i < |low| => if IsAlnum(low[i]) then low[i] else '-')
  }

  /** The non-empty dash-separated runs of the cleaned name. */
  function SlugParts(name: string): seq<string> {
    Filter(SplitOn(Cleaned(name), '-'), Filled)
  }

  /** `_slugify`: the runs joined by single dashes, or "skill" when there are none. */
  function Slugify(name: string): (r: string)
    ensures r != ""
    ensures r == "skill" <==> Join(SlugParts(name), "-") == "" || Join(SlugParts(name), "-") == "skill"
  {
    var joined := Join(SlugParts(name), "-");
    if joined == "" then "skill" else joined
  }

  lemma {:induction false} SplitOnSlugChars(s: string)
    requires forall i | 0 <= i < |s| :: s[i] == '-' || SlugChar(s[i])
    ensures forall k | 0 <= k < |SplitOn(s, '-')| :: AllSlugChars(SplitOn(s, '-')[k])
    decreases |s|
  {
    if s != [] {
      SplitOnSlugChars(s[1..]);
    }
  }

  /** Every run kept by the slug is non-empty and made of slug characters. */
  lemma SlugPartsShape(name: string)
    ensures forall k | 0 <= k < |SlugParts(name)| :: SlugParts(name)[k] != "" && AllSlugChars(SlugParts(name)[k])
  {
    SplitOnSlugChars(Cleaned(name));
    FilterSpec(SplitOn(Cleaned(name), '-'), Filled);
    forall k | 0 <= k < |SlugParts(name)|
      ensures SlugParts(name)[k] != "" && AllSlugChars(SlugParts(name)[k])
    {
      assert SlugParts(name)[k] in SlugParts(name);
    }
  }

  lemma {:induction false} JoinSlug(parts: seq<string>)
    requires parts != []
    requires forall k | 0 <= k < |parts| :: parts[k] != "" && AllSlugChars(parts[k])
    ensures IsSlug(Join(parts, "-"))
    decreases |parts|
  {
    if |parts| > 1 {
      JoinSlug(parts[1..]);
      var head, rest := parts[0], Join(parts[1..], "-");
      assert Join(parts, "-") == head + "-" + rest;
      assert AllSlugChars(head);
    }
  }

  /** Whatever the name, the slug is a well-formed slug. */
  lemma SlugifyIsSlug(name: string)
    ensures IsSlug(Slugify(name))
  {
    SlugPartsShape(name);
    if SlugParts(name) != [] {
      JoinSlug(SlugParts(name));
    }
  }

  lemma {:induction false} FilterKeepsAll<T>(xs: seq<T>, p: T -> bool)
    requires forall k | 0 <= k < |xs| :: p(xs[k])
    ensures Filter(xs, p) == xs
    decreases |xs|
  {
    if xs != [] {
      FilterKeepsAll(xs[..|xs| - 1], p);
    }
  }

  /** Cleaning leaves a string of slug characters and dashes as it is. */
  lemma CleanedFixpoint(s: string)
    requires forall i | 0 <= i < |s| :: s[i] == '-' || SlugChar(s[i])
    ensures Cleaned(s) == s
  {
    assert IsLowered(s);
    LoweredFixpoint(s);
  }

  /** A slug of well-formed runs is its own slug. */
  lemma SlugOfJoined(parts: seq<string>)
    requires parts != []
    requires forall k | 0 <= k < |parts| :: parts[k] != "" && AllSlugChars(parts[k])
    ensures Slugify(Join(parts, "-")) == Join(parts, "-")
  {
    var s := Join(parts, "-");
    JoinedRuns(parts, s);
    FilterKeepsAll(parts, Filled);
    assert SlugParts(s) == parts;
  }

  /** Well-formed runs joined by dashes clean to themselves and split back into the runs. */
  lemma JoinedRuns(parts: seq<string>, s: string)
    requires parts != [] && s == Join(parts, "-")
    requires forall k | 0 <= k < |parts| :: parts[k] != "" && AllSlugChars(parts[k])
    ensures SplitOn(Cleaned(s), '-') == parts
  {
    JoinSlug(parts);
    CleanedFixpoint(s);
    forall k | 0 <= k < |parts| ensures FreeOf(parts[k], '-') {
      assert AllSlugChars(parts[k]);
    }
    SplitOnJoin(parts, '-');
  }

  /** `_slugify` is idempotent. */
  lemma SlugifyIdempotent(name: string)
    ensures Slugify(Slugify(name)) == Slugify(name)
  {
    SlugPartsShape(name);
    if SlugParts(name) == [] {
      SlugOfJoined(["skill"]);
    } else {
      SlugOfJoined(SlugParts(name));
    }
  }

  function SkillFileName(base: string): string { base + ".md" }

  /** The n-th alternative file name, `<base>_v<n>.md`. */
  function VersionedName(base: string, n: nat): string {
    base + "_v" + NatToString(n) + ".md"
  }

  /** Distinct counters give distinct alternative names. */
  lemma VersionedInjective(base: string, a: nat, b: nat)
    requires VersionedName(base, a) == VersionedName(base, b)
    ensures a == b
  {
    var x, y := VersionedName(base, a), VersionedName(base, b);
    var pre := |base| + 2;
    assert x[pre..|x| - 3] == NatToString(a);
    assert y[pre..|y| - 3] == NatToString(b);
    NatToStringInjective(a, b);
  }

  /**
   * The file name `_write_skill_file` picks among the names already present: the plain
   * name when forced or free, otherwise the first free `_v<n>` name counting from 2.
   */
  method ChooseSkillTarget(base: string, existing: set<string>, force: bool) returns (target: string)
    ensures force || SkillFileName(base) !in existing ==> target == SkillFileName(base)
    ensures !force && SkillFileName(base) in existing ==>
      exists n: nat | n >= 2 :: target == VersionedName(base, n) && target !in existing &&
        forall k: nat | 2 <= k < n :: VersionedName(base, k) in existing
  {
    target := SkillFileName(base);
    if target in existing && !force {
      var counter: nat := 2;
      ghost var tried: set<string> := {};
      while VersionedName(base, counter) in existing
        invariant counter >= 2
        invariant tried <= existing
        invariant forall k: nat | 2 <= k < counter :: VersionedName(base, k) in tried
        invariant forall x | x in tried :: exists k: nat | 2 <= k < counter :: x == VersionedName(base, k)
        decreases existing - tried
      {
        var candidate := VersionedName(base, counter);
        if candidate in tried {
          var k: nat :| 2 <= k < counter && candidate == VersionedName(base, k);
          VersionedInjective(base, k, counter);
          assert false;
        }
        tried := tried + {candidate};
        counter := counter + 1;
      }
      target := VersionedName(base, counter);
    }
  }

  /** The lines `_write_skill_file` writes for a suggestion; a missing description becomes a placeholder. */
  function SkillFileLines(skill: Skill): (lines: seq<string>)
    ensures |lines| == 5 && lines[1] == "" && lines[3] == ""
    ensures lines[0] == "# " + skill.name && lines[4] == "Source: " + skill.source
    ensures lines[2] != ""
    ensures skill.description != "" ==> lines[2] == skill.description
  {
    var placeholder := "TODO: Add skill description.";
    assert placeholder[0] == 'T';
    ["# " + skill.name, "", if skill.description == "" then placeholder else skill.description, "", "Source: " + skill.source]
  }

  /** The skill file's text: its lines joined by newlines, with a final newline. */
  function SkillFileContent(skill: Skill): (r: string)
    ensures r != "" && r[|r| - 1] == '\n'
  {
    Join(SkillFileLines(skill), "\n") + "\n"
  }

  /** When no field holds a line break, splitting the file back into lines gives the lines written. */
  lemma SkillFileReadsBack(skill: Skill)
    requires FreeOf(skill.name, '\n') && FreeOf(skill.description, '\n') && FreeOf(skill.source, '\n')
    ensures var r := SkillFileContent(skill); SplitOn(r[..|r| - 1], '\n') == SkillFileLines(skill)
  {
    var lines := SkillFileLines(skill);
    var r := SkillFileContent(skill);
    assert r[..|r| - 1] == Join(lines, "\n");
    forall k | 0 <= k < |lines| ensures FreeOf(lines[k], '\n') {
      if k == 0 {
        assert lines[0] == "# " + skill.name;
      } else if k == 4 {
        assert lines[4] == "Source: " + skill.source;
      }
    }
    SplitOnJoin(lines, '\n');
  }
}
