/** The two readers of a file's diff in export.go: parseStaticReviewHunks and the line loop of addedLinesByPath. */
module UnifiedDiff {
  import opened Loops
  import opened DiffText

  datatype Kind = Context | Removed | Added
  /** A line number that does not apply is 0. */
  datatype DiffLine = DiffLine(oldLine: nat, newLine: nat, kind: Kind, text: string)
  /** The identifier of a hunk is a function of its path and header. */
  datatype Hunk = Hunk(header: string, lines: seq<DiffLine>)

  predicate IsHeader(raw: string) { ParseHeader(raw).Some? }

  /** An empty line, or one that begins with a backslash: no part of the text. */
  predicate IsNote(raw: string) { raw == "" || raw[0] == '\\' }

  predicate Starts(raw: string, prefix: string) { prefix <= raw }

  // ---- parseStaticReviewHunks ----

  /** `current` is the last hunk, once there is one. */
  datatype Parsing = Parsing(hunks: seq<Hunk>, oldLine: nat, newLine: nat)

  const NOTHING_PARSED := Parsing([], 0, 0)

  function AppendLine(hunks: seq<Hunk>, line: DiffLine): seq<Hunk>
    requires hunks != []
  {
    var last := |hunks| - 1;
    hunks[last := hunks[last].(lines := hunks[last].lines + [line])]
  }

  /** A line that is no header. */
  function ParseContent(p: Parsing, raw: string): Parsing {
    if p.hunks == [] || IsNote(raw) then p
    else if raw[0] == ' ' then
      Parsing(AppendLine(p.hunks, DiffLine(p.oldLine, p.newLine, Context, raw[1..])), p.oldLine + 1, p.newLine + 1)
    else if raw[0] == '-' then
      Parsing(AppendLine(p.hunks, DiffLine(p.oldLine, 0, Removed, raw[1..])), p.oldLine + 1, p.newLine)
    else if raw[0] == '+' then
      Parsing(AppendLine(p.hunks, DiffLine(0, p.newLine, Added, raw[1..])), p.oldLine, p.newLine + 1)
    else p
  }

  function ParseLine(p: Parsing, raw: string): Parsing {
    match ParseHeader(raw)
    case Some((from, to)) => Parsing(p.hunks + [Hunk(raw, [])], from, to)
    case None => ParseContent(p, raw)
  }

  function ParseMore(p: Parsing, lines: seq<string>): Parsing {
    Fold(ParseLine, p, lines)
  }

  function ParseLines(lines: seq<string>): Parsing {
    ParseMore(NOTHING_PARSED, lines)
  }

  method ParseHunks(diff: string) returns (hunks: seq<Hunk>)
    ensures hunks == ParseLines(Split(diff)).hunks
  {
    var lines := Split(diff);
    hunks := [];
    var oldLine, newLine := 0, 0;
    for i := 0 to |lines|
      invariant Parsing(hunks, oldLine, newLine) == ParseLines(lines[..i])
    {
      assert lines[..i + 1][..i] == lines[..i];
      var raw := lines[i];
      var header := ParseHeader(raw);
      if header.Some? {
        oldLine, newLine := header.value.0, header.value.1;
        hunks := hunks + [Hunk(raw, [])];
        continue;
      }
      if hunks == [] || raw == "" || raw[0] == '\\' {
        continue;
      }
      if raw[0] == ' ' {
        hunks := AppendLine(hunks, DiffLine(oldLine, newLine, Context, raw[1..]));
        oldLine, newLine := oldLine + 1, newLine + 1;
      } else if raw[0] == '-' {
        hunks := AppendLine(hunks, DiffLine(oldLine, 0, Removed, raw[1..]));
        oldLine := oldLine + 1;
      } else if raw[0] == '+' {
        hunks := AppendLine(hunks, DiffLine(0, newLine, Added, raw[1..]));
        newLine := newLine + 1;
      }
    }
    assert lines[..|lines|] == lines;
  }

  // ---- Rendering, and what a parser should make of it ----

  datatype BodyLine = BodyLine(kind: Kind, text: string)
  datatype HunkSpec = HunkSpec(oldStart: nat, oldCount: nat, newStart: nat, newCount: nat, section: string,
                               body: seq<BodyLine>)

  ghost predicate Printable(h: HunkSpec) {
    && h.oldStart <= MAX_INT && h.newStart <= MAX_INT && OneLine(h.section)
    && (forall i :: 0 <= i < |h.body| ==> OneLine(h.body[i].text))
  }

  ghost predicate AllPrintable(hunks: seq<HunkSpec>) {
    forall i :: 0 <= i < |hunks| ==> Printable(hunks[i])
  }

  ghost predicate NoHeaders(lines: seq<string>) {
    forall i :: 0 <= i < |lines| ==> !IsHeader(lines[i])
  }

  function Header(h: HunkSpec): string {
    HeaderText(h.oldStart, h.oldCount, h.newStart, h.newCount, h.section)
  }

  function Marker(k: Kind): string {
    match k case Context => " " case Removed => "-" case Added => "+"
  }

  function RenderBody(body: seq<BodyLine>): seq<string> {
    seq(|body|, i requires 0 <= i < |body| => Marker(body[i].kind) + body[i].text)
  }

  function RenderHunk(h: HunkSpec): seq<string> {
    [Header(h)] + RenderBody(h.body)
  }

  function Render(hunks: seq<HunkSpec>): seq<string> {
    if hunks == [] then []
    else
      var h := hunks[|hunks| - 1];
      Render(hunks[..|hunks| - 1]) + RenderHunk(h)
  }

  /** How many of the lines stand in the old file, and how many in the new one. */
  function OldLines(body: seq<BodyLine>): nat {
    if body == [] then 0 else OldLines(body[..|body| - 1]) + if body[|body| - 1].kind.Added? then 0 else 1
  }

  function NewLines(body: seq<BodyLine>): nat {
    if body == [] then 0 else NewLines(body[..|body| - 1]) + if body[|body| - 1].kind.Removed? then 0 else 1
  }

  /** Line i carries the start line plus the number of lines of its side before it. */
  function NumberedLine(h: HunkSpec, i: nat): DiffLine
    requires i < |h.body|
  {
    var kind := h.body[i].kind;
    DiffLine(if kind.Added? then 0 else h.oldStart + OldLines(h.body[..i]),
             if kind.Removed? then 0 else h.newStart + NewLines(h.body[..i]), kind, h.body[i].text)
  }

  function NumberedLines(h: HunkSpec): seq<DiffLine> {
    seq(|h.body|, i requires 0 <= i < |h.body| => NumberedLine(h, i))
  }

  function Numbered(h: HunkSpec): Hunk { Hunk(Header(h), NumberedLines(h)) }

  function NumberedAll(hunks: seq<HunkSpec>): seq<Hunk> {
    seq(|hunks|, i requires 0 <= i < |hunks| => Numbered(hunks[i]))
  }

  lemma NotAHeader(raw: string)
    requires raw != "" && raw[0] != '@'
    ensures !IsHeader(raw)
  {
    assert "@@ -"[0] == '@';
  }

  /** The last hunk with one more line, and the numbers of the next one. */
  function WithLine(done: seq<Hunk>, last: Hunk, oldLine: nat, newLine: nat, line: BodyLine): Parsing {
    var next := DiffLine(if line.kind.Added? then 0 else oldLine, if line.kind.Removed? then 0 else newLine,
                         line.kind, line.text);
    Parsing(done + [last.(lines := last.lines + [next])],
            oldLine + (if line.kind.Added? then 0 else 1), newLine + (if line.kind.Removed? then 0 else 1))
  }

  /** Reading one rendered body line into the last hunk. */
  lemma ParseBodyLine(done: seq<Hunk>, last: Hunk, oldLine: nat, newLine: nat, line: BodyLine)
    ensures ParseLine(Parsing(done + [last], oldLine, newLine), Marker(line.kind) + line.text) ==
      WithLine(done, last, oldLine, newLine, line)
  {
    var raw := Marker(line.kind) + line.text;
    NotAHeader(raw);
    assert raw[1..] == line.text;
    assert (done + [last])[|done|] == last;
  }

  /** What the parser has read after the header and n lines of a rendered hunk. */
  function ReadSoFar(done: seq<Hunk>, header: string, h: HunkSpec, n: nat): Parsing
    requires n <= |h.body|
  {
    Parsing(done + [Hunk(header, NumberedLines(h)[..n])], h.oldStart + OldLines(h.body[..n]),
            h.newStart + NewLines(h.body[..n]))
  }

  lemma {:induction false} OldLinesNext(body: seq<BodyLine>, line: BodyLine)
    ensures OldLines(body + [line]) == OldLines(body) + if line.kind.Added? then 0 else 1
    ensures NewLines(body + [line]) == NewLines(body) + if line.kind.Removed? then 0 else 1
  {
    InitOf(body, line);
  }

  lemma LinesNext(h: HunkSpec, n: nat)
    requires n < |h.body|
    ensures NumberedLines(h)[..n + 1] == NumberedLines(h)[..n] + [NumberedLine(h, n)]
  {
    PrefixNext(NumberedLines(h), n);
  }

  lemma CountsNext(h: HunkSpec, n: nat)
    requires n < |h.body|
    ensures OldLines(h.body[..n + 1]) == OldLines(h.body[..n]) + if h.body[n].kind.Added? then 0 else 1
    ensures NewLines(h.body[..n + 1]) == NewLines(h.body[..n]) + if h.body[n].kind.Removed? then 0 else 1
  {
    PrefixNext(h.body, n);
    OldLinesNext(h.body[..n], h.body[n]);
  }

  lemma ParseStep(done: seq<Hunk>, header: string, h: HunkSpec, n: nat)
    requires n < |h.body|
    ensures ParseLine(ReadSoFar(done, header, h, n), Marker(h.body[n].kind) + h.body[n].text) ==
      ReadSoFar(done, header, h, n + 1)
  {
    ParseBodyLine(done, Hunk(header, NumberedLines(h)[..n]), h.oldStart + OldLines(h.body[..n]),
                  h.newStart + NewLines(h.body[..n]), h.body[n]);
    LinesNext(h, n);
    CountsNext(h, n);
  }

  lemma ParseBody(done: seq<Hunk>, header: string, h: HunkSpec)
    ensures ParseMore(ReadSoFar(done, header, h, 0), RenderBody(h.body)).hunks ==
      done + [Hunk(header, NumberedLines(h))]
  {
    var states := seq(|h.body| + 1, i requires 0 <= i <= |h.body| => ReadSoFar(done, header, h, i));
    forall i | 0 <= i < |h.body| ensures ParseLine(states[i], RenderBody(h.body)[i]) == states[i + 1] {
      ParseStep(done, header, h, i);
    }
    FoldThrough(ParseLine, states, RenderBody(h.body));
    assert NumberedLines(h)[..|h.body|] == NumberedLines(h);
  }

  lemma ParseHeaderLine(p: Parsing, h: HunkSpec)
    requires Printable(h)
    ensures ParseLine(p, Header(h)) == ReadSoFar(p.hunks, Header(h), h, 0)
  {
    HeaderRoundTrip(h.oldStart, h.oldCount, h.newStart, h.newCount, h.section);
  }

  lemma ParseHunk(p: Parsing, h: HunkSpec)
    requires Printable(h)
    ensures ParseMore(p, RenderHunk(h)).hunks == p.hunks + [Numbered(h)]
  {
    ParseHeaderLine(p, h);
    ParseBody(p.hunks, Header(h), h);
    FoldOne(ParseLine, p, Header(h));
    FoldConcat(ParseLine, p, [Header(h)], RenderBody(h.body));
  }

  lemma {:induction false} ParseRendered(before: seq<string>, hunks: seq<HunkSpec>)
    requires NoHeaders(before) && AllPrintable(hunks)
    ensures ParseLines(before + Render(hunks)).hunks == NumberedAll(hunks)
    decreases |hunks|
  {
    if hunks == [] {
      NothingBeforeHeader(before);
      assert before + Render(hunks) == before;
      assert NumberedAll(hunks) == [];
    } else {
      var init, h := hunks[..|hunks| - 1], hunks[|hunks| - 1];
      assert hunks == init + [h];
      assert AllPrintable(init);
      ParseRendered(before, init);
      ParseOneMore(before + Render(init), init, h);
      RenderLast(before, init, h);
    }
  }

  lemma {:induction false} RenderAppend(init: seq<HunkSpec>, h: HunkSpec)
    ensures Render(init + [h]) == Render(init) + RenderHunk(h)
  {
    InitOf(init, h);
  }

  lemma {:induction false} RenderLast(before: seq<string>, init: seq<HunkSpec>, h: HunkSpec)
    ensures before + Render(init + [h]) == before + Render(init) + RenderHunk(h)
  {
    RenderAppend(init, h);
    Assoc(before, Render(init), RenderHunk(h));
  }

  lemma NumberedOneMore(init: seq<HunkSpec>, h: HunkSpec)
    ensures NumberedAll(init + [h]) == NumberedAll(init) + [Numbered(h)]
  {}

  lemma ParseOneMore(lines: seq<string>, init: seq<HunkSpec>, h: HunkSpec)
    requires Printable(h) && ParseLines(lines).hunks == NumberedAll(init)
    ensures ParseLines(lines + RenderHunk(h)).hunks == NumberedAll(init + [h])
  {
    FoldConcat(ParseLine, NOTHING_PARSED, lines, RenderHunk(h));
    ParseHunk(ParseLines(lines), h);
    NumberedOneMore(init, h);
  }

  lemma {:induction false} NothingBeforeHeader(before: seq<string>)
    requires NoHeaders(before)
    ensures ParseLines(before) == NOTHING_PARSED
  {
    if before == [] {
    } else {
      NothingBeforeHeader(before[..|before| - 1]);
    }
  }

  lemma HunkOneLine(h: HunkSpec)
    requires Printable(h)
    ensures AllOneLine(RenderHunk(h))
  {
    HeaderOneLine(h.oldStart, h.oldCount, h.newStart, h.newCount, h.section);
    BodyOneLine(h.body);
  }

  lemma BodyOneLine(body: seq<BodyLine>)
    requires forall i :: 0 <= i < |body| ==> OneLine(body[i].text)
    ensures AllOneLine(RenderBody(body))
  {
    forall i | 0 <= i < |body| ensures OneLine(RenderBody(body)[i]) { assert OneLine(Marker(body[i].kind)); }
  }

  lemma {:induction false} RenderedOneLine(hunks: seq<HunkSpec>)
    requires AllPrintable(hunks)
    ensures AllOneLine(Render(hunks))
  {
    if hunks == [] {
    } else {
      RenderedOneLine(hunks[..|hunks| - 1]);
      HunkOneLine(hunks[|hunks| - 1]);
    }
  }

  lemma RangeOneLine(start: nat, count: nat)
    ensures OneLine(RangeText(start, count))
  {
    DigitsOneLine(Decimal(start));
    DigitsOneLine(Decimal(count));
    OneLineParts(",", Decimal(count));
    OneLineParts(Decimal(start), CountText(count));
  }

  lemma HeaderOneLine(from: nat, fromCount: nat, to: nat, toCount: nat, section: string)
    requires OneLine(section)
    ensures OneLine(HeaderText(from, fromCount, to, toCount, section))
  {
    RangeOneLine(from, fromCount);
    RangeOneLine(to, toCount);
    var d := " @@" + section;
    var c := RangeText(to, toCount) + d;
    var b := " +" + c;
    OneLineParts(" @@", section);
    OneLineParts(RangeText(to, toCount), d);
    OneLineParts(" +", c);
    OneLineParts(RangeText(from, fromCount), b);
    OneLineParts("@@ -", RangeText(from, fromCount) + b);
  }

  lemma DigitsOneLine(s: string)
    requires AllDigits(s)
    ensures OneLine(s)
  {}

  /**
   Parsing undoes printing: any hunks, printed behind any lines that are no hunk headers, are read
   back with consecutive numbers.
   */
  lemma {:induction false} ParsingUndoesPrinting(before: seq<string>, hunks: seq<HunkSpec>)
    requires AllOneLine(before) && NoHeaders(before) && AllPrintable(hunks)
    ensures ParseLines(Split(Join(before + Render(hunks)))).hunks == NumberedAll(hunks)
  {
    var lines := before + Render(hunks);
    ParseRendered(before, hunks);
    RenderedOneLine(hunks);
    if lines != [] {
      SplitJoin(lines);
    } else {
      assert Split("") == [""] && [""][..0] == [];
      assert !IsHeader("");
    }
  }

  // ---- Notes ----

  /** The lines without "\ No newline at end of file" and without empty lines. */
  function WithoutNotes(lines: seq<string>): seq<string> {
    if lines == [] then []
    else if IsNote(lines[|lines| - 1]) then WithoutNotes(lines[..|lines| - 1])
    else WithoutNotes(lines[..|lines| - 1]) + [lines[|lines| - 1]]
  }

  lemma NoteIsNoHeader(raw: string)
    requires IsNote(raw)
    ensures !IsHeader(raw)
  {
    if raw != "" { NotAHeader(raw); }
  }

  /** Notes between the lines change nothing. */
  lemma {:induction false} NotesChangeNothing(lines: seq<string>)
    ensures ParseLines(WithoutNotes(lines)) == ParseLines(lines)
  {
    if lines == [] {
    } else {
      var init, raw := lines[..|lines| - 1], lines[|lines| - 1];
      NotesChangeNothing(init);
      assert lines == init + [raw];
      FoldAppend(ParseLine, NOTHING_PARSED, init, raw);
      if IsNote(raw) {
        SkipNote(ParseLines(init), raw);
      } else {
        FoldAppend(ParseLine, NOTHING_PARSED, WithoutNotes(init), raw);
      }
    }
  }

  lemma SkipNote(p: Parsing, raw: string)
    requires IsNote(raw)
    ensures ParseLine(p, raw) == p
  {
    NoteIsNoHeader(raw);
  }

  /** No header, and neither context nor a change: a note, an empty line, or a line that diff itself writes. */
  predicate Foreign(raw: string) { !IsHeader(raw) && (raw == "" || raw[0] !in {' ', '-', '+'}) }

  function WithoutForeign(lines: seq<string>): seq<string> {
    if lines == [] then []
    else if Foreign(lines[|lines| - 1]) then WithoutForeign(lines[..|lines| - 1])
    else WithoutForeign(lines[..|lines| - 1]) + [lines[|lines| - 1]]
  }

  lemma SkipForeign(p: Parsing, raw: string)
    requires Foreign(raw)
    ensures ParseLine(p, raw) == p
  {}

  /** No foreign line changes anything. */
  lemma {:induction false} ForeignLinesChangeNothing(lines: seq<string>)
    ensures ParseLines(WithoutForeign(lines)) == ParseLines(lines)
  {
    if lines == [] {
    } else {
      var init, raw := lines[..|lines| - 1], lines[|lines| - 1];
      ForeignLinesChangeNothing(init);
      assert lines == init + [raw];
      FoldAppend(ParseLine, NOTHING_PARSED, init, raw);
      if Foreign(raw) {
        SkipForeign(ParseLines(init), raw);
      } else {
        FoldAppend(ParseLine, NOTHING_PARSED, WithoutForeign(init), raw);
      }
    }
  }
}
