/** The line loop of addedLinesByPath (export.go), and when it agrees with the hunk parser. */
module AddedLines {
  import opened Wrappers
  import opened Loops
  import opened DiffText
  import opened UnifiedDiff

  datatype Collecting = Collecting(added: map<nat, string>, line: nat)

  const NOTHING_COLLECTED := Collecting(map[], 0)

  /** The lines that the collector passes over without counting. */
  predicate PassedOver(raw: string) {
    raw == "" || Starts(raw, "\\\\") || Starts(raw, "+++") || Starts(raw, "---")
  }

  function CollectContent(c: Collecting, raw: string): Collecting {
    if c.line == 0 || PassedOver(raw) then c
    else if raw[0] == '+' then Collecting(c.added[c.line := raw[1..]], c.line + 1)
    else if raw[0] == ' ' then c.(line := c.line + 1)
    else c
  }

  function CollectLine(c: Collecting, raw: string): Collecting {
    match ParseHeader(raw)
    case Some((_, to)) => c.(line := to)
    case None => CollectContent(c, raw)
  }

  function CollectLines(lines: seq<string>): Collecting {
    Fold(CollectLine, NOTHING_COLLECTED, lines)
  }

  method CollectAdded(block: string) returns (added: map<nat, string>)
    ensures added == CollectLines(Split(block)).added
  {
    var lines := Split(block);
    added := map[];
    var line := 0;
    for i := 0 to |lines|
      invariant Collecting(added, line) == CollectLines(lines[..i])
    {
      assert lines[..i + 1][..i] == lines[..i];
      var raw := lines[i];
      var header := ParseHeader(raw);
      if header.Some? {
        line := header.value.1;
        continue;
      }
      if line == 0 || PassedOver(raw) {
        continue;
      }
      if raw[0] == '+' {
        added := added[line := raw[1..]];
        line := line + 1;
      } else if raw[0] == ' ' {
        line := line + 1;
      }
    }
    assert lines[..|lines|] == lines;
  }

  lemma CollectOneLine(c: Collecting, raw: string)
    requires (forall n :: n in c.added ==> OneLine(c.added[n])) && OneLine(raw)
    ensures forall n :: n in CollectContent(c, raw).added ==> OneLine(CollectContent(c, raw).added[n])
  {}

  /** What is collected is free of newlines. */
  lemma {:induction false} CollectedLines(lines: seq<string>)
    requires AllOneLine(lines)
    ensures forall n :: n in CollectLines(lines).added ==> OneLine(CollectLines(lines).added[n])
  {
    if lines == [] {
    } else {
      CollectedLines(lines[..|lines| - 1]);
      CollectOneLine(CollectLines(lines[..|lines| - 1]), lines[|lines| - 1]);
    }
  }

  // ---- The added lines among the hunks of the first reader ----

  function OnlyAdded(lines: seq<DiffLine>): seq<DiffLine> {
    if lines == [] then []
    else if lines[|lines| - 1].kind.Added? then OnlyAdded(lines[..|lines| - 1]) + [lines[|lines| - 1]]
    else OnlyAdded(lines[..|lines| - 1])
  }

  function AddedOf(hunks: seq<Hunk>): seq<DiffLine> {
    if hunks == [] then [] else AddedOf(hunks[..|hunks| - 1]) + OnlyAdded(hunks[|hunks| - 1].lines)
  }

  /** Text by new line number; of two lines with one number the later counts. */
  function TextByNumber(lines: seq<DiffLine>): map<nat, string> {
    if lines == [] then
      map[] else TextByNumber(lines[..|lines| - 1])[lines[|lines| - 1].newLine := lines[|lines| - 1].text]
  }

  ghost predicate DistinctNumbers(lines: seq<DiffLine>) {
    forall i, j :: 0 <= i < j < |lines| ==> lines[i].newLine != lines[j].newLine
  }

  lemma {:induction false} AddedOfAppended(hunks: seq<Hunk>, line: DiffLine)
    requires hunks != []
    ensures AddedOf(AppendLine(hunks, line)) == AddedOf(hunks) + if line.kind.Added? then [line] else []
  {
    var n := |hunks| - 1;
    var lines := hunks[n].lines;
    assert AppendLine(hunks, line)[..n] == hunks[..n];
    assert (lines + [line])[..|lines|] == lines;
  }

  lemma {:induction false} AddedOfNewHunk(hunks: seq<Hunk>, raw: string)
    ensures AddedOf(hunks + [Hunk(raw, [])]) == AddedOf(hunks)
  {
    assert (hunks + [Hunk(raw, [])])[..|hunks|] == hunks;
  }

  lemma {:induction false} TextOfAppended(lines: seq<DiffLine>, line: DiffLine)
    ensures TextByNumber(lines + [line]) == TextByNumber(lines)[line.newLine := line.text]
  {
    assert (lines + [line])[..|lines|] == lines;
  }

  lemma {:induction false} NumbersInText(lines: seq<DiffLine>, n: nat)
    ensures n in TextByNumber(lines) <==> exists i :: 0 <= i < |lines| && lines[i].newLine == n
  {
    if lines == [] {
    } else {
      NumbersInText(lines[..|lines| - 1], n);
    }
  }

  lemma {:induction false} DistinctNumbersCount(lines: seq<DiffLine>)
    requires DistinctNumbers(lines)
    ensures |TextByNumber(lines)| == |lines|
  {
    if lines == [] {
    } else {
      var init, last := lines[..|lines| - 1], lines[|lines| - 1];
      DistinctNumbersCount(init);
      NumbersInText(init, last.newLine);
    }
  }

  // ---- One line, read by both ----

  predicate Plus(raw: string) { raw != "" && raw[0] == '+' }

  predicate Blank(raw: string) { raw != "" && raw[0] == ' ' }

  /** Inside a hunk the first reader takes a line with this prefix for an added one. */
  predicate Skips(p: Parsing, raw: string) { p.hunks != [] && Starts(raw, "+++") }

  /** A line of the new file stands on line 1 or later. */
  predicate OnALine(p: Parsing, raw: string) {
    p.hunks != [] && (Plus(raw) || Blank(raw)) ==> p.newLine > 0
  }

  ghost predicate InStep(p: Parsing, c: Collecting) {
    && c.line == p.newLine
    && c.added == TextByNumber(AddedOf(p.hunks))
    && (p.hunks == [] ==> p.newLine == 0)
  }

  lemma ParsedAdded(p: Parsing, raw: string)
    ensures AddedOf(ParseContent(p, raw).hunks) ==
            AddedOf(p.hunks) + if p.hunks != [] && Plus(raw) then [DiffLine(0, p.newLine, Added, raw[1..])] else []
  {
    if p.hunks != [] && !IsNote(raw) {
      if raw[0] == ' ' {
        AddedOfAppended(p.hunks, DiffLine(p.oldLine, p.newLine, Context, raw[1..]));
      } else if raw[0] == '-' {
        AddedOfAppended(p.hunks, DiffLine(p.oldLine, 0, Removed, raw[1..]));
      } else if raw[0] == '+' {
        AddedOfAppended(p.hunks, DiffLine(0, p.newLine, Added, raw[1..]));
      }
    }
  }

  lemma ParsedNumber(p: Parsing, raw: string)
    ensures ParseContent(p, raw).newLine == p.newLine + if p.hunks != [] && (Plus(raw) || Blank(raw)) then 1 else 0
    ensures ParseContent(p, raw).hunks == [] <==> p.hunks == []
  {}

  lemma Collected(c: Collecting, raw: string)
    requires !Starts(raw, "+++") || c.line == 0
    ensures CollectContent(c, raw).line == c.line + if c.line != 0 && (Plus(raw) || Blank(raw)) then 1 else 0
    ensures CollectContent(c, raw).added == if c.line != 0 && Plus(raw) then c.added[c.line := raw[1..]] else c.added
  {}

  lemma ContentStaysInStep(p: Parsing, c: Collecting, raw: string)
    requires InStep(p, c) && !Skips(p, raw) && OnALine(p, raw)
    ensures InStep(ParseContent(p, raw), CollectContent(c, raw))
  {
    ParsedNumber(p, raw);
    Collected(c, raw);
    ParsedAdded(p, raw);
    if p.hunks != [] && Plus(raw) {
      TextOfAppended(AddedOf(p.hunks), DiffLine(0, p.newLine, Added, raw[1..]));
    }
  }

  lemma StaysInStep(p: Parsing, c: Collecting, raw: string)
    requires InStep(p, c) && !Skips(p, raw) && (!IsHeader(raw) ==> OnALine(p, raw))
    ensures InStep(ParseLine(p, raw), CollectLine(c, raw))
  {
    if IsHeader(raw) {
      AddedOfNewHunk(p.hunks, raw);
    } else {
      ContentStaysInStep(p, c, raw);
    }
  }

  lemma CollectedCount(c: Collecting, raw: string)
    ensures |CollectContent(c, raw).added| <=
      |c.added| + if c.line != 0 && Plus(raw) && !Starts(raw, "+++") then 1 else 0
  {}

  /** Each skipped line leaves the collector one line short. */
  lemma ContentFallsBehind(p: Parsing, c: Collecting, raw: string, skipped: nat)
    requires |c.added| + skipped <= |AddedOf(p.hunks)| && (p.hunks == [] ==> c.line == 0)
    ensures |CollectContent(c, raw).added| + skipped + (if Skips(p, raw) then 1 else 0) <=
      |AddedOf(ParseContent(p, raw).hunks)|
    ensures p.hunks == [] ==> CollectContent(c, raw).line == 0
  {
    ParsedAdded(p, raw);
    CollectedCount(c, raw);
  }

  lemma FallsBehind(p: Parsing, c: Collecting, raw: string, skipped: nat)
    requires |c.added| + skipped <= |AddedOf(p.hunks)| && (p.hunks == [] ==> c.line == 0)
    ensures |CollectLine(c, raw).added| + skipped + (if Skips(p, raw) then 1 else 0) <=
      |AddedOf(ParseLine(p, raw).hunks)|
    ensures ParseLine(p, raw).hunks == [] ==> CollectLine(c, raw).line == 0
  {
    if IsHeader(raw) {
      if Starts(raw, "+++") { NotAHeader(raw); }
      AddedOfNewHunk(p.hunks, raw);
    } else {
      ContentFallsBehind(p, c, raw, skipped);
    }
  }

  // ---- Whole diffs ----

  function SkipCount(lines: seq<string>): nat {
    if lines == [] then 0
    else
      var n := |lines| - 1;
      SkipCount(lines[..n]) + if Skips(ParseLines(lines[..n]), lines[n]) then 1 else 0
  }

  /** The line begins with "+++" and some line before it is a hunk header. */
  predicate SkippedAfter(before: seq<string>, raw: string) { Starts(raw, "+++") && Any(IsHeader, before) }

  predicate SkipsALine(lines: seq<string>) { AnyAfter(SkippedAfter, lines) }

  ghost predicate AllOnALine(lines: seq<string>) {
    forall i :: 0 <= i < |lines| && !IsHeader(lines[i]) ==> OnALine(ParseLines(lines[..i]), lines[i])
  }

  lemma HunkAfter(p: Parsing, raw: string)
    ensures ParseLine(p, raw).hunks != [] <==> p.hunks != [] || IsHeader(raw)
  {}

  lemma {:induction false} InAHunkIff(lines: seq<string>)
    ensures ParseLines(lines).hunks != [] <==> Any(IsHeader, lines)
  {
    if lines == [] {
    } else {
      var n := |lines| - 1;
      InAHunkIff(lines[..n]);
      HunkAfter(ParseLines(lines[..n]), lines[n]);
      AnyLast(IsHeader, lines);
    }
  }

  lemma {:induction false} SkipCountIff(lines: seq<string>)
    ensures SkipCount(lines) > 0 <==> SkipsALine(lines)
  {
    if lines == [] {
    } else {
      SkipCountIff(lines[..|lines| - 1]);
      InAHunkIff(lines[..|lines| - 1]);
      AnyAfterLast(SkippedAfter, lines);
    }
  }

  lemma AllOnALineLast(lines: seq<string>)
    requires lines != [] && AllOnALine(lines)
    ensures AllOnALine(lines[..|lines| - 1])
    ensures !IsHeader(lines[|lines| - 1]) ==> OnALine(ParseLines(lines[..|lines| - 1]), lines[|lines| - 1])
  {
    var init := lines[..|lines| - 1];
    forall i | 0 <= i < |init| && !IsHeader(init[i]) ensures OnALine(ParseLines(init[..i]), init[i]) {
      assert init[..i] == lines[..i];
    }
  }

  lemma {:induction false} BothInStep(lines: seq<string>)
    requires SkipCount(lines) == 0 && AllOnALine(lines)
    ensures InStep(ParseLines(lines), CollectLines(lines))
  {
    if lines == [] {
    } else {
      var n := |lines| - 1;
      AllOnALineLast(lines);
      BothInStep(lines[..n]);
      StaysInStep(ParseLines(lines[..n]), CollectLines(lines[..n]), lines[n]);
    }
  }

  lemma {:induction false} CollectsTooFew(lines: seq<string>)
    ensures |CollectLines(lines).added| + SkipCount(lines) <= |AddedOf(ParseLines(lines).hunks)|
    ensures ParseLines(lines).hunks == [] ==> CollectLines(lines).line == 0
  {
    if lines == [] {
    } else {
      var n := |lines| - 1;
      CollectsTooFew(lines[..n]);
      FallsBehind(ParseLines(lines[..n]), CollectLines(lines[..n]), lines[n], SkipCount(lines[..n]));
    }
  }

  /**
   On a well-formed diff the two readers find the same added lines exactly when no line inside a hunk begins with "+++".
   */
  lemma ReadersAgreeIff(lines: seq<string>)
    requires AllOnALine(lines) && DistinctNumbers(AddedOf(ParseLines(lines).hunks))
    ensures CollectLines(lines).added == TextByNumber(AddedOf(ParseLines(lines).hunks)) <==> !SkipsALine(lines)
  {
    SkipCountIff(lines);
    CollectsTooFew(lines);
    DistinctNumbersCount(AddedOf(ParseLines(lines).hunks));
    if SkipCount(lines) == 0 { BothInStep(lines); }
  }

  /** A loop over three elements. */
  lemma FoldThree<S, T>(step: (S, T) -> S, s: S, a: T, b: T, c: T)
    ensures Fold(step, s, [a, b, c]) == step(step(step(s, a), b), c)
  {
    FoldOne(step, s, a);
    FoldAppend(step, s, [a], b);
    FoldAppend(step, s, [a, b], c);
    assert [a] + [b] == [a, b] && [a, b] + [c] == [a, b, c];
  }

  lemma ReadThree(header: string, a: string, b: string, p: Parsing, c: Collecting)
    requires IsHeader(header) && !IsHeader(a) && !IsHeader(b)
    requires p == ParseLine(NOTHING_PARSED, header) && c == CollectLine(NOTHING_COLLECTED, header)
    ensures ParseLines([header, a, b]) == ParseContent(ParseContent(p, a), b)
    ensures CollectLines([header, a, b]) == CollectContent(CollectContent(c, a), b)
  {
    FoldThree(ParseLine, NOTHING_PARSED, header, a, b);
    FoldThree(CollectLine, NOTHING_COLLECTED, header, a, b);
  }

  lemma ParsePlus(header: string, lines: seq<DiffLine>, newLine: nat, raw: string)
    requires Plus(raw)
    ensures ParseContent(Parsing([Hunk(header, lines)], 1, newLine), raw) ==
            Parsing([Hunk(header, lines + [DiffLine(0, newLine, Added, raw[1..])])], 1, newLine + 1)
  {}

  lemma CollectPlus(a: string, b: string)
    requires Starts(a, "+++") && Plus(b) && !PassedOver(b)
    ensures CollectContent(Collecting(map[], 1), a) == Collecting(map[], 1)
    ensures CollectContent(Collecting(map[], 1), b) == Collecting(map[1 := b[1..]], 2)
  {}

  lemma ReadBoth(header: string, a: string, b: string)
    requires Starts(a, "+++") && Plus(b) && !PassedOver(b)
    ensures ParseContent(ParseContent(Parsing([Hunk(header, [])], 1, 1), a), b).hunks ==
            [Hunk(header, [DiffLine(0, 1, Added, a[1..]), DiffLine(0, 2, Added, b[1..])])]
    ensures CollectContent(CollectContent(Collecting(map[], 1), a), b).added == map[1 := b[1..]]
  {
    var line := DiffLine(0, 1, Added, a[1..]);
    ParsePlus(header, [], 1, a);
    assert [] + [line] == [line];
    ParsePlus(header, [line], 2, b);
    assert [line] + [DiffLine(0, 2, Added, b[1..])] == [line, DiffLine(0, 2, Added, b[1..])];
    CollectPlus(a, b);
  }

  lemma NoneIsAHeader(a: string, b: string)
    requires Starts(a, "+++") && Plus(b)
    ensures !IsHeader(a) && !IsHeader(b)
  {
    NotAHeader(a);
    NotAHeader(b);
  }

  /** Of two added lines the first, whose text begins with "++", is dropped and the second gets its number. */
  lemma PlusPlusExample(header: string, a: string, b: string)
    requires ParseHeader(header) == Some((1, 1)) && Starts(a, "+++") && Plus(b) && !PassedOver(b)
    ensures ParseLines([header, a, b]).hunks ==
      [Hunk(header, [DiffLine(0, 1, Added, a[1..]), DiffLine(0, 2, Added, b[1..])])]
    ensures CollectLines([header, a, b]).added == map[1 := b[1..]]
  {
    NoneIsAHeader(a, b);
    ReadBoth(header, a, b);
    assert [] + [Hunk(header, [])] == [Hunk(header, [])];
    ReadThree(header, a, b, Parsing([Hunk(header, [])], 1, 1), Collecting(map[], 1));
  }

  /**
   The same for a header as diff prints it: the file gains the lines "++x" and "y", and only "y" is
   collected, as line 1.
   */
  lemma PlusPlusPrinted(header: string)
    requires header == HeaderText(1, 0, 1, 2, "")
    ensures ParseLines([header, "+++x", "+y"]).hunks ==
      [Hunk(header, [DiffLine(0, 1, Added, "++x"), DiffLine(0, 2, Added, "y")])]
    ensures CollectLines([header, "+++x", "+y"]).added == map[1 := "y"]
  {
    HeaderRoundTrip(1, 0, 1, 2, "");
    PlusPlusExample(header, "+++x", "+y");
  }
}
