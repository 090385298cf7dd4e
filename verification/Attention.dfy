/** Which lines of a text changed (attention.go): a difference of multisets that keeps the order of the new lines. */
module Attention {
  import opened Loops
  import opened DiffText

  datatype AttentionLine = AttentionLine(number: nat, text: string)

  // ---- attentionTextLines ----

  function UnixLines(s: string): string {
    if s == "" then ""
    else if |s| > 1 && s[0] == '\r' && s[1] == '\n' then "\n" + UnixLines(s[2..])
    else [s[0]] + UnixLines(s[1..])
  }

  function TextLines(contents: string): seq<string> {
    var unix := UnixLines(contents);
    var text := if unix != "" && unix[|unix| - 1] == '\n' then unix[..|unix| - 1] else unix;
    if text == "" then [] else Split(text)
  }

  /** A line that does not end in a carriage return. */
  predicate NoReturn(s: string) { s == "" || s[|s| - 1] != '\r' }

  /** The lines with a line end behind each. */
  function Ended(lines: seq<string>, end: string): string {
    if lines == [] then "" else lines[0] + end + Ended(lines[1..], end)
  }

  lemma {:induction false} UnixStep(c: char, rest: string)
    requires c != '\r' || rest == "" || rest[0] != '\n'
    ensures UnixLines([c] + rest) == [c] + UnixLines(rest)
  {
    assert ([c] + rest)[1..] == rest;
  }

  lemma {:induction false} UnixKeeps(a: string, rest: string)
    requires OneLine(a) && (NoReturn(a) || rest == "" || rest[0] != '\n')
    ensures UnixLines(a + rest) == a + UnixLines(rest)
  {
    if a == "" {
      assert a + rest == rest;
    } else {
      var c, b := a[0], a[1..];
      UnixKeeps(b, rest);
      UnixStep(c, b + rest);
      Assoc([c], b, rest);
      Assoc([c], b, UnixLines(rest));
      assert a == [c] + b;
    }
  }

  lemma {:induction false} UnixEnd(a: string, rest: string)
    requires OneLine(a) && NoReturn(a)
    ensures UnixLines(a + "\r\n" + rest) == a + "\n" + UnixLines(rest)
  {
    var tail := "\r\n" + rest;
    assert tail[2..] == rest && a + "\r\n" + rest == a + tail;
    UnixKeeps(a, tail);
    assert a + ("\n" + UnixLines(rest)) == a + "\n" + UnixLines(rest);
  }

  lemma {:induction false} UnixOfEnded(lines: seq<string>)
    requires AllOneLine(lines) && forall i :: 0 <= i < |lines| ==> NoReturn(lines[i])
    ensures UnixLines(Ended(lines, "\r\n")) == Ended(lines, "\n") == UnixLines(Ended(lines, "\n"))
  {
    if lines == [] {
    } else {
      UnixOfEnded(lines[1..]);
      UnixEnd(lines[0], Ended(lines[1..], "\r\n"));
      var rest := Ended(lines[1..], "\n");
      UnixKeeps(lines[0], "\n" + rest);
      UnixStep('\n', rest);
      Assoc(lines[0], "\n", rest);
      Assoc(lines[0], "\n", UnixLines(rest));
    }
  }

  lemma {:induction false} EndedIsJoined(lines: seq<string>)
    requires lines != []
    ensures Ended(lines, "\n") == Join(lines) + "\n"
  {
    if |lines| > 1 {
      EndedIsJoined(lines[1..]);
    } else {
      assert Ended(lines[1..], "\n") == "";
    }
  }

  lemma {:induction false} TrimmedOnce(contents: string, text: string)
    requires UnixLines(contents) == text + "\n"
    ensures TextLines(contents) == if text == "" then [] else Split(text)
  {
    assert (text + "\n")[..|text|] == text;
  }

  /** Reading undoes writing, with either line end; only a single empty line reads as no line at all. */
  lemma {:induction false} LineEndsMakeNoDifference(lines: seq<string>)
    requires lines != [] && AllOneLine(lines) && forall i :: 0 <= i < |lines| ==> NoReturn(lines[i])
    ensures TextLines(Ended(lines, "\r\n")) == TextLines(Ended(lines, "\n")) == if Join(lines) == "" then [] else lines
  {
    UnixOfEnded(lines);
    EndedIsJoined(lines);
    TrimmedOnce(Ended(lines, "\r\n"), Join(lines));
    TrimmedOnce(Ended(lines, "\n"), Join(lines));
    SplitJoin(lines);
  }

  /** The text is not empty, and does not end in a newline. */
  predicate EndsInLine(s: string) { s != "" && s[|s| - 1] != '\n' }

  lemma EndOfConcat(a: string, b: string)
    requires EndsInLine(b)
    ensures EndsInLine(a + b)
  {}

  lemma {:induction false} EndOfJoined(lines: seq<string>)
    requires lines != [] && EndsInLine(lines[|lines| - 1])
    ensures EndsInLine(Join(lines))
  {
    if |lines| == 1 {
    } else {
      EndOfJoined(lines[1..]);
      EndOfConcat(lines[0] + "\n", Join(lines[1..]));
    }
  }

  lemma {:induction false} UnixOfJoined(lines: seq<string>)
    requires lines != [] && AllOneLine(lines) && forall i :: 0 <= i < |lines| ==> NoReturn(lines[i])
    ensures UnixLines(Join(lines)) == Join(lines)
  {
    if |lines| == 1 {
      UnixKeeps(lines[0], "");
      assert lines[0] + "" == lines[0];
    } else {
      var rest := Join(lines[1..]);
      UnixOfJoined(lines[1..]);
      UnixKeeps(lines[0], "\n" + rest);
      UnixStep('\n', rest);
      Assoc(lines[0], "\n", rest);
    }
  }

  /** A last line without a line end is a line like the others. */
  lemma {:induction false} LastLineNeedsNoEnd(lines: seq<string>)
    requires lines != [] && AllOneLine(lines) && forall i :: 0 <= i < |lines| ==> NoReturn(lines[i])
    requires lines[|lines| - 1] != ""
    ensures TextLines(Join(lines)) == lines
  {
    UnixOfJoined(lines);
    assert EndsInLine(lines[|lines| - 1]);
    EndOfJoined(lines);
    SplitJoin(lines);
  }

  // ---- changedTextLines ----

  /** Line i is one occurrence more of its text than the old text has. */
  ghost predicate IsAdded(oldLines: seq<string>, newLines: seq<string>, i: nat)
    requires i < |newLines|
  {
    multiset(newLines[..i + 1])[newLines[i]] > multiset(oldLines)[newLines[i]]
  }

  /** The added lines among the first n, numbered from one. */
  ghost function AddedAmong(oldLines: seq<string>, newLines: seq<string>, n: nat): seq<AttentionLine>
    requires n <= |newLines|
  {
    if n == 0 then []
    else if IsAdded(oldLines, newLines, n - 1) then
      AddedAmong(oldLines, newLines, n - 1) + [AttentionLine(n, newLines[n - 1])]
    else AddedAmong(oldLines, newLines, n - 1)
  }

  function CountOf(counts: map<string, nat>, text: string): nat {
    if text in counts then counts[text] else 0
  }

  ghost predicate Tallies(counts: map<string, nat>, m: multiset<string>) {
    forall text :: CountOf(counts, text) == m[text]
  }

  method Tally(lines: seq<string>) returns (counts: map<string, nat>)
    ensures Tallies(counts, multiset(lines))
  {
    counts := map[];
    for i := 0 to |lines|
      invariant Tallies(counts, multiset(lines[..i]))
    {
      assert lines[..i + 1] == lines[..i] + [lines[i]];
      counts := counts[lines[i] := CountOf(counts, lines[i]) + 1];
    }
    assert lines[..|lines|] == lines;
  }

  lemma OneMoreSeen(oldLines: seq<string>, newLines: seq<string>, i: nat, counts: map<string, nat>)
    requires i < |newLines| && Tallies(counts, multiset(oldLines) - multiset(newLines[..i]))
    ensures CountOf(counts, newLines[i]) > 0 <==> !IsAdded(oldLines, newLines, i)
    ensures CountOf(counts, newLines[i]) == 0 ==> Tallies(counts, multiset(oldLines) - multiset(newLines[..i + 1]))
    ensures CountOf(counts, newLines[i]) > 0 ==>
      Tallies(counts[newLines[i] := counts[newLines[i]] - 1], multiset(oldLines) - multiset(newLines[..i + 1]))
  {
    var x := newLines[i];
    assert newLines[..i + 1] == newLines[..i] + [x];
    var remaining, next := multiset(oldLines) - multiset(newLines[..i]),
      multiset(oldLines) - multiset(newLines[..i + 1]);
    assert CountOf(counts, x) == remaining[x];
    forall text ensures next[text] == if text == x && remaining[x] > 0 then remaining[x] - 1 else remaining[text] {}
  }

  method FindAdded(ghost oldLines: seq<string>, newLines: seq<string>, tally: map<string, nat>)
    returns (added: seq<AttentionLine>, counts: map<string, nat>)
    requires Tallies(tally, multiset(oldLines))
    ensures added == AddedAmong(oldLines, newLines, |newLines|)
    ensures Tallies(counts, multiset(oldLines) - multiset(newLines))
  {
    added, counts := [], tally;
    for i := 0 to |newLines|
      invariant added == AddedAmong(oldLines, newLines, i)
      invariant Tallies(counts, multiset(oldLines) - multiset(newLines[..i]))
    {
      OneMoreSeen(oldLines, newLines, i, counts);
      if CountOf(counts, newLines[i]) > 0 {
        counts := counts[newLines[i] := counts[newLines[i]] - 1];
        continue;
      }
      added := added + [AttentionLine(i + 1, newLines[i])];
    }
    assert newLines[..|newLines|] == newLines;
  }

  method SumCounts(counts: map<string, nat>, ghost m: multiset<string>) returns (sum: nat)
    requires Tallies(counts, m)
    ensures sum == |m|
  {
    sum := 0;
    var rest := counts.Keys;
    ghost var left := m;
    while rest != {}
      invariant rest <= counts.Keys && sum + |left| == |m|
      invariant forall text :: left[text] == if text in rest then counts[text] else 0
      decreases |rest|
    {
      var text :| text in rest;
      sum := sum + counts[text];
      rest := rest - {text};
      left := left[text := 0];
    }
    assert left == multiset{};
  }

  method ChangedTextLines(before: string, after: string) returns (added: seq<AttentionLine>, removed: nat)
    ensures added == AddedAmong(TextLines(before), TextLines(after), |TextLines(after)|)
    ensures removed == |multiset(TextLines(before)) - multiset(TextLines(after))|
  {
    var oldLines, newLines := TextLines(before), TextLines(after);
    var counts := Tally(oldLines);
    added, counts := FindAdded(oldLines, newLines, counts);
    removed := SumCounts(counts, multiset(oldLines) - multiset(newLines));
  }

  // ---- What the result means ----

  ghost function Texts(lines: seq<AttentionLine>): seq<string> {
    seq(|lines|, i requires 0 <= i < |lines| => lines[i].text)
  }

  lemma OneMoreText(lines: seq<AttentionLine>, line: AttentionLine)
    ensures multiset(Texts(lines + [line])) == multiset(Texts(lines)) + multiset{line.text}
  {
    assert Texts(lines + [line]) == Texts(lines) + [line.text];
    MultisetOfAppended(Texts(lines), line.text);
  }

  lemma OneMoreLine(newLines: seq<string>, n: nat)
    requires n < |newLines|
    ensures multiset(newLines[..n + 1]) == multiset(newLines[..n]) + multiset{newLines[n]}
  {
    PrefixNext(newLines, n);
    MultisetOfAppended(newLines[..n], newLines[n]);
  }

  /** How often a text is among the first n added lines, and how often it should be. */
  ghost function AddedTimes(oldLines: seq<string>, newLines: seq<string>, n: nat, x: string): nat
    requires n <= |newLines|
  {
    multiset(Texts(AddedAmong(oldLines, newLines, n)))[x]
  }

  ghost function Excess(oldLines: seq<string>, newLines: seq<string>, n: nat, x: string): nat
    requires n <= |newLines|
  {
    var now, before := multiset(newLines[..n])[x], multiset(oldLines)[x];
    if now > before then now - before else 0
  }

  lemma ExcessNext(oldLines: seq<string>, newLines: seq<string>, n: nat, x: string)
    requires n < |newLines|
    ensures Excess(oldLines, newLines, n + 1, x) ==
      Excess(oldLines, newLines, n, x) + if x == newLines[n] && IsAdded(oldLines, newLines, n) then 1 else 0
  {
    OneMoreLine(newLines, n);
  }

  lemma AddedTimesNext(oldLines: seq<string>, newLines: seq<string>, n: nat, x: string)
    requires n < |newLines|
    ensures AddedTimes(oldLines, newLines, n + 1, x) ==
      AddedTimes(oldLines, newLines, n, x) + if x == newLines[n] && IsAdded(oldLines, newLines, n) then 1 else 0
  {
    if IsAdded(oldLines, newLines, n) {
      OneMoreText(AddedAmong(oldLines, newLines, n), AttentionLine(n + 1, newLines[n]));
    }
  }

  ghost predicate AsOften(oldLines: seq<string>, newLines: seq<string>, n: nat, x: string)
    requires n <= |newLines|
  {
    AddedTimes(oldLines, newLines, n, x) == Excess(oldLines, newLines, n, x)
  }

  lemma NoneYet(oldLines: seq<string>, newLines: seq<string>, x: string)
    ensures AsOften(oldLines, newLines, 0, x)
  {
    assert Texts([]) == [] && newLines[..0] == [];
  }

  lemma AsOftenNext(oldLines: seq<string>, newLines: seq<string>, n: nat, x: string)
    requires n < |newLines| && AsOften(oldLines, newLines, n, x)
    ensures AsOften(oldLines, newLines, n + 1, x)
  {
    ExcessNext(oldLines, newLines, n, x);
    AddedTimesNext(oldLines, newLines, n, x);
  }

  lemma {:induction false} AddedAsOften(oldLines: seq<string>, newLines: seq<string>, n: nat, x: string)
    requires n <= |newLines|
    ensures AsOften(oldLines, newLines, n, x)
  {
    if n == 0 {
      NoneYet(oldLines, newLines, x);
    } else {
      AddedAsOften(oldLines, newLines, n - 1, x);
      AsOftenNext(oldLines, newLines, n - 1, x);
    }
  }

  lemma {:induction false} AddedTexts(oldLines: seq<string>, newLines: seq<string>, n: nat)
    requires n <= |newLines|
    ensures multiset(Texts(AddedAmong(oldLines, newLines, n))) == multiset(newLines[..n]) - multiset(oldLines)
  {
    forall x
      ensures multiset(Texts(AddedAmong(oldLines, newLines, n)))[x] == (multiset(newLines[..n]) - multiset(oldLines))[x]
    {
      AddedAsOften(oldLines, newLines, n, x);
    }
  }

  lemma {:induction false} AddedNumbers(oldLines: seq<string>, newLines: seq<string>, n: nat)
    requires n <= |newLines|
    ensures forall k :: 0 <= k < |AddedAmong(oldLines, newLines, n)| ==>
                          var line := AddedAmong(oldLines, newLines, n)[k];
                          1 <= line.number <= n && line.text == newLines[line.number - 1] &&
                            IsAdded(oldLines, newLines, line.number - 1)
    ensures forall j, k :: 0 <= j < k < |AddedAmong(oldLines, newLines, n)| ==>
      AddedAmong(oldLines, newLines, n)[j].number < AddedAmong(oldLines, newLines, n)[k].number
  {
    if n == 0 {
    } else {
      AddedNumbers(oldLines, newLines, n - 1);
    }
  }

  lemma {:induction false} EveryAddedLineListed(oldLines: seq<string>, newLines: seq<string>, n: nat, i: nat)
    requires i < n <= |newLines| && IsAdded(oldLines, newLines, i)
    ensures AttentionLine(i + 1, newLines[i]) in AddedAmong(oldLines, newLines, n)
  {
    if i == n - 1 {
    } else {
      EveryAddedLineListed(oldLines, newLines, n - 1, i);
    }
  }

  lemma DifferenceBalances(a: multiset<string>, b: multiset<string>)
    ensures |a| + |b - a| == |b| + |a - b|
  {
    assert a == (a * b) + (a - b) && b == (a * b) + (b - a);
  }

  /**
   The added texts are the new lines less the old ones, and the books balance: old lines and added lines are as many as
   new lines and removed lines.
   */
  lemma {:induction false} ChangesBalance(oldLines: seq<string>, newLines: seq<string>)
    ensures multiset(Texts(AddedAmong(oldLines, newLines, |newLines|))) == multiset(newLines) - multiset(oldLines)
    ensures |oldLines| + |AddedAmong(oldLines, newLines, |newLines|)| ==
      |newLines| + |multiset(oldLines) - multiset(newLines)|
  {
    AddedTexts(oldLines, newLines, |newLines|);
    assert newLines[..|newLines|] == newLines;
    DifferenceBalances(multiset(oldLines), multiset(newLines));
    var added := AddedAmong(oldLines, newLines, |newLines|);
    assert |Texts(added)| == |multiset(Texts(added))|;
  }

  /** Nothing is reported exactly when the two texts have the same lines, in whatever order. */
  lemma {:induction false} NoChangesIff(oldLines: seq<string>, newLines: seq<string>)
    ensures AddedAmong(oldLines, newLines, |newLines|) == [] && |multiset(oldLines) - multiset(newLines)| == 0 <==>
      multiset(oldLines) == multiset(newLines)
  {
    ChangesBalance(oldLines, newLines);
    var a, b := multiset(oldLines), multiset(newLines);
    if AddedAmong(oldLines, newLines, |newLines|) == [] && |a - b| == 0 {
      assert b - a == multiset{} && a - b == multiset{};
      forall x ensures a[x] == b[x] {
        assert (a - b)[x] == 0 && (b - a)[x] == 0;
      }
    }
  }

  // ---- In texts and numbers ----

  /** The places among the first n lines that hold the text. */
  ghost function Places(lines: seq<string>, n: nat, text: string): set<nat>
    requires n <= |lines|
  {
    set i: nat | i < n && lines[i] == text
  }

  lemma {:induction false} PlacesCount(lines: seq<string>, n: nat, text: string)
    requires n <= |lines|
    ensures multiset(lines[..n])[text] == |Places(lines, n, text)|
  {
    if n == 0 {
      assert Places(lines, n, text) == {};
    } else {
      PlacesCount(lines, n - 1, text);
      assert lines[..n] == lines[..n - 1] + [lines[n - 1]];
      assert Places(lines, n, text) == Places(lines, n - 1, text) + if lines[n - 1] == text then {n - 1} else {};
    }
  }

  lemma IsAddedIff(oldLines: seq<string>, newLines: seq<string>, i: nat)
    requires i < |newLines|
    ensures IsAdded(oldLines, newLines, i) <==>
      |Places(newLines, i + 1, newLines[i])| > |Places(oldLines, |oldLines|, newLines[i])|
  {
    PlacesCount(newLines, i + 1, newLines[i]);
    PlacesCount(oldLines, |oldLines|, newLines[i]);
    assert oldLines[..|oldLines|] == oldLines;
  }

  lemma {:induction false} ListedIsAdded(oldLines: seq<string>, newLines: seq<string>, line: AttentionLine)
    requires line in AddedAmong(oldLines, newLines, |newLines|)
    ensures 1 <= line.number <= |newLines| && newLines[line.number - 1] == line.text
    ensures IsAdded(oldLines, newLines, line.number - 1)
  {
    AddedNumbers(oldLines, newLines, |newLines|);
  }

  /** Up to this line, its text stands in the new text more often than in the whole old text. */
  ghost predicate Exceeds(oldLines: seq<string>, newLines: seq<string>, line: AttentionLine) {
    && 1 <= line.number <= |newLines| && newLines[line.number - 1] == line.text
    && |Places(newLines, line.number, line.text)| > |Places(oldLines, |oldLines|, line.text)|
  }

  lemma {:induction false} ListedExceeds(oldLines: seq<string>, newLines: seq<string>, line: AttentionLine)
    requires line in AddedAmong(oldLines, newLines, |newLines|)
    ensures Exceeds(oldLines, newLines, line)
  {
    ListedIsAdded(oldLines, newLines, line);
    IsAddedIff(oldLines, newLines, line.number - 1);
  }

  lemma {:induction false} ExceedingIsListed(oldLines: seq<string>, newLines: seq<string>, line: AttentionLine)
    requires Exceeds(oldLines, newLines, line)
    ensures line in AddedAmong(oldLines, newLines, |newLines|)
  {
    IsAddedIff(oldLines, newLines, line.number - 1);
    EveryAddedLineListed(oldLines, newLines, |newLines|, line.number - 1);
  }

  /** Exactly these lines are listed. */
  lemma {:induction false} ListedIff(oldLines: seq<string>, newLines: seq<string>, line: AttentionLine)
    ensures line in AddedAmong(oldLines, newLines, |newLines|) <==> Exceeds(oldLines, newLines, line)
  {
    if Exceeds(oldLines, newLines, line) {
      ExceedingIsListed(oldLines, newLines, line);
    } else if line in AddedAmong(oldLines, newLines, |newLines|) {
      ListedExceeds(oldLines, newLines, line);
    }
  }
}
