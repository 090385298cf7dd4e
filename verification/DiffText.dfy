/**
 Text as lines, and the header line of a hunk: splitting and joining at newlines, decimal numbers, and the regular
 expression for headers as a parser that is proved to undo printing.
 */
module DiffText {
  import opened Wrappers
  import opened Loops

  // ---- strings.Split and strings.Join on "\n" ----

  function Split(s: string): (r: seq<string>)
    ensures r != []
  {
    if s == "" then [""]
    else
      var rest := Split(s[1..]);
      if s[0] == '\n' then [""] + rest else [[s[0]] + rest[0]] + rest[1..]
  }

  function Join(lines: seq<string>): string {
    if lines == [] then "" else if |lines| == 1 then lines[0] else lines[0] + "\n" + Join(lines[1..])
  }

  predicate OneLine(s: string) { '\n' !in s }

  ghost predicate AllOneLine(lines: seq<string>) {
    forall i :: 0 <= i < |lines| ==> OneLine(lines[i])
  }

  lemma OneLineParts(a: string, b: string)
    ensures OneLine(a + b) <==> OneLine(a) && OneLine(b)
  {}

  lemma {:induction false} SplitOneLine(a: string)
    requires OneLine(a)
    ensures Split(a) == [a]
  {
    if a == "" {
    } else {
      SplitOneLine(a[1..]);
      assert a == [a[0]] + a[1..];
    }
  }

  lemma {:induction false} SplitFirst(a: string, rest: string)
    requires OneLine(a)
    ensures Split(a + "\n" + rest) == [a] + Split(rest)
  {
    var whole := a + "\n" + rest;
    if a == "" {
      assert whole == "\n" + rest && whole[1..] == rest;
    } else {
      SplitFirst(a[1..], rest);
      assert whole[1..] == a[1..] + "\n" + rest;
      assert a == [a[0]] + a[1..];
    }
  }

  /** Splitting undoes joining. */
  lemma {:induction false} SplitJoin(lines: seq<string>)
    requires lines != [] && AllOneLine(lines)
    ensures Split(Join(lines)) == lines
  {
    if |lines| == 1 {
      SplitOneLine(lines[0]);
    } else {
      SplitJoin(lines[1..]);
      SplitFirst(lines[0], Join(lines[1..]));
      assert lines == [lines[0]] + lines[1..];
    }
  }

  lemma {:induction false} SplitIntoLines(s: string)
    ensures AllOneLine(Split(s))
  {
    if s == "" {
    } else {
      SplitIntoLines(s[1..]);
      var rest := Split(s[1..]);
      assert AllOneLine(rest);
      if s[0] != '\n' { assert OneLine(rest[0]); }
    }
  }

  // ---- Decimal numbers ----

  predicate IsDigit(c: char) { '0' <= c <= '9' }

  function DigitValue(c: char): nat
    requires IsDigit(c)
  {
    c as int - '0' as int
  }

  function Digit(d: nat): (c: char)
    requires d < 10
    ensures IsDigit(c) && DigitValue(c) == d
  {
    ('0' as int + d) as char
  }

  predicate AllDigits(s: string) { forall i :: 0 <= i < |s| ==> IsDigit(s[i]) }

  function Value(s: string): nat
    requires AllDigits(s)
  {
    if s == "" then 0 else 10 * Value(s[..|s| - 1]) + DigitValue(s[|s| - 1])
  }

  lemma {:induction false} ValueNext(front: string, d: nat)
    requires AllDigits(front) && d < 10
    ensures AllDigits(front + [Digit(d)]) && Value(front + [Digit(d)]) == 10 * Value(front) + d
  {
    assert (front + [Digit(d)])[..|front|] == front;
  }

  function Decimal(n: nat): (s: string)
    ensures AllDigits(s) && s != "" && Value(s) == n
  {
    var front := if n < 10 then "" else Decimal(n / 10);
    ValueNext(front, n % 10);
    front + [Digit(n % 10)]
  }

  const MAX_INT := 0x7FFF_FFFF_FFFF_FFFF

  /** strconv.Atoi with its error ignored: out of range yields the largest int. */
  function Atoi(s: string): (n: nat)
    requires AllDigits(s)
    ensures n <= Value(s) && n <= 0x7FFF_FFFF_FFFF_FFFF && (n < 0x7FFF_FFFF_FFFF_FFFF ==> n == Value(s))
  {
    if Value(s) > MAX_INT then MAX_INT else Value(s)
  }

  // ---- ^@@ -(\d+)(?:,\d+)? \+(\d+)(?:,\d+)? @@.*$ ----

  function DigitCount(s: string): (n: nat)
    ensures n <= |s| && AllDigits(s[..n]) && (n < |s| ==> !IsDigit(s[n]))
  {
    if s == "" || !IsDigit(s[0]) then 0
    else
      var n := DigitCount(s[1..]);
      assert s[..n + 1] == [s[0]] + s[1..][..n];
      n + 1
  }

  /** What follows the first number, taken off again. */
  function SkipCount(rest: string): string {
    var m := if rest != "" && rest[0] == ',' then DigitCount(rest[1..]) else 0;
    if m == 0 then rest else rest[1 + m..]
  }

  /** A number and an optional ",count"; the number and what follows. */
  function TakeRange(s: string): Option<(nat, string)> {
    var n := DigitCount(s);
    if n == 0 then None
    else
      Some((Atoi(s[..n]), SkipCount(s[n..])))
  }

  function TakeText(s: string, prefix: string): Option<string> {
    if prefix <= s then Some(s[|prefix|..]) else None
  }

  /** The two start lines of a hunk header; None for any other line. */
  function ParseHeader(raw: string): Option<(nat, nat)> {
    match TakeText(raw, "@@ -")
    case None => None
    case Some(rest) => ParseFrom(rest)
  }

  function ParseFrom(s: string): Option<(nat, nat)> {
    match TakeRange(s)
    case None => None
    case Some((from, rest)) => ParseTo(from, TakeText(rest, " +"))
  }

  function ParseTo(from: nat, s: Option<string>): Option<(nat, nat)> {
    match s
    case None => None
    case Some(text) =>
      match TakeRange(text)
      case None => None
      case Some((to, rest)) => if TakeText(rest, " @@").Some? then Some((from, to)) else None
  }

  function CountText(count: nat): string {
    if count == 1 then "" else "," + Decimal(count)
  }

  /** A range as diff writes it: the count is left out when it is one. */
  function RangeText(start: nat, count: nat): string {
    Decimal(start) + CountText(count)
  }

  function HeaderText(from: nat, fromCount: nat, to: nat, toCount: nat, section: string): string {
    "@@ -" + (RangeText(from, fromCount) + (" +" + (RangeText(to, toCount) + (" @@" + section))))
  }

  lemma {:induction false} DigitCountOf(digits: string, rest: string)
    requires AllDigits(digits) && (rest != "" ==> !IsDigit(rest[0]))
    ensures DigitCount(digits + rest) == |digits|
  {
    if digits == "" {
      assert digits + rest == rest;
    } else {
      DigitCountOf(digits[1..], rest);
      assert (digits + rest)[1..] == digits[1..] + rest;
    }
  }

  lemma CountSkipped(count: nat, rest: string)
    requires rest != "" && rest[0] == ' '
    ensures SkipCount(CountText(count) + rest) == rest
  {
    if count == 1 {
      assert CountText(count) + rest == rest;
    } else {
      var digits := Decimal(count);
      DigitCountOf(digits, rest);
      Assoc(",", digits, rest);
      SkipDigits(digits, rest);
    }
  }

  lemma {:induction false} SkipDigits(digits: string, rest: string)
    requires digits != "" && DigitCount(digits + rest) == |digits|
    ensures SkipCount("," + (digits + rest)) == rest
  {
    var s := "," + (digits + rest);
    Parts(",", digits + rest);
    Parts(digits, rest);
    assert s[1 + |digits|..] == s[1..][|digits|..];
  }

  lemma {:induction false} NumberTaken(start: nat, tail: string)
    requires start <= MAX_INT && tail != "" && !IsDigit(tail[0])
    ensures TakeRange(Decimal(start) + tail) == Some((start, SkipCount(tail)))
  {
    DigitCountOf(Decimal(start), tail);
    Parts(Decimal(start), tail);
  }

  lemma CountBegins(count: nat, rest: string)
    requires rest != "" && rest[0] == ' '
    ensures CountText(count) + rest != "" && !IsDigit((CountText(count) + rest)[0])
  {}

  lemma RangeRoundTrip(start: nat, count: nat, rest: string)
    requires start <= MAX_INT && rest != "" && rest[0] == ' '
    ensures TakeRange(RangeText(start, count) + rest) == Some((start, rest))
  {
    CountSkipped(count, rest);
    CountBegins(count, rest);
    NumberTaken(start, CountText(count) + rest);
    Assoc(Decimal(start), CountText(count), rest);
  }

  lemma HeaderRoundTrip(from: nat, fromCount: nat, to: nat, toCount: nat, section: string)
    requires from <= MAX_INT && to <= MAX_INT
    ensures ParseHeader(HeaderText(from, fromCount, to, toCount, section)) == Some((from, to))
  {
    var d := " @@" + section;
    var b := " +" + (RangeText(to, toCount) + d);
    ToRoundTrip(from, to, toCount, section);
    RangeRoundTrip(from, fromCount, b);
    TextRoundTrip("@@ -", RangeText(from, fromCount) + b);
  }

  lemma TextRoundTrip(prefix: string, rest: string)
    ensures TakeText(prefix + rest, prefix) == Some(rest)
  {}

  lemma ToRoundTrip(from: nat, to: nat, toCount: nat, section: string)
    requires to <= MAX_INT
    ensures ParseTo(from, TakeText(" +" + (RangeText(to, toCount) + (" @@" + section)), " +")) == Some((from, to))
  {
    var d := " @@" + section;
    TextRoundTrip(" +", RangeText(to, toCount) + d);
    RangeRoundTrip(to, toCount, d);
    TextRoundTrip(" @@", section);
  }

  // ---- Exactly the headers ----

  predicate IsNumber(s: string) { s != "" && AllDigits(s) }

  /** Nothing, or a comma and a number. */
  predicate IsCount(s: string) { s == "" || (s[0] == ',' && IsNumber(s[1..])) }

  /** The texts a header is made of: the two start lines, their counts, and what follows. */
  datatype HeaderParts = HeaderParts(from: string, fromCount: string, to: string, toCount: string, section: string)

  predicate AreParts(h: HeaderParts) {
    IsNumber(h.from) && IsCount(h.fromCount) && IsNumber(h.to) && IsCount(h.toCount)
  }

  function PartsText(h: HeaderParts): string {
    "@@ -" + (h.from + (h.fromCount + (" +" + (h.to + (h.toCount + (" @@" + h.section))))))
  }

  lemma AnyCountSkipped(c: string, rest: string)
    requires IsCount(c) && rest != "" && rest[0] == ' '
    ensures SkipCount(c + rest) == rest && c + rest != "" && !IsDigit((c + rest)[0])
  {
    if c == "" {
      assert c + rest == rest;
    } else {
      var digits := c[1..];
      DigitCountOf(digits, rest);
      SkipDigits(digits, rest);
      assert c == "," + digits;
      Assoc(",", digits, rest);
    }
  }

  lemma AnyRangeTaken(n: string, c: string, rest: string)
    requires IsNumber(n) && IsCount(c) && rest != "" && rest[0] == ' '
    ensures TakeRange(n + (c + rest)) == Some((Atoi(n), rest))
  {
    AnyCountSkipped(c, rest);
    DigitCountOf(n, c + rest);
    Parts(n, c + rest);
  }

  lemma ToIsRead(from: nat, to: string, toCount: string, section: string)
    requires IsNumber(to) && IsCount(toCount)
    ensures ParseTo(from, TakeText(" +" + (to + (toCount + (" @@" + section))), " +")) == Some((from, Atoi(to)))
  {
    var d := " @@" + section;
    TextRoundTrip(" +", to + (toCount + d));
    AnyRangeTaken(to, toCount, d);
    TextRoundTrip(" @@", section);
  }

  lemma HeaderIsRead(h: HeaderParts)
    requires AreParts(h)
    ensures ParseHeader(PartsText(h)) == Some((Atoi(h.from), Atoi(h.to)))
  {
    var b := " +" + (h.to + (h.toCount + (" @@" + h.section)));
    ToIsRead(Atoi(h.from), h.to, h.toCount, h.section);
    AnyRangeTaken(h.from, h.fromCount, b);
    TextRoundTrip("@@ -", h.from + (h.fromCount + b));
  }

  lemma TakenText(s: string, prefix: string)
    requires TakeText(s, prefix).Some?
    ensures s == prefix + TakeText(s, prefix).value
  {}

  lemma TakenCount(rest: string) returns (c: string)
    ensures IsCount(c) && rest == c + SkipCount(rest)
  {
    var m := if rest != "" && rest[0] == ',' then DigitCount(rest[1..]) else 0;
    c := if m == 0 then "" else rest[..1 + m];
    if m > 0 { assert c[1..] == rest[1..][..m]; }
  }

  lemma Halves(s: string, k: nat)
    requires k <= |s|
    ensures s == s[..k] + s[k..]
  {}

  lemma {:induction false} RangeUnfolds(s: string)
    requires TakeRange(s).Some?
    ensures var k := DigitCount(s); k > 0 && TakeRange(s) == Some((Atoi(s[..k]), SkipCount(s[k..])))
  {}

  lemma TakenRange(s: string) returns (n: string, c: string)
    requires TakeRange(s).Some?
    ensures IsNumber(n) && IsCount(c) && TakeRange(s).value.0 == Atoi(n) && s == n + (c + TakeRange(s).value.1)
  {
    RangeUnfolds(s);
    var k := DigitCount(s);
    n := s[..k];
    c := TakenCount(s[k..]);
    Halves(s, k);
  }

  lemma ReadIsHeader(raw: string) returns (h: HeaderParts)
    requires ParseHeader(raw).Some?
    ensures AreParts(h) && raw == PartsText(h)
  {
    TakenText(raw, "@@ -");
    var s := TakeText(raw, "@@ -").value;
    var from, fromCount := TakenRange(s);
    var b := TakeRange(s).value.1;
    TakenText(b, " +");
    var t := TakeText(b, " +").value;
    var to, toCount := TakenRange(t);
    var d := TakeRange(t).value.1;
    TakenText(d, " @@");
    h := HeaderParts(from, fromCount, to, toCount, TakeText(d, " @@").value);
  }

  ghost predicate MadeOf(raw: string, h: HeaderParts) { AreParts(h) && raw == PartsText(h) }

  /** A line is read as a header if and only if it is made like one; what is read are its two numbers. */
  lemma HeaderIff(raw: string)
    ensures ParseHeader(raw).Some? <==> exists h :: MadeOf(raw, h)
    ensures forall h :: MadeOf(raw, h) ==> ParseHeader(raw) == Some((Atoi(h.from), Atoi(h.to)))
  {
    if ParseHeader(raw).Some? {
      var h := ReadIsHeader(raw);
      assert MadeOf(raw, h);
    }
    forall h | MadeOf(raw, h) ensures ParseHeader(raw) == Some((Atoi(h.from), Atoi(h.to))) { HeaderIsRead(h); }
  }
}
