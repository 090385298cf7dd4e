/** Rule globs (artifact_rules.go): a glob is compiled to a regular expression that is to mean the same. */
module Glob {
  import opened Wrappers
  import opened Utf8

  /** A character of a path, as the regular expression engine sees it. */
  type Rune = nat

  const SLASH: Byte := 47
  const STAR: Byte := 42
  const QUESTION: Byte := 63
  const NEWLINE: Byte := 10

  // ---- The regular expressions that are emitted ----

  datatype Re =
    | Literal(c: Rune)             // regexp.QuoteMeta(string(c))
    | NotSlash                     // [^/]
    | Dot                          // . which matches no newline
    | Many(body: Re)               // *
    | Optional(body: Re)           // (?:...)?
    | Then(first: Re, second: Re)

  /** The language of an expression, in the usual sense. */
  ghost predicate Accepts(r: Re, s: seq<Rune>)
    decreases r, |s|
  {
    match r
    case Literal(c) => s == [c]
    case NotSlash => |s| == 1 && s[0] != SLASH
    case Dot => |s| == 1 && s[0] != NEWLINE
    case Many(body) => s == [] || exists k :: 0 < k <= |s| && Accepts(body, s[..k]) && Accepts(r, s[k..])
    case Optional(body) => s == [] || Accepts(body, s)
    case Then(first, second) => exists k :: 0 <= k <= |s| && Accepts(first, s[..k]) && Accepts(second, s[k..])
  }

  /** A sequence of expressions between ^ and $. */
  ghost predicate AcceptsAll(nodes: seq<Re>, s: seq<Rune>)
    decreases |nodes|
  {
    if nodes == [] then s == []
    else exists k :: 0 <= k <= |s| && Accepts(nodes[0], s[..k]) && AcceptsAll(nodes[1..], s[k..])
  }

  // ---- The compiler ----

  const DIRECTORIES: Re := Optional(Then(Many(Dot), Literal(SLASH)))

  predicate StartsWith(g: seq<Rune>, p: seq<Rune>) {
    |p| <= |g| && g[..|p|] == p
  }

  function Node(g: seq<Byte>): (Re, nat)
    requires g != []
    ensures 0 < Node(g).1 <= |g|
  {
    if StartsWith(g, [STAR, STAR, SLASH]) then (DIRECTORIES, 3)
    else if StartsWith(g, [STAR, STAR]) then (Many(Dot), 2)
    else if g[0] == STAR then (Many(NotSlash), 1)
    else if g[0] == QUESTION then (NotSlash, 1)
    else (Literal(g[0]), 1)
  }

  function Compile(g: seq<Byte>): seq<Re> {
    if g == [] then [] else [Node(g).0] + Compile(g[Node(g).1..])
  }

  /** A glob without a slash applies in every directory. */
  function Rooted(g: seq<Byte>): seq<Byte> {
    if SLASH in g then g else [STAR, STAR, SLASH] + g
  }

  // ---- strings.TrimSpace ----

  /** A white-space character of Unicode in UTF-8. */
  predicate IsSpace(c: seq<Byte>) {
    || (|c| == 1 && (9 <= c[0] <= 13 || c[0] == 32))
    || (|c| == 2 && c[0] == 0xC2 && (c[1] == 0x85 || c[1] == 0xA0))
    || (|c| == 3 && c[0] == 0xE2 && c[1] == 0x80 && (0x80 <= c[2] <= 0x8A || c[2] in {0xA8, 0xA9, 0xAF}))
    || c == [0xE1, 0x9A, 0x80] || c == [0xE2, 0x81, 0x9F] || c == [0xE3, 0x80, 0x80]
  }

  predicate LeadsWith(g: seq<Byte>, k: nat) { 1 <= k <= |g| && IsSpace(g[..k]) }

  predicate TrailsWith(g: seq<Byte>, k: nat) { 1 <= k <= |g| && IsSpace(g[|g| - k..]) }

  function SpaceBefore(g: seq<Byte>): (k: nat)
    ensures k > 0 ==> LeadsWith(g, k)
  {
    if LeadsWith(g, 1) then 1 else if LeadsWith(g, 2) then 2 else if LeadsWith(g, 3) then 3 else 0
  }

  function SpaceBehind(g: seq<Byte>): (k: nat)
    ensures k > 0 ==> TrailsWith(g, k)
  {
    if TrailsWith(g, 1) then 1 else if TrailsWith(g, 2) then 2 else if TrailsWith(g, 3) then 3 else 0
  }

  /** Cuts off characters at the front as long as `width` finds one there. */
  function TrimLeft(g: seq<Byte>, width: seq<Byte> -> nat): seq<Byte> {
    var k := width(g);
    if 1 <= k <= |g| then TrimLeft(g[k..], width) else g
  }

  function TrimRight(g: seq<Byte>, width: seq<Byte> -> nat): seq<Byte> {
    var k := width(g);
    if 1 <= k <= |g| then TrimRight(g[..|g| - k], width) else g
  }

  function TrimSpace(g: seq<Byte>): seq<Byte> { TrimRight(TrimLeft(g, SpaceBefore), SpaceBehind) }

  function Joined(chars: seq<seq<Byte>>): seq<Byte> {
    if chars == [] then [] else chars[0] + Joined(chars[1..])
  }

  ghost predicate All(chars: seq<seq<Byte>>, good: seq<Byte> -> bool) {
    forall i :: 0 <= i < |chars| ==> good(chars[i])
  }

  lemma MovedOver(a: seq<Byte>, b: seq<Byte>, c: seq<Byte>)
    ensures (a + b) + c == a + (b + c)
  {}

  lemma {:induction false} JoinedNext(chars: seq<seq<Byte>>, c: seq<Byte>)
    ensures Joined(chars + [c]) == Joined(chars) + c
  {
    if chars == [] {
      assert Joined([c]) == c + Joined([]);
    } else {
      JoinedNext(chars[1..], c);
      assert (chars + [c])[0] == chars[0] && (chars + [c])[1..] == chars[1..] + [c];
      MovedOver(chars[0], Joined(chars[1..]), c);
    }
  }

  ghost predicate FindsBefore(width: seq<Byte> -> nat, good: seq<Byte> -> bool) {
    forall s :: 1 <= width(s) <= |s| ==> good(s[..width(s)])
  }

  ghost predicate FindsBehind(width: seq<Byte> -> nat, good: seq<Byte> -> bool) {
    forall s :: 1 <= width(s) <= |s| ==> good(s[|s| - width(s)..])
  }

  lemma {:induction false} OneMoreBefore(g: seq<Byte>, t: seq<Byte>, chars: seq<seq<Byte>>, k: nat,
                                         good: seq<Byte> -> bool)
    requires k <= |g| && g[k..] == Joined(chars) + t && All(chars, good) && good(g[..k])
    ensures All([g[..k]] + chars, good) && g == Joined([g[..k]] + chars) + t
  {
    assert ([g[..k]] + chars)[1..] == chars;
    MovedOver(g[..k], Joined(chars), t);
  }

  lemma {:induction false} OneMoreBehind(g: seq<Byte>, t: seq<Byte>, chars: seq<seq<Byte>>, n: nat,
                                         good: seq<Byte> -> bool)
    requires n <= |g| && g[..n] == t + Joined(chars) && All(chars, good) && good(g[n..])
    ensures All(chars + [g[n..]], good) && g == t + Joined(chars + [g[n..]])
  {
    JoinedNext(chars, g[n..]);
    MovedOver(t, Joined(chars), g[n..]);
  }

  lemma {:induction false} LeftParts(g: seq<Byte>, width: seq<Byte> -> nat, good: seq<Byte> -> bool)
    returns (chars: seq<seq<Byte>>)
    requires FindsBefore(width, good)
    ensures All(chars, good) && g == Joined(chars) + TrimLeft(g, width)
    ensures !(1 <= width(TrimLeft(g, width)) <= |TrimLeft(g, width)|)
  {
    var k := width(g);
    chars := [];
    if 1 <= k <= |g| {
      var rest := LeftParts(g[k..], width, good);
      chars := [g[..k]] + rest;
      OneMoreBefore(g, TrimLeft(g, width), rest, k, good);
    }
  }

  lemma {:induction false} RightUnfolds(g: seq<Byte>, width: seq<Byte> -> nat)
    requires 1 <= width(g) <= |g|
    ensures TrimRight(g, width) == TrimRight(g[..|g| - width(g)], width)
  {}

  lemma FoundBehind(g: seq<Byte>, width: seq<Byte> -> nat, good: seq<Byte> -> bool)
    requires FindsBehind(width, good) && 1 <= width(g) <= |g|
    ensures good(g[|g| - width(g)..])
  {}

  lemma {:induction false} RightParts(g: seq<Byte>, width: seq<Byte> -> nat, good: seq<Byte> -> bool)
    returns (chars: seq<seq<Byte>>)
    requires FindsBehind(width, good)
    ensures All(chars, good) && g == TrimRight(g, width) + Joined(chars)
  {
    chars := [];
    if 1 <= width(g) <= |g| {
      var n := |g| - width(g);
      var rest := RightParts(g[..n], width, good);
      RightUnfolds(g, width);
      FoundBehind(g, width, good);
      OneMoreBehind(g, TrimRight(g[..n], width), rest, n, good);
      chars := rest + [g[n..]];
    }
  }

  lemma {:induction false} NoneBehind(g: seq<Byte>, width: seq<Byte> -> nat)
    ensures !(1 <= width(TrimRight(g, width)) <= |TrimRight(g, width)|)
  {
    if 1 <= width(g) <= |g| {
      RightUnfolds(g, width);
      NoneBehind(g[..|g| - width(g)], width);
    }
  }

  lemma {:induction false} Cut(g: seq<Byte>, front: seq<Byte> -> nat, back: seq<Byte> -> nat, good: seq<Byte> -> bool)
    returns (before: seq<seq<Byte>>, after: seq<seq<Byte>>)
    requires FindsBefore(front, good) && FindsBehind(back, good)
    ensures All(before, good) && All(after, good)
    ensures var t := TrimRight(TrimLeft(g, front), back);
      g == Joined(before) + (t + Joined(after)) && !(1 <= front(t + Joined(after)) <= |t + Joined(after)|) &&
      !(1 <= back(t) <= |t|)
  {
    before := LeftParts(g, front, good);
    after := RightParts(TrimLeft(g, front), back, good);
    NoneBehind(TrimLeft(g, front), back);
  }

  lemma LeadsBefore(t: seq<Byte>, b: seq<Byte>, k: nat)
    requires LeadsWith(t, k)
    ensures LeadsWith(t + b, k)
  {
    assert (t + b)[..k] == t[..k];
  }

  lemma WidthBefore(g: seq<Byte>, k: nat)
    ensures LeadsWith(g, k) ==> 1 <= SpaceBefore(g) <= |g|
  {}

  lemma WidthBehind(g: seq<Byte>, k: nat)
    ensures TrailsWith(g, k) ==> 1 <= SpaceBehind(g) <= |g|
  {}

  lemma BareLeft(t: seq<Byte>, b: seq<Byte>, k: nat)
    requires !(1 <= SpaceBefore(t + b) <= |t + b|)
    ensures !LeadsWith(t, k)
  {
    if LeadsWith(t, k) {
      LeadsBefore(t, b, k);
      WidthBefore(t + b, k);
    }
  }

  lemma SpacesFound()
    ensures FindsBefore(SpaceBefore, IsSpace)
    ensures FindsBehind(SpaceBehind, IsSpace)
  {
    forall s: seq<Byte> | 1 <= SpaceBefore(s) <= |s| ensures IsSpace(s[..SpaceBefore(s)]) {
      assert LeadsWith(s, SpaceBefore(s));
    }
    forall s: seq<Byte> | 1 <= SpaceBehind(s) <= |s| ensures IsSpace(s[|s| - SpaceBehind(s)..]) {
      assert TrailsWith(s, SpaceBehind(s));
    }
  }

  /** What is cut off are white-space characters, and none is left at either end. */
  lemma {:induction false} TrimmedParts(g: seq<Byte>) returns (before: seq<seq<Byte>>, after: seq<seq<Byte>>)
    ensures All(before, IsSpace) && All(after, IsSpace) && g == Joined(before) + (TrimSpace(g) + Joined(after))
    ensures forall k: nat :: !LeadsWith(TrimSpace(g), k) && !TrailsWith(TrimSpace(g), k)
  {
    SpacesFound();
    before, after := Cut(g, SpaceBefore, SpaceBehind, IsSpace);
    var t := TrimSpace(g);
    forall k: nat ensures !LeadsWith(t, k) && !TrailsWith(t, k) {
      BareLeft(t, Joined(after), k);
      WidthBehind(t, k);
    }
  }

  /** globRegexp; a glob of white space alone is no filter. */
  method GlobRegexp(glob: seq<Byte>) returns (r: Option<seq<Re>>)
    ensures r == var trimmed := TrimSpace(glob); if trimmed == [] then None else Some(Compile(Rooted(trimmed)))
  {
    var g := TrimSpace(glob);
    if g == [] {
      return None;
    }
    if SLASH !in g {
      g := [STAR, STAR, SLASH] + g;
    }
    var b := EmitAll(g);
    r := Some(b);
  }

  /** The loop of globRegexp. */
  method EmitAll(g: seq<Byte>) returns (b: seq<Re>)
    ensures b == Compile(g)
  {
    b := [];
    var i := 0;
    assert g[0..] == g;
    while i < |g|
      invariant i <= |g| && b + Compile(g[i..]) == Compile(g)
    {
      b, i := EmitOne(g, b, i);
    }
    assert b + [] == b;
  }

  lemma Regroup(b: seq<Re>, node: Re, rest: seq<Re>)
    ensures b + ([node] + rest) == b + [node] + rest
  {}

  lemma {:induction false} EmitStep(g: seq<Byte>, b: seq<Re>, at: nat)
    requires at < |g| && b + Compile(g[at..]) == Compile(g)
    ensures var (node, width) := Node(g[at..]); at + width <= |g| && b + [node] + Compile(g[at + width..]) == Compile(g)
  {
    var (node, width) := Node(g[at..]);
    NodeStep(g, at);
    Regroup(b, node, Compile(g[at + width..]));
  }

  method EmitOne(g: seq<Byte>, b: seq<Re>, at: nat) returns (b': seq<Re>, i: nat)
    requires at < |g| && b + Compile(g[at..]) == Compile(g)
    ensures at < i <= |g| && b' + Compile(g[i..]) == Compile(g)
  {
    EmitStep(g, b, at);
    var node;
    node, i := Emit(g, at);
    b' := b + [node];
  }

  /** One turn of the loop: what it writes, and where it goes on. */
  method Emit(g: seq<Byte>, at: nat) returns (node: Re, i: nat)
    requires at < |g|
    ensures (node, i - at) == Node(g[at..])
  {
    var c := g[at];
    i := at;
    if StartsWith(g[i..], [STAR, STAR, SLASH]) {
      node := DIRECTORIES;
      i := i + 2;
    } else if StartsWith(g[i..], [STAR, STAR]) {
      node := Many(Dot);
      i := i + 1;
    } else if c == STAR {
      node := Many(NotSlash);
    } else if c == QUESTION {
      node := NotSlash;
    } else {
      node := Literal(c);
    }
    i := i + 1;
  }

  lemma NodeStep(g: seq<Byte>, i: nat)
    requires i < |g|
    ensures var (node, width) := Node(g[i..]); i + width <= |g| && Compile(g[i..]) == [node] + Compile(g[i + width..])
  {
    var (node, width) := Node(g[i..]);
    assert g[i..][width..] == g[i + width..];
  }

  // ---- What a glob means ----

  function After(p: seq<Rune>, k: nat): (r: seq<Rune>)
    requires k < |p|
    ensures |r| < |p|
  {
    p[k + 1..]
  }

  predicate NoNewline(s: seq<Rune>) { NEWLINE !in s }

  /**
   Matching a glob directly: * and ? stay within a path element, ** crosses them, a leading directory part is optional.
   */
  predicate Matches(g: seq<Rune>, p: seq<Rune>)
    decreases |g|, |p|
  {
    if g == [] then p == []
    else if StartsWith(g, [STAR, STAR, SLASH]) then
      Matches(g[3..], p) ||
        exists k :: 0 <= k < |p| && p[k] == SLASH && NoNewline(p[..k]) && Matches(g[3..], After(p, k))
    else if StartsWith(g, [STAR, STAR]) then
      Matches(g[2..], p) || (p != [] && p[0] != NEWLINE && Matches(g, p[1..]))
    else if g[0] == STAR then
      Matches(g[1..], p) || (p != [] && p[0] != SLASH && Matches(g, p[1..]))
    else if g[0] == QUESTION then p != [] && p[0] != SLASH && Matches(g[1..], p[1..])
    else p != [] && p[0] == g[0] && Matches(g[1..], p[1..])
  }

  /** Expressions for one character. */
  predicate OneCharacter(r: Re) { r.Literal? || r.NotSlash? || r.Dot? }

  lemma {:induction false} ManyAccepts(body: Re, s: seq<Rune>)
    requires OneCharacter(body)
    ensures Accepts(Many(body), s) <==> forall i :: 0 <= i < |s| ==> Accepts(body, [s[i]])
    decreases |s|
  {
    if s == [] {
    } else {
      ManyAccepts(body, s[1..]);
      assert s[..1] == [s[0]] && s == [s[0]] + s[1..];
      assert Accepts(Many(body), s) <==> Accepts(body, s[..1]) && Accepts(Many(body), s[1..]);
    }
  }

  lemma {:induction false} Splits(node: Re, rest: seq<Re>, s: seq<Rune>)
    ensures AcceptsAll([node] + rest, s) <==>
      SplitsBy((t: seq<Rune>) => Accepts(node, t), (t: seq<Rune>) => AcceptsAll(rest, t), s)
  {
    var nodes := [node] + rest;
    assert nodes[0] == node && nodes[1..] == rest;
  }

  lemma {:induction false} OneAtATime(r: Re, rest: seq<Re>, s: seq<Rune>)
    requires OneCharacter(r)
    ensures AcceptsAll([r] + rest, s) <==> s != [] && Accepts(r, [s[0]]) && AcceptsAll(rest, s[1..])
  {
    Splits(r, rest, s);
    if s != [] { assert s[..1] == [s[0]]; }
  }

  // Splitting a string in two, for any two languages.

  ghost predicate SplitsBy(head: seq<Rune> -> bool, tail: seq<Rune> -> bool, s: seq<Rune>) {
    exists k :: 0 <= k <= |s| && head(s[..k]) && tail(s[k..])
  }

  lemma SplitAt(head: seq<Rune> -> bool, tail: seq<Rune> -> bool, s: seq<Rune>, k: nat)
    requires k <= |s| && head(s[..k]) && tail(s[k..])
    ensures SplitsBy(head, tail, s)
  {}

  ghost predicate AllAre(head: seq<Rune> -> bool, one: Rune -> bool) {
    forall t :: head(t) <==> forall i :: 0 <= i < |t| ==> one(t[i])
  }

  lemma RepeatMore(head: seq<Rune> -> bool, one: Rune -> bool, tail: seq<Rune> -> bool, s: seq<Rune>, k: nat)
    requires AllAre(head, one) && 0 < k <= |s| && head(s[..k]) && tail(s[k..])
    ensures one(s[0]) && SplitsBy(head, tail, s[1..])
  {
    var front, rest := s[..k], s[1..][..k - 1];
    assert front[0] == s[0];
    forall i | 0 <= i < |rest| ensures one(rest[i]) {
      var j := i + 1;
      assert rest[i] == front[j];
    }
    assert s[1..][k - 1..] == s[k..];
    SplitAt(head, tail, s[1..], k - 1);
  }

  lemma RepeatLess(head: seq<Rune> -> bool, one: Rune -> bool, tail: seq<Rune> -> bool, s: seq<Rune>, j: nat)
    requires AllAre(head, one) && s != [] && one(s[0]) && j <= |s[1..]| && head(s[1..][..j]) && tail(s[1..][j..])
    ensures SplitsBy(head, tail, s)
  {
    var front, rest := s[..j + 1], s[1..][..j];
    forall i | 0 <= i < |front| ensures one(front[i]) {
      if i > 0 {
        var k := i - 1;
        assert front[i] == rest[k];
      }
    }
    assert s[1..][j..] == s[j + 1..];
    SplitAt(head, tail, s, j + 1);
  }

  /** A head that is empty, or one good character before a head. */
  lemma RepeatUnrolled(head: seq<Rune> -> bool, one: Rune -> bool, tail: seq<Rune> -> bool, s: seq<Rune>)
    requires AllAre(head, one)
    ensures SplitsBy(head, tail, s) <==> tail(s) || (s != [] && one(s[0]) && SplitsBy(head, tail, s[1..]))
  {
    assert s[..0] == [] && s[0..] == s;
    if SplitsBy(head, tail, s) {
      var k :| 0 <= k <= |s| && head(s[..k]) && tail(s[k..]);
      if k > 0 { RepeatMore(head, one, tail, s, k); }
    }
    if tail(s) { SplitAt(head, tail, s, 0); }
    if s != [] && one(s[0]) && SplitsBy(head, tail, s[1..]) {
      var j :| 0 <= j <= |s[1..]| && head(s[1..][..j]) && tail(s[1..][j..]);
      RepeatLess(head, one, tail, s, j);
    }
  }

  /** A starred expression takes nothing, or one character and then goes on. */
  lemma {:induction false} ManyUnrolled(body: Re, rest: seq<Re>, s: seq<Rune>)
    requires OneCharacter(body)
    ensures AcceptsAll([Many(body)] + rest, s) <==>
      AcceptsAll(rest, s) || (s != [] && Accepts(body, [s[0]]) && AcceptsAll([Many(body)] + rest, s[1..]))
  {
    var head, one, tail := (t: seq<Rune>) => Accepts(Many(body), t), (c: Rune) => Accepts(body, [c]),
      (t: seq<Rune>) => AcceptsAll(rest, t);
    forall t ensures head(t) <==> forall i :: 0 <= i < |t| ==> one(t[i]) { ManyAccepts(body, t); }
    RepeatUnrolled(head, one, tail, s);
    Splits(Many(body), rest, s);
    if s != [] { Splits(Many(body), rest, s[1..]); }
  }

  lemma {:induction false} DotsAccept(s: seq<Rune>)
    ensures Accepts(Many(Dot), s) <==> NoNewline(s)
  {
    ManyAccepts(Dot, s);
    assert !Accepts(Dot, [NEWLINE]);
  }

  /** A directory part: empty, or ending in a slash. */
  predicate IsDirectories(s: seq<Rune>) {
    s == [] || (s[|s| - 1] == SLASH && NoNewline(s[..|s| - 1]))
  }

  lemma {:induction false} DirectoriesAccept(s: seq<Rune>)
    ensures Accepts(DIRECTORIES, s) <==> IsDirectories(s)
  {
    var r := Then(Many(Dot), Literal(SLASH));
    if s != [] {
      var last := |s| - 1;
      assert s[last..] == [s[last]];
      DotsAccept(s[..last]);
      assert Accepts(r, s) <==> Accepts(Many(Dot), s[..last]) && Accepts(Literal(SLASH), s[last..]);
    }
  }

  /** The rest of s behind the directory part that ends with the slash at k. */
  ghost predicate PartAt(tail: seq<Rune> -> bool, s: seq<Rune>, k: nat) {
    k < |s| && s[k] == SLASH && NoNewline(s[..k]) && tail(After(s, k))
  }

  lemma PartEndsAt(s: seq<Rune>, k: nat)
    requires k < |s|
    ensures IsDirectories(s[..k + 1]) <==> s[k] == SLASH && NoNewline(s[..k])
    ensures After(s, k) == s[k + 1..]
  {
    assert s[..k + 1][..k] == s[..k];
  }

  lemma PartUnrolled(head: seq<Rune> -> bool, tail: seq<Rune> -> bool, s: seq<Rune>)
    requires forall t :: head(t) <==> IsDirectories(t)
    ensures SplitsBy(head, tail, s) <==> tail(s) || exists k: nat :: PartAt(tail, s, k)
  {
    assert s[..0] == [] && s[0..] == s;
    if SplitsBy(head, tail, s) {
      var k :| 0 <= k <= |s| && head(s[..k]) && tail(s[k..]);
      if k > 0 {
        PartEndsAt(s, k - 1);
        assert PartAt(tail, s, k - 1);
      }
    }
    if tail(s) { SplitAt(head, tail, s, 0); }
    if k: nat :| PartAt(tail, s, k) {
      PartEndsAt(s, k);
      SplitAt(head, tail, s, k + 1);
    }
  }

  lemma {:induction false} DirectoriesUnrolled(rest: seq<Re>, s: seq<Rune>)
    ensures AcceptsAll([DIRECTORIES] + rest, s) <==>
      AcceptsAll(rest, s) ||
        exists k :: 0 <= k < |s| && s[k] == SLASH && NoNewline(s[..k]) && AcceptsAll(rest, After(s, k))
  {
    var head, tail := (t: seq<Rune>) => Accepts(DIRECTORIES, t), (t: seq<Rune>) => AcceptsAll(rest, t);
    forall t ensures head(t) <==> IsDirectories(t) { DirectoriesAccept(t); }
    PartUnrolled(head, tail, s);
    Splits(DIRECTORIES, rest, s);
    assert forall k: nat :: PartAt(tail, s, k) <==>
      k < |s| && s[k] == SLASH && NoNewline(s[..k]) && AcceptsAll(rest, After(s, k));
  }

  /** The emitted expression accepts this path exactly if the glob matches it. */
  ghost predicate Kept(g: seq<Byte>, p: seq<Rune>) { AcceptsAll(Compile(g), p) <==> Matches(g, p) }

  lemma {:induction false} CompileUnfolds(g: seq<Byte>)
    requires g != []
    ensures Compile(g) == [Node(g).0] + Compile(g[Node(g).1..])
  {}

  lemma {:induction false} DirectoriesKept(g: seq<Byte>, p: seq<Rune>)
    requires StartsWith(g, [STAR, STAR, SLASH]) && Kept(g[3..], p)
    requires forall k :: 0 <= k < |p| ==> Kept(g[3..], After(p, k))
    ensures Kept(g, p)
  {
    CompileUnfolds(g);
    DirectoriesUnrolled(Compile(g[3..]), p);
  }

  lemma {:induction false} StarsKept(g: seq<Byte>, p: seq<Rune>)
    requires g != [] && g[0] == STAR && !StartsWith(g, [STAR, STAR, SLASH])
    requires Kept(g[Node(g).1..], p) && (p != [] ==> Kept(g, p[1..]))
    ensures Kept(g, p)
  {
    CompileUnfolds(g);
    ManyUnrolled(if StartsWith(g, [STAR, STAR]) then Dot else NotSlash, Compile(g[Node(g).1..]), p);
  }

  lemma {:induction false} OneKept(g: seq<Byte>, p: seq<Rune>)
    requires g != [] && g[0] != STAR && (p != [] ==> Kept(g[1..], p[1..]))
    ensures Kept(g, p)
  {
    CompileUnfolds(g);
    PrefixTwo(g);
    OneAtATime(Node(g).0, Compile(g[1..]), p);
  }

  lemma {:induction false} KeptAlways(g: seq<Byte>, p: seq<Rune>)
    ensures Kept(g, p)
    decreases |g|, |p|
  {
    if g == [] {
    } else if StartsWith(g, [STAR, STAR, SLASH]) {
      KeptAlways(g[3..], p);
      forall k | 0 <= k < |p| ensures Kept(g[3..], After(p, k)) { KeptAlways(g[3..], After(p, k)); }
      DirectoriesKept(g, p);
    } else if g[0] == STAR {
      KeptAlways(g[Node(g).1..], p);
      if p != [] { KeptAlways(g, p[1..]); }
      StarsKept(g, p);
    } else {
      if p != [] { KeptAlways(g[1..], p[1..]); }
      OneKept(g, p);
    }
  }

  /** The compiler preserves meaning: the emitted expression accepts exactly the paths the glob matches. */
  lemma {:induction false} CompilePreservesMeaning(g: seq<Byte>, p: seq<Rune>)
    ensures AcceptsAll(Compile(g), p) <==> Matches(g, p)
  {
    KeptAlways(g, p);
  }

  // ---- Globs without a slash ----

  /** The part after the last slash. */
  function Base(p: seq<Rune>): (b: seq<Rune>)
    ensures SLASH !in b
  {
    if p == [] then []
    else if p[|p| - 1] == SLASH then []
    else Base(p[..|p| - 1]) + [p[|p| - 1]]
  }

  /** b is the end of p, and a slash stands before it if anything does. */
  ghost predicate LastElement(p: seq<Rune>, b: seq<Rune>) {
    |b| <= |p| && p[|p| - |b|..] == b && (|b| < |p| ==> p[|p| - |b| - 1] == SLASH)
  }

  lemma LastElementNext(init: seq<Rune>, c: Rune, b: seq<Rune>)
    requires LastElement(init, b)
    ensures LastElement(init + [c], b + [c])
  {}

  lemma {:induction false} BaseIsLast(p: seq<Rune>)
    ensures LastElement(p, Base(p))
    decreases |p|
  {
    if p == [] || p[|p| - 1] == SLASH {
    } else {
      var init, last := p[..|p| - 1], p[|p| - 1];
      BaseIsLast(init);
      LastElementNext(init, last, Base(init));
      assert p == init + [last];
    }
  }

  lemma {:induction false} BaseSplit(p: seq<Rune>)
    ensures |Base(p)| <= |p| && p[|p| - |Base(p)|..] == Base(p)
    ensures |Base(p)| < |p| ==> p[|p| - |Base(p)| - 1] == SLASH
  {
    BaseIsLast(p);
  }

  predicate SingleStars(g: seq<Rune>) {
    forall i :: 0 <= i < |g| - 1 ==> !(g[i] == STAR && g[i + 1] == STAR)
  }

  lemma TailSingle(g: seq<Rune>)
    requires g != [] && SingleStars(g)
    ensures SingleStars(g[1..])
  {
    var tail := g[1..];
    forall i | 0 <= i < |tail| - 1 ensures !(tail[i] == STAR && tail[i + 1] == STAR) {
      var j := i + 1;
      assert tail[i] == g[j] && tail[i + 1] == g[j + 1];
    }
  }

  lemma {:induction false} StaysInElement(g: seq<Rune>, p: seq<Rune>)
    requires SLASH !in g && SingleStars(g) && Matches(g, p)
    ensures SLASH !in p
    decreases |g|, |p|
  {
    if g == [] {
    } else {
      assert !StartsWith(g, [STAR, STAR]) by { if |g| > 1 && g[0] == STAR { assert g[0 + 1] != STAR; } }
      assert !StartsWith(g, [STAR, STAR, SLASH]);
      var tail := g[1..];
      TailSingle(g);
      if Matches(tail, p) && g[0] == STAR {
        StaysInElement(tail, p);
      } else {
        if g[0] == STAR { StaysInElement(g, p[1..]); } else { StaysInElement(tail, p[1..]); }
        assert p == [p[0]] + p[1..];
      }
    }
  }

  /** A glob without a slash and without ** applies to the part of the path after its last slash. */
  lemma {:induction false} SlashlessMatchesBase(g: seq<Byte>, p: seq<Rune>)
    requires SLASH !in g && SingleStars(g) && NoNewline(p)
    ensures AcceptsAll(Compile(Rooted(g)), p) <==> Matches(g, Base(p))
  {
    var rooted := Rooted(g);
    CompilePreservesMeaning(rooted, p);
    assert rooted[..3] == [STAR, STAR, SLASH] && rooted[3..] == g;
    BaseSplit(p);
    if Matches(g, p) { StaysInElement(g, p); BaseOfElement(p); }
    if k :| 0 <= k < |p| && p[k] == SLASH && NoNewline(p[..k]) && Matches(g, After(p, k)) {
      StaysInElement(g, After(p, k));
      BaseAfter(p, k);
    }
    if Matches(g, Base(p)) && |Base(p)| < |p| {
      var k := |p| - |Base(p)| - 1;
      assert p[k] == SLASH && NoNewline(p[..k]) && After(p, k) == Base(p);
    } else if |Base(p)| == |p| {
      assert p[0..] == p;
    }
  }

  lemma {:induction false} BaseAfter(p: seq<Rune>, k: nat)
    requires k < |p| && p[k] == SLASH && SLASH !in p[k + 1..]
    ensures Base(p) == p[k + 1..]
    decreases |p|
  {
    if k == |p| - 1 {
    } else {
      assert p[|p| - 1] in p[k + 1..];
      var init := p[..|p| - 1];
      assert p[k + 1..] == init[k + 1..] + [p[|p| - 1]];
      BaseAfter(init, k);
    }
  }

  lemma {:induction false} BaseOfElement(p: seq<Rune>)
    requires SLASH !in p
    ensures Base(p) == p
    decreases |p|
  {
    if p == [] {
    } else {
      BaseOfElement(p[..|p| - 1]);
    }
  }

  // ---- The base name, which matchesAnyGlob tries as well ----

  const PERIOD: Byte := 46

  /** The text without the slashes it ends in. */
  function Trimmed(p: seq<Rune>): (r: seq<Rune>)
    ensures r <= p && (r == [] || r[|r| - 1] != SLASH)
  {
    if p != [] && p[|p| - 1] == SLASH then Trimmed(p[..|p| - 1]) else p
  }

  /** filepath.Base on slash-separated paths. */
  function FileBase(p: seq<Rune>): seq<Rune> {
    if p == [] then [PERIOD] else if Trimmed(p) == [] then [SLASH] else Base(Trimmed(p))
  }

  lemma {:induction false} BaseOfTrimmed(p: seq<Rune>)
    requires Trimmed(p) != []
    ensures FileBase(p) != [] && SLASH !in FileBase(p)
  {
    BaseSplit(Trimmed(p));
  }

  /** As many question marks. */
  function Questions(n: nat): (g: seq<Byte>)
    ensures |g| == n && forall i :: 0 <= i < n ==> g[i] == QUESTION
  {
    if n == 0 then [] else [QUESTION] + Questions(n - 1)
  }

  lemma {:induction false} QuestionsMatch(n: nat, p: seq<Rune>)
    requires SLASH !in p
    ensures Matches(Questions(n), p) <==> |p| == n
    decreases n
  {
    if n == 0 {
    } else {
      var g: seq<Rune> := Questions(n);
      assert g[0] == QUESTION && g[1..] == Questions(n - 1) && !StartsWith(g, [STAR, STAR, SLASH]) &&
        !StartsWith(g, [STAR, STAR]);
      if p != [] { QuestionsMatch(n - 1, p[1..]); }
    }
  }

  /** The base name of the path tells such globs the same as the path does. */
  ghost predicate BaseAddsNothing(g: seq<Byte>, p: seq<Rune>) {
    AcceptsAll(Compile(Rooted(g)), FileBase(p)) <==> AcceptsAll(Compile(Rooted(g)), p)
  }

  lemma {:induction false} SameBase(g: seq<Byte>, p: seq<Rune>)
    requires SLASH !in g && SingleStars(g) && NoNewline(p) && NoNewline(FileBase(p))
    ensures BaseAddsNothing(g, p) <==> (Matches(g, Base(FileBase(p))) <==> Matches(g, Base(p)))
  {
    SlashlessMatchesBase(g, p);
    SlashlessMatchesBase(g, FileBase(p));
  }

  predicate OnlySlashes(p: seq<Rune>) { forall i :: 0 <= i < |p| ==> p[i] == SLASH }

  lemma {:induction false} TrimmedEmpty(p: seq<Rune>)
    ensures Trimmed(p) == [] <==> OnlySlashes(p)
  {
    if p != [] && p[|p| - 1] == SLASH { TrimmedEmpty(p[..|p| - 1]); }
  }

  lemma FileBaseHasNoNewline(p: seq<Rune>)
    requires NoNewline(p)
    ensures NoNewline(FileBase(p))
  {
    BaseSplit(Trimmed(p));
  }

  /**
   Trying the base name as well adds nothing for any glob without a slash and **, if and only if the path is not empty
   and does not end in a slash; a path of slashes alone is the one other exception.
   */
  lemma BaseAddsNothingIff(p: seq<Rune>)
    requires NoNewline(p)
    ensures (forall g: seq<Byte> :: g != [] && SLASH !in g && SingleStars(g) ==> BaseAddsNothing(g, p)) <==>
      p != [] && (p[|p| - 1] != SLASH || OnlySlashes(p))
  {
    FileBaseHasNoNewline(p);
    TrimmedEmpty(p);
    BaseSplit(p);
    if p != [] && (p[|p| - 1] != SLASH || Trimmed(p) == []) {
      BaseOfElement(Base(p));
      assert Base(FileBase(p)) == Base(p);
      forall g: seq<Byte> | g != [] && SLASH !in g && SingleStars(g) ensures BaseAddsNothing(g, p) { SameBase(g, p); }
    } else {
      if p != [] { BaseOfTrimmed(p); }
      BaseOfElement(FileBase(p));
      var g := Questions(|FileBase(p)|);
      SameBase(g, p);
      QuestionsMatch(|g|, FileBase(p));
      QuestionsMatch(|g|, Base(p));
      assert !BaseAddsNothing(g, p);
    }
  }

  // ---- What the parts of a glob match ----

  /** No character of p is c. */
  predicate Lacks(p: seq<Rune>, c: Rune) { c !in p }

  lemma PrefixTwo(g: seq<Rune>)
    ensures StartsWith(g, [STAR, STAR]) <==> |g| >= 2 && g[0] == STAR && g[1] == STAR
    ensures StartsWith(g, [STAR, STAR, SLASH]) <==> |g| >= 3 && g[0] == STAR && g[1] == STAR && g[2] == SLASH
  {
    if |g| >= 2 { assert g[..2] == [g[0], g[1]]; }
    if |g| >= 3 { assert g[..3] == [g[0], g[1], g[2]]; }
  }

  ghost predicate RunUpTo(g: seq<Rune>, p: seq<Rune>, without: Rune, k: nat) {
    k <= |p| && Lacks(p[..k], without) && Matches(g, p[k..])
  }

  /** A run of p matches, and g what is behind it. */
  ghost predicate RunThen(g: seq<Rune>, p: seq<Rune>, without: Rune) { exists k: nat :: RunUpTo(g, p, without, k) }

  lemma RunShifted(g: seq<Rune>, p: seq<Rune>, without: Rune, k: nat)
    requires p != []
    ensures RunUpTo(g, p, without, k + 1) <==> p[0] != without && RunUpTo(g, p[1..], without, k)
  {
    if k < |p| {
      assert p[..k + 1] == [p[0]] + p[1..][..k];
      assert p[1..][k..] == p[k + 1..];
    }
  }

  lemma {:induction false} RunEmpty(g: seq<Rune>, p: seq<Rune>, without: Rune)
    ensures RunUpTo(g, p, without, 0) <==> Matches(g, p)
  {
    assert p[..0] == [] && p[0..] == p;
  }

  lemma {:induction false} RunBegins(g: seq<Rune>, p: seq<Rune>, without: Rune)
    requires RunThen(g, p, without)
    ensures Matches(g, p) || (p != [] && p[0] != without && RunThen(g, p[1..], without))
  {
    var k: nat :| RunUpTo(g, p, without, k);
    if k == 0 { RunEmpty(g, p, without); } else { RunShifted(g, p, without, k - 1); }
  }

  lemma RunContinues(g: seq<Rune>, p: seq<Rune>, without: Rune)
    requires p != [] && p[0] != without && RunThen(g, p[1..], without)
    ensures RunThen(g, p, without)
  {
    var k: nat :| RunUpTo(g, p[1..], without, k);
    RunShifted(g, p, without, k);
  }

  lemma {:induction false} RunNext(g: seq<Rune>, p: seq<Rune>, without: Rune)
    ensures RunThen(g, p, without) <==>
      Matches(g, p) || (p != [] && p[0] != without && RunThen(g, p[1..], without))
  {
    RunEmpty(g, p, without);
    if RunThen(g, p, without) {
      RunBegins(g, p, without);
    } else if p != [] && p[0] != without && RunThen(g, p[1..], without) {
      RunContinues(g, p, without);
    }
  }

  /** A single star matches any run of characters without a slash. */
  lemma {:induction false} StarMatches(g: seq<Rune>, p: seq<Rune>)
    requires !StartsWith([STAR] + g, [STAR, STAR])
    ensures Matches([STAR] + g, p) <==> RunThen(g, p, 47)
    decreases |p|
  {
    var s := [STAR] + g;
    assert s[1..] == g;
    PrefixTwo(s);
    RunNext(g, p, 47);
    if p == [] {
    } else {
      StarMatches(g, p[1..]);
    }
  }

  /** Two stars match any run of characters without a newline. */
  lemma {:induction false} TwoStarsMatch(g: seq<Rune>, p: seq<Rune>)
    requires !StartsWith([STAR, STAR] + g, [STAR, STAR, SLASH])
    ensures Matches([STAR, STAR] + g, p) <==> RunThen(g, p, 10)
    decreases |p|
  {
    var s := [STAR, STAR] + g;
    assert s[..2] == [STAR, STAR] && s[2..] == g;
    RunNext(g, p, 10);
    if p == [] {
    } else {
      TwoStarsMatch(g, p[1..]);
    }
  }

  /** Two stars and a slash match nothing, or any run without a newline up to some slash, and that slash. */
  lemma {:induction false} DirectoriesMatch(g: seq<Rune>, p: seq<Rune>)
    ensures Matches([STAR, STAR, SLASH] + g, p) <==>
      Matches(g, p) || exists k :: 0 <= k < |p| && Lacks(p[..k], 10) && p[k] == 47 && Matches(g, p[k + 1..])
  {
    var s := [STAR, STAR, SLASH] + g;
    assert s[..3] == [STAR, STAR, SLASH] && s[3..] == g;
  }

  /** A question mark matches any one character but a slash. */
  lemma {:induction false} QuestionMatches(g: seq<Rune>, p: seq<Rune>)
    ensures Matches([63] + g, p) <==> p != [] && p[0] != 47 && Matches(g, p[1..])
  {
    var s := [QUESTION] + g;
    assert s[1..] == g && s[0] != STAR;
    PrefixTwo(s);
  }

  /** Anything else matches itself, and the empty glob the empty path. */
  lemma {:induction false} LiteralMatches(c: Rune, g: seq<Rune>, p: seq<Rune>)
    requires c != 42 && c != 63
    ensures Matches([c] + g, p) <==> p != [] && p[0] == c && Matches(g, p[1..])
    ensures Matches([], p) <==> p == []
  {
    var s := [c] + g;
    assert s[1..] == g && s[0] == c;
    PrefixTwo(s);
  }
}
