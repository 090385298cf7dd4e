/**
 The glob compiler works byte by byte, the expressions it emits work character by character: what becomes of globs
 that hold characters beyond ASCII.
 */
module GlobText {
  import opened Utf8
  import opened Glob

  /** A character as UTF-8 (section 3 of RFC 3629). */
  function EncodeRune(c: Rune): (r: seq<Byte>)
    requires c < 0x110000
    ensures 1 <= |r| <= 4 && (|r| == 1 <==> c < 0x80) && (c < 0x80 ==> r == [c])
    ensures |r| > 1 ==> forall i :: 0 <= i < |r| ==> r[i] >= 0x80
  {
    if c < 0x80 then [c]
    else if c < 0x800 then [0xC0 + c / 64, 0x80 + c % 64]
    else if c < 0x10000 then [0xE0 + c / 4096, 0x80 + c / 64 % 64, 0x80 + c % 64]
    else [0xF0 + c / 262144, 0x80 + c / 4096 % 64, 0x80 + c / 64 % 64, 0x80 + c % 64]
  }

  ghost predicate IsText(t: seq<Rune>) {
    forall i :: 0 <= i < |t| ==> t[i] < 0x110000
  }

  function Encode(t: seq<Rune>): seq<Byte>
    requires IsText(t)
  {
    if t == [] then [] else EncodeRune(t[0]) + Encode(t[1..])
  }

  ghost predicate AsciiText(t: seq<Rune>) {
    forall i :: 0 <= i < |t| ==> t[i] < 0x80
  }

  lemma {:induction false} EncodeParts(a: seq<Rune>, b: seq<Rune>)
    requires IsText(a) && IsText(b) && |a| == 1
    ensures Encode(a + b) == EncodeRune(a[0]) + Encode(b)
  {
    assert (a + b)[1..] == b;
  }

  /** ASCII characters are encoded as themselves, and no other character is encoded with their codes. */
  lemma {:induction false} EncodeHead(t: seq<Rune>)
    requires IsText(t) && t != []
    ensures Encode(t) != [] && (t[0] < 0x80 ==> Encode(t)[0] == t[0] && Encode(t)[1..] == Encode(t[1..]))
    ensures t[0] >= 0x80 ==> Encode(t)[0] >= 0x80
  {
    assert EncodeRune(t[0])[0] == Encode(t)[0];
    if t[0] < 0x80 { assert Encode(t) == [t[0]] + Encode(t[1..]); }
  }

  lemma {:induction false} EncodeAscii(t: seq<Rune>)
    requires AsciiText(t) && IsText(t)
    ensures Encode(t) == t
  {
    if t == [] {
    } else {
      EncodeAscii(t[1..]);
      assert t == [t[0]] + t[1..];
    }
  }

  lemma {:induction false} EncodeKeepsSlash(t: seq<Rune>)
    requires IsText(t)
    ensures SLASH in Encode(t) <==> SLASH in t
  {
    if t == [] {
    } else {
      EncodeKeepsSlash(t[1..]);
      assert t == [t[0]] + t[1..];
    }
  }

  // ---- The shortest text a glob means ----

  const LETTER: Rune := 97

  function Shortest(g: seq<Rune>): (p: seq<Rune>)
    decreases |g|
  {
    if g == [] then []
    else if StartsWith(g, [STAR, STAR, SLASH]) then Shortest(g[3..])
    else if StartsWith(g, [STAR, STAR]) then Shortest(g[2..])
    else if g[0] == STAR then Shortest(g[1..])
    else if g[0] == QUESTION then [LETTER] + Shortest(g[1..])
    else [g[0]] + Shortest(g[1..])
  }

  lemma {:induction false} ShortestMeant(g: seq<Rune>)
    ensures Matches(g, Shortest(g))
    decreases |g|
  {
    if g == [] {
    } else {
      if StartsWith(g, [STAR, STAR, SLASH]) {
        ShortestMeant(g[3..]);
      } else if StartsWith(g, [STAR, STAR]) {
        ShortestMeant(g[2..]);
      } else {
        ShortestMeant(g[1..]);
        assert ([LETTER] + Shortest(g[1..]))[1..] == Shortest(g[1..]) == ([g[0]] + Shortest(g[1..]))[1..];
      }
    }
  }

  lemma {:induction false} NoneShorter(g: seq<Rune>, p: seq<Rune>)
    requires Matches(g, p)
    ensures |p| >= |Shortest(g)|
    decreases |g|, |p|
  {
    if g == [] {
    } else {
      if StartsWith(g, [STAR, STAR, SLASH]) {
        if Matches(g[3..], p) {
          NoneShorter(g[3..], p);
        } else {
          var k :| 0 <= k < |p| && p[k] == SLASH && NoNewline(p[..k]) && Matches(g[3..], After(p, k));
          NoneShorter(g[3..], After(p, k));
        }
      } else if g[0] == STAR {
        var rest := if StartsWith(g, [STAR, STAR]) then g[2..] else g[1..];
        if Matches(rest, p) { NoneShorter(rest, p); } else { NoneShorter(g, p[1..]); }
      } else {
        NoneShorter(g[1..], p[1..]);
      }
    }
  }

  lemma {:induction false} LiteralByte(b: Rune, rest: seq<Rune>)
    requires b != STAR && b != QUESTION
    ensures Shortest([b] + rest) == [b] + Shortest(rest)
  {
    PrefixTwo([b] + rest);
    assert ([b] + rest)[1..] == rest;
  }

  ghost predicate CountsLiterals(f: seq<Rune> -> nat) {
    forall b: Rune, rest: seq<Rune> :: b >= 0x80 ==> f([b] + rest) == 1 + f(rest)
  }

  lemma {:induction false} CountedLiterals(f: seq<Rune> -> nat, r: seq<Rune>, rest: seq<Rune>)
    requires CountsLiterals(f) && forall i :: 0 <= i < |r| ==> r[i] >= 0x80
    ensures f(r + rest) == |r| + f(rest)
    decreases |r|
  {
    if r == [] {
      assert r + rest == rest;
    } else {
      CountedLiterals(f, r[1..], rest);
      assert r + rest == [r[0]] + (r[1..] + rest);
    }
  }

  /** Bytes beyond ASCII are literals to the compiler. */
  lemma {:induction false} LiteralBytes(r: seq<Rune>, rest: seq<Rune>)
    requires forall i :: 0 <= i < |r| ==> r[i] >= 0x80
    ensures |Shortest(r + rest)| == |r| + |Shortest(rest)|
  {
    var length := (g: seq<Rune>) => |Shortest(g)|;
    forall b: Rune, x: seq<Rune> | b >= 0x80 ensures length([b] + x) == 1 + length(x) { LiteralByte(b, x); }
    CountedLiterals(length, r, rest);
    assert length(r + rest) == |r| + length(rest);
  }

  /** The first characters of a text and the first bytes of its encoding are the same wildcards. */
  lemma {:induction false} EncodeKeepsStars(t: seq<Rune>)
    requires IsText(t) && t != [] && t[0] == STAR
    ensures StartsWith(t, [STAR, STAR]) <==> StartsWith(Encode(t), [STAR, STAR])
    ensures StartsWith(t, [STAR, STAR, SLASH]) <==> StartsWith(Encode(t), [STAR, STAR, SLASH])
    ensures StartsWith(t, [STAR, STAR]) ==> Encode(t)[2..] == Encode(t[2..])
    ensures StartsWith(t, [STAR, STAR, SLASH]) ==> Encode(t)[3..] == Encode(t[3..])
  {
    EncodeHead(t);
    var u := t[1..];
    if u != [] {
      EncodeHead(u);
      var v := u[1..];
      assert v == t[2..];
      if v != [] { EncodeHead(v); }
      PrefixTwo(t);
      PrefixTwo(Encode(t));
      if u[0] == STAR {
        assert Encode(t)[2..] == Encode(u)[1..] == Encode(v);
        if v != [] && v[0] == SLASH { assert Encode(t)[3..] == Encode(v)[1..] && v[1..] == t[3..]; }
      }
    }
  }

  ghost predicate NeedsMoreIffOther(t: seq<Rune>)
    requires IsText(t)
  {
    |Shortest(Encode(t))| >= |Shortest(t)| && (|Shortest(Encode(t))| == |Shortest(t)| <==> AsciiText(t))
  }

  lemma OtherNeedsMore(t: seq<Rune>)
    requires IsText(t) && t != [] && t[0] >= 0x80 && NeedsMoreIffOther(t[1..])
    ensures NeedsMoreIffOther(t)
  {
    LiteralBytes(EncodeRune(t[0]), Encode(t[1..]));
    LiteralByte(t[0], t[1..]);
    assert t == [t[0]] + t[1..];
  }

  /** How many characters the first star of a glob takes with it. */
  function StarWidth(g: seq<Rune>): nat {
    if StartsWith(g, [STAR, STAR, SLASH]) then 3 else if StartsWith(g, [STAR, STAR]) then 2 else 1
  }

  lemma StarNeedsNothing(t: seq<Rune>)
    requires IsText(t) && t != [] && t[0] == STAR && NeedsMoreIffOther(t[StarWidth(t)..])
    ensures NeedsMoreIffOther(t)
  {
    EncodeHead(t);
    EncodeKeepsStars(t);
    AsciiBehind(t, StarWidth(t));
    assert Shortest(t) == Shortest(t[StarWidth(t)..]);
    assert Shortest(Encode(t)) == Shortest(Encode(t)[StarWidth(t)..]);
  }

  lemma {:induction false} OneCharacterNeedsOne(g: seq<Rune>)
    requires g != [] && g[0] != STAR
    ensures |Shortest(g)| == 1 + |Shortest(g[1..])|
  {
    PrefixTwo(g);
  }

  /** The encoded glob needs longer texts, exactly if a character is not ASCII. */
  lemma {:induction false} EncodingNeedsMore(t: seq<Rune>)
    requires IsText(t)
    ensures NeedsMoreIffOther(t)
    decreases |t|
  {
    if t == [] {
    } else {
      if t[0] >= 0x80 {
        EncodingNeedsMore(t[1..]);
        OtherNeedsMore(t);
      } else if t[0] == STAR {
        EncodingNeedsMore(t[StarWidth(t)..]);
        StarNeedsNothing(t);
      } else {
        EncodingNeedsMore(t[1..]);
        EncodeHead(t);
        OneCharacterNeedsOne(t);
        OneCharacterNeedsOne(Encode(t));
        AsciiBehind(t, 1);
      }
    }
  }

  lemma AsciiBehind(t: seq<Rune>, n: nat)
    requires n <= |t| && forall i :: 0 <= i < n ==> t[i] < 0x80
    ensures AsciiText(t) <==> AsciiText(t[n..])
  {
    forall i | n <= i < |t| ensures t[i] == t[n..][i - n] {}
  }

  // ---- What a glob means, character by character ----

  /** The compiled bytes accept exactly the paths that the text means. */
  ghost predicate Compiles(g: seq<Byte>, t: seq<Rune>) {
    forall p :: AcceptsAll(Compile(g), p) <==> Matches(t, p)
  }

  /** A glob means what it says if and only if it is ASCII. */
  lemma {:induction false} MeansWhatItSaysIffAscii(t: seq<Rune>)
    requires IsText(t)
    ensures Compiles(Encode(t), t) <==> AsciiText(t)
  {
    var g := Encode(t);
    if AsciiText(t) {
      EncodeAscii(t);
      forall p ensures AcceptsAll(Compile(g), p) <==> Matches(t, p) { CompilePreservesMeaning(g, p); }
    } else {
      var p := Shortest(t);
      ShortestMeant(t);
      EncodingNeedsMore(t);
      CompilePreservesMeaning(g, p);
      if Matches(g, p) { NoneShorter(g, p); }
      assert AcceptsAll(Compile(g), p) != Matches(t, p);
    }
  }

  /** The directory part put before a text. */
  function Anywhere(t: seq<Rune>): seq<Rune> { [STAR, STAR, SLASH] + t }

  /** The text of the rooted glob. */
  function RootedText(t: seq<Rune>): seq<Rune> {
    if SLASH in t then t else Anywhere(t)
  }

  lemma {:induction false} EncodeAnywhere(t: seq<Rune>)
    requires IsText(t)
    ensures IsText(Anywhere(t)) && Encode(Anywhere(t)) == [STAR, STAR, SLASH] + Encode(t)
  {
    var one, two := [SLASH] + t, [STAR] + ([SLASH] + t);
    assert Anywhere(t) == [STAR] + two;
    EncodeParts([SLASH], t);
    EncodeParts([STAR], one);
    EncodeParts([STAR], two);
    var e := Encode(t);
    assert [STAR] + ([STAR] + ([SLASH] + e)) == [STAR, STAR, SLASH] + e;
  }

  lemma {:induction false} EncodeRooted(t: seq<Rune>)
    requires IsText(t)
    ensures IsText(RootedText(t)) && Encode(RootedText(t)) == Rooted(Encode(t)) &&
      (AsciiText(RootedText(t)) <==> AsciiText(t))
  {
    EncodeKeepsSlash(t);
    if SLASH !in t {
      EncodeAnywhere(t);
      assert Anywhere(t)[3..] == t;
      AsciiBehind(Anywhere(t), 3);
    }
  }

  /** The same of everything globRegexp compiles: with the directory part it puts before a glob without a slash. */
  lemma {:induction false} GlobMeansWhatItSaysIffAscii(t: seq<Rune>)
    requires IsText(t)
    ensures Compiles(Rooted(Encode(t)), RootedText(t)) <==> AsciiText(t)
  {
    EncodeRooted(t);
    MeansWhatItSaysIffAscii(RootedText(t));
  }

  // ---- Paths as their own globs ----

  lemma {:induction false} LiteralText(t: seq<Rune>)
    requires STAR !in t && QUESTION !in t
    ensures Shortest(t) == t
  {
    if t == [] {
    } else {
      LiteralText(t[1..]);
      PrefixTwo(t);
      assert t == [t[0]] + t[1..];
    }
  }

  lemma {:induction false} ShortestRooted(t: seq<Rune>)
    ensures Shortest(RootedText(t)) == Shortest(t)
  {
    if SLASH !in t { assert RootedText(t)[3..] == t && RootedText(t)[..3] == [STAR, STAR, SLASH]; }
  }

  /** A path used as its own glob, without wildcards, matches itself if and only if it is ASCII. */
  lemma {:induction false} LiteralMatchesItselfIffAscii(t: seq<Rune>)
    requires IsText(t) && STAR !in t && QUESTION !in t
    ensures AcceptsAll(Compile(Rooted(Encode(t))), t) <==> AsciiText(t)
  {
    var r := RootedText(t);
    EncodeRooted(t);
    LiteralText(t);
    ShortestRooted(t);
    CompilePreservesMeaning(Encode(r), t);
    if AsciiText(t) {
      EncodeAscii(r);
      ShortestMeant(r);
    } else {
      EncodingNeedsMore(r);
      if Matches(Encode(r), t) { NoneShorter(Encode(r), t); }
    }
  }

  /** The file "é": its own glob does not match it. */
  lemma AccentExample()
    ensures Encode([0xE9]) == [0xC3, 0xA9] && !AcceptsAll(Compile(Rooted([0xC3, 0xA9])), [0xE9])
  {
    var t: seq<Rune> := [0xE9];
    assert Encode(t) == EncodeRune(0xE9) + Encode(t[1..]);
    LiteralMatchesItselfIffAscii(t);
  }

  // ---- What valid text is ----

  /** A Unicode scalar value: a code point that is no surrogate. */
  predicate Scalar(c: Rune) { c < 0xD800 || 0xE000 <= c < 0x110000 }

  ghost predicate Scalars(t: seq<Rune>) { forall i :: 0 <= i < |t| ==> Scalar(t[i]) }

  /** A scalar value's encoding is read as one character, whatever follows. */
  lemma EncodedSize(c: Rune, rest: seq<Byte>)
    requires Scalar(c)
    ensures RuneSize(EncodeRune(c) + rest) == |EncodeRune(c)|
  {
    if c >= 0x10000 {
      FourByteSize(c, rest);
    } else if c >= 0x800 {
      ThreeByteSize(c, rest);
    }
  }

  lemma ThreeByteSize(c: Rune, rest: seq<Byte>)
    requires Scalar(c) && 0x800 <= c < 0x10000
    ensures RuneSize(EncodeRune(c) + rest) == 3
  {
    var s := EncodeRune(c) + rest;
    assert s[0] == 0xE0 + c / 4096 && s[1] == 0x80 + c / 64 % 64 && s[2] == 0x80 + c % 64;
  }

  lemma FourByteSize(c: Rune, rest: seq<Byte>)
    requires 0x10000 <= c < 0x110000
    ensures RuneSize(EncodeRune(c) + rest) == 4
  {
    var s := EncodeRune(c) + rest;
    assert s[0] == 0xF0 + c / 262144 && s[1] == 0x80 + c / 4096 % 64;
    assert s[2] == 0x80 + c / 64 % 64 && s[3] == 0x80 + c % 64;
  }

  function Decode2(a: Byte, b: Byte): int { (a - 0xC0) * 64 + b - 0x80 }
  function Decode3(a: Byte, b: Byte, c: Byte): int { (a - 0xE0) * 4096 + (b - 0x80) * 64 + c - 0x80 }
  function Decode4(a: Byte, b: Byte, c: Byte, d: Byte): int {
    (a - 0xF0) * 262144 + (b - 0x80) * 4096 + (c - 0x80) * 64 + d - 0x80
  }

  /** The six-bit digits of a number. */
  lemma Digits(x: nat, y: nat, z: nat, w: nat)
    requires y < 64 && z < 64 && w < 64
    ensures var c := x * 262144 + y * 4096 + z * 64 + w;
      c / 262144 == x && c / 4096 == x * 64 + y && c / 64 == x * 4096 + y * 64 + z && c % 64 == w
  {}

  lemma LastDigit(x: nat, y: nat)
    requires y < 64
    ensures (x * 64 + y) % 64 == y
  {}

  lemma Encoded2(s: seq<Byte>)
    requires s != [] && RuneSize(s) == 2
    ensures var c := Decode2(s[0], s[1]); c >= 0 && Scalar(c) && EncodeRune(c) == s[..2]
  {
    Digits(0, 0, s[0] - 0xC0, s[1] - 0x80);
  }

  lemma Encoded3(s: seq<Byte>)
    requires s != [] && RuneSize(s) == 3
    ensures var c := Decode3(s[0], s[1], s[2]); c >= 0 && Scalar(c) && EncodeRune(c) == s[..3]
  {
    var y: nat, z: nat, w: nat := s[0] - 0xE0, s[1] - 0x80, s[2] - 0x80;
    Digits(0, y, z, w);
    LastDigit(y, z);
    ThreeBytes(Decode3(s[0], s[1], s[2]), s[0], s[1], s[2]);
    assert s[..3] == [s[0], s[1], s[2]];
  }

  lemma ThreeBytes(c: Rune, a: Byte, b: Byte, d: Byte)
    requires 0x800 <= c < 0x10000 && c / 4096 == a - 0xE0 && c / 64 % 64 == b - 0x80 && c % 64 == d - 0x80
    ensures EncodeRune(c) == [a, b, d]
  {}

  lemma FourBytes(c: Rune, a: Byte, b: Byte, d: Byte, e: Byte)
    requires 0x10000 <= c < 0x110000 && c / 262144 == a - 0xF0 && c / 4096 % 64 == b - 0x80
    requires c / 64 % 64 == d - 0x80 && c % 64 == e - 0x80
    ensures EncodeRune(c) == [a, b, d, e]
  {}

  lemma Encoded4(s: seq<Byte>)
    requires s != [] && RuneSize(s) == 4
    ensures var c := Decode4(s[0], s[1], s[2], s[3]); c >= 0 && Scalar(c) && EncodeRune(c) == s[..4]
  {
    var x: nat, y: nat, z: nat, w: nat := s[0] - 0xF0, s[1] - 0x80, s[2] - 0x80, s[3] - 0x80;
    Digits(x, y, z, w);
    LastDigit(x, y);
    LastDigit(x * 64 + y, z);
    FourBytes(Decode4(s[0], s[1], s[2], s[3]), s[0], s[1], s[2], s[3]);
    assert s[..4] == [s[0], s[1], s[2], s[3]];
  }

  /** Whatever is read as a character is the encoding of a scalar value. */
  lemma ReadIsEncoded(s: seq<Byte>) returns (c: Rune)
    requires s != [] && RuneSize(s) > 0
    ensures Scalar(c) && EncodeRune(c) == s[..RuneSize(s)]
  {
    match RuneSize(s)
    case 1 => c := s[0];
    case 2 => Encoded2(s); c := Decode2(s[0], s[1]);
    case 3 => Encoded3(s); c := Decode3(s[0], s[1], s[2]);
    case _ => Encoded4(s); c := Decode4(s[0], s[1], s[2], s[3]);
  }

  lemma {:induction false} EncodedIsValid(t: seq<Rune>)
    requires Scalars(t)
    ensures IsText(t) && Valid(Encode(t))
  {
    if t == [] {
    } else {
      EncodedIsValid(t[1..]);
      EncodedSize(t[0], Encode(t[1..]));
      assert (EncodeRune(t[0]) + Encode(t[1..]))[|EncodeRune(t[0])|..] == Encode(t[1..]);
    }
  }

  lemma {:induction false} ValidIsEncoded(s: seq<Byte>) returns (t: seq<Rune>)
    requires Valid(s)
    ensures Scalars(t) && IsText(t) && Encode(t) == s
  {
    if s == [] {
      t := [];
    } else {
      var n := RuneSize(s);
      var c := ReadIsEncoded(s);
      var more := ValidIsEncoded(s[n..]);
      t := [c] + more;
      assert t[1..] == more && s == s[..n] + s[n..];
    }
  }

  ghost predicate IsEncoding(s: seq<Byte>, t: seq<Rune>) { Scalars(t) && IsText(t) && Encode(t) == s }

  /** Text is valid if and only if it is the encoding of scalar values. */
  lemma {:induction false} ValidIffEncoded(s: seq<Byte>)
    ensures Valid(s) <==> exists t :: IsEncoding(s, t)
  {
    if Valid(s) {
      var t := ValidIsEncoded(s);
      assert IsEncoding(s, t);
    }
    if t :| IsEncoding(s, t) { EncodedIsValid(t); }
  }
}
