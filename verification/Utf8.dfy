/**
 UTF-8 as section 4 of RFC 3629 defines it, with the three questions the chunker asks of it: is a text valid, does a
 byte start a character, and how long is the first character.
 */
module Utf8 {
  type Byte = b: int | 0 <= b < 0x100

  predicate IsTail(b: Byte) { 0x80 <= b < 0xC0 }

  /** utf8.RuneStart */
  predicate RuneStart(b: Byte) { !IsTail(b) }

  predicate Ascii(s: seq<Byte>) {
    forall i :: 0 <= i < |s| ==> s[i] < 0x80
  }

  predicate Tails(s: seq<Byte>, n: nat) {
    |s| > n && forall i :: 1 <= i <= n ==> IsTail(s[i])
  }

  /** The length of the character s begins with; 0 if it begins with none. */
  function RuneSize(s: seq<Byte>): (n: nat)
    requires s != []
    ensures n <= 4 && n <= |s|
    ensures n > 0 ==> RuneStart(s[0]) && forall i :: 1 <= i < n ==> IsTail(s[i])
    ensures n == 1 <==> s[0] < 0x80
  {
    if s[0] < 0x80 then 1
    else if 0xC2 <= s[0] <= 0xDF && Tails(s, 1) then 2
    else if 0xE0 <= s[0] <= 0xEF && Tails(s, 2) && (s[0] == 0xE0 ==> s[1] >= 0xA0) &&
      (s[0] == 0xED ==> s[1] < 0xA0) then 3
    else if 0xF0 <= s[0] <= 0xF4 && Tails(s, 3) && (s[0] == 0xF0 ==> s[1] >= 0x90) &&
      (s[0] == 0xF4 ==> s[1] < 0x90) then 4
    else 0
  }

  /** The size utf8.DecodeRune reports: an invalid byte counts as one. */
  function DecodeSize(s: seq<Byte>): nat {
    if s == [] then 0 else if RuneSize(s) == 0 then 1 else RuneSize(s)
  }

  predicate Valid(s: seq<Byte>) {
    s == [] || (RuneSize(s) > 0 && Valid(s[RuneSize(s)..]))
  }

  /** i lies between two characters. */
  predicate Aligned(s: seq<Byte>, i: int) {
    0 <= i <= |s| && (i < |s| ==> RuneStart(s[i]))
  }

  /** A boundary behind the start of a text lies behind its first character. */
  lemma BehindFirst(s: seq<Byte>, i: nat)
    requires s != [] && 0 < i && Aligned(s, i)
    ensures RuneSize(s) <= i
  {
    assert i < |s| ==> RuneStart(s[i]);
  }

  /** What follows a character boundary of valid text is valid text. */
  lemma {:induction false} SuffixValid(s: seq<Byte>, i: nat)
    requires Valid(s) && Aligned(s, i)
    ensures Valid(s[i..])
    decreases |s|
  {
    if i > 0 {
      var n := RuneSize(s);
      BehindFirst(s, i);
      SuffixValid(s[n..], i - n);
      assert s[n..][i - n..] == s[i..];
    } else {
      assert s[0..] == s;
    }
  }

  lemma PrefixSize(s: seq<Byte>, n: nat)
    requires s != [] && RuneSize(s) > 0 && RuneSize(s) <= n <= |s|
    ensures RuneSize(s[..n]) == RuneSize(s)
  {}

  lemma {:induction false} SizeAt(s: seq<Byte>, start: nat)
    requires Valid(s) && start < |s| && Aligned(s, start)
    ensures var n := RuneSize(s[start..]); n > 0 && start + n <= |s| && Aligned(s, start + n)
    ensures forall i :: start < i < start + RuneSize(s[start..]) ==> IsTail(s[i])
  {
    SuffixValid(s, start);
    var rest := s[start..];
    var n := RuneSize(rest);
    forall i | start < i < start + n ensures IsTail(s[i]) { assert s[i] == rest[i - start]; }
    if start + n < |s| {
      assert Valid(rest[n..]) && rest[n..][0] == s[start + n];
    }
  }

  /** In valid text, decoding at a boundary leads to the next boundary, and never past a later one. */
  lemma {:induction false} NextBoundary(s: seq<Byte>, start: nat, limit: nat)
    requires Valid(s) && start < limit <= |s| && Aligned(s, start) && Aligned(s, limit)
    ensures var n := DecodeSize(s[start..limit]);
      && RuneSize(s[start..]) == n > 0 && start + n <= limit && Aligned(s, start + n)
      && forall i :: start < i < start + n ==> IsTail(s[i])
  {
    SizeAt(s, start);
    var rest := s[start..];
    assert start + RuneSize(rest) <= limit;
    assert s[start..limit] == rest[..limit - start];
    PrefixSize(rest, limit - start);
  }

  /** In valid text the byte after an ASCII character begins a character. */
  lemma {:induction false} AfterAscii(s: seq<Byte>, p: nat)
    requires Valid(s) && p < |s| && s[p] < 0x80
    ensures Aligned(s, p + 1)
  {
    SuffixValid(s, p);
    assert s[p..][1..] == s[p + 1..];
    if p + 1 < |s| { assert s[p + 1..][0] == s[p + 1]; }
  }

  lemma {:induction false} AsciiValid(s: seq<Byte>)
    requires Ascii(s)
    ensures Valid(s)
  {
    if s == [] {
    } else {
      AsciiValid(s[1..]);
    }
  }
}
