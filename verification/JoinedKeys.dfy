/** Keys that are built by joining texts with a NUL: what they keep apart. */
module JoinedKeys {
  import opened Order

  /** No NUL in the text. */
  predicate Plain(s: string) { '\0' !in s }

  function NulAt(s: string): nat {
    if s == "" || s[0] == '\0' then 0 else 1 + NulAt(s[1..])
  }

  lemma {:induction false} FirstNul(a: string, b: string)
    requires Plain(a)
    ensures NulAt(a + "\0" + b) == |a|
  {
    if a == "" {
    } else {
      FirstNul(a[1..], b);
      assert (a + "\0" + b)[1..] == a[1..] + "\0" + b;
    }
  }

  /** If the first parts hold no NUL, equal keys have equal parts. */
  lemma KeysApart(a: string, b: string, c: string, d: string)
    requires Plain(a) && Plain(c) && a + "\0" + b == c + "\0" + d
    ensures a == c && b == d
  {
    FirstNul(a, b);
    FirstNul(c, d);
    var s := a + "\0" + b;
    assert s[..|a|] == a && s[..|c|] == c && s[|a| + 1..] == b && s[|c| + 1..] == d;
  }

  /** If the first parts hold no NUL, keys are ordered by the first parts, and then by the second. */
  lemma {:induction false} KeyOrder(a: string, b: string, c: string, d: string)
    requires Plain(a) && Plain(c)
    ensures StrLess(a + "\0" + b, c + "\0" + d) <==> StrLess(a, c) || (a == c && StrLess(b, d))
  {
    var s, t := a + "\0" + b, c + "\0" + d;
    if a != "" { assert s[0] == a[0] && s[1..] == a[1..] + "\0" + b; }
    if c != "" { assert t[0] == c[0] && t[1..] == c[1..] + "\0" + d; }
    if a == "" { assert s[0] == '\0' && s[1..] == b; }
    if c == "" { assert t[0] == '\0' && t[1..] == d; }
    if a != "" && c != "" {
      KeyOrder(a[1..], b, c[1..], d);
      assert a == [a[0]] + a[1..] && c == [c[0]] + c[1..];
    }
  }
}
