/** The few string operations the endpoints use: Python's `str.strip()`,
    `str.lower()`, and `str.split(" ", 1)` / `str.split(" ")[0]`. */
module Text {
  import opened Records

  /** The characters Python's `str.isspace()` accepts, so `str.strip()`
      with no argument removes them. */
  predicate IsWhitespace(c: char)
  {
    c == ' ' || c == '\t' || c == '\n' || c == '\r' || c == '\U{000B}' || c == '\U{000C}'
    || ('\U{001C}' <= c <= '\U{001F}') || c == '\U{0085}' || c == '\U{00A0}' || c == '\U{1680}'
    || ('\U{2000}' <= c <= '\U{200A}') || c == '\U{2028}' || c == '\U{2029}' || c == '\U{202F}'
    || c == '\U{205F}' || c == '\U{3000}'
  }

  /** Number of leading whitespace characters of `s`. */
  function LeadingSpace(s: string): (n: nat)
    ensures n <= |s|
    ensures forall k :: 0 <= k < n ==> IsWhitespace(s[k])
    ensures n < |s| ==> !IsWhitespace(s[n])
  {
    if |s| > 0 && IsWhitespace(s[0]) then 1 + LeadingSpace(s[1..]) else 0
  }

  /** Length of `s` once its trailing whitespace is removed. */
  function TrailingEnd(s: string): (n: nat)
    ensures n <= |s|
    ensures forall k :: n <= k < |s| ==> IsWhitespace(s[k])
    ensures n > 0 ==> !IsWhitespace(s[n - 1])
  {
    if |s| > 0 && IsWhitespace(s[|s| - 1]) then TrailingEnd(s[..|s| - 1]) else |s|
  }

  /** `s.strip()`: `s` without its leading and trailing whitespace. */
  function Strip(s: string): (r: string)
    ensures LeadingSpace(s) + |r| <= |s|
    ensures r == s[LeadingSpace(s)..LeadingSpace(s) + |r|]
    ensures forall k :: 0 <= k < LeadingSpace(s) ==> IsWhitespace(s[k])
    ensures forall k :: LeadingSpace(s) + |r| <= k < |s| ==> IsWhitespace(s[k])
    ensures r != [] ==> !IsWhitespace(r[0]) && !IsWhitespace(r[|r| - 1])
  {
    var t := s[LeadingSpace(s)..];
    t[..TrailingEnd(t)]
  }

  /** A string made of whitespace only. */
  predicate AllWhitespace(w: string)
  {
    forall k :: 0 <= k < |w| ==> IsWhitespace(w[k])
  }

  /** Any count of leading whitespace followed by the end or a non-whitespace
      character is `LeadingSpace`. */
  lemma LeadingSpaceUnique(s: string, n: nat)
    requires n <= |s|
    requires forall k :: 0 <= k < n ==> IsWhitespace(s[k])
    requires n < |s| ==> !IsWhitespace(s[n])
    ensures LeadingSpace(s) == n
  {
  }

  /** Any end before which stands the start or a non-whitespace character,
      and after which there is only whitespace, is `TrailingEnd`. */
  lemma TrailingEndUnique(s: string, n: nat)
    requires n <= |s|
    requires forall k :: n <= k < |s| ==> IsWhitespace(s[k])
    requires n > 0 ==> !IsWhitespace(s[n - 1])
    ensures TrailingEnd(s) == n
  {
  }

  /** Whitespace put in front of a string is stripped with it. */
  lemma StripFront(w: string, a: string)
    requires AllWhitespace(w)
    ensures LeadingSpace(w + a) == |w| + LeadingSpace(a)
    ensures Strip(w + a) == Strip(a)
  {
    var s, n := w + a, |w| + LeadingSpace(a);
    assert forall k :: 0 <= k < |w| ==> s[k] == w[k];
    assert forall k :: |w| <= k < |s| ==> s[k] == a[k - |w|];
    LeadingSpaceUnique(s, n);
    assert s[n..] == a[LeadingSpace(a)..];
  }

  /** Whitespace put after a string is stripped with it. */
  lemma StripBack(a: string, w: string)
    requires AllWhitespace(w)
    ensures Strip(a + w) == Strip(a)
  {
    var s, n := a + w, LeadingSpace(a);
    assert forall k :: 0 <= k < |a| ==> s[k] == a[k];
    if n < |a| {
      LeadingSpaceUnique(s, n);
      var t := a[n..];
      assert s[n..] == t + w;
      var e := TrailingEnd(t);
      assert forall k :: 0 <= k < |t| ==> (t + w)[k] == t[k];
      assert forall k :: |t| <= k < |t + w| ==> (t + w)[k] == w[k - |t|];
      TrailingEndUnique(t + w, e);
      assert (t + w)[..e] == t[..e];
    } else {
      StripFront(a, w);
    }
  }

  /** Two strings equal once lower-cased, character by character. */
  predicate SameUpToCase(a: string, b: string)
  {
    |a| == |b| && forall k :: 0 <= k < |a| ==> LowerChar(a[k]) == LowerChar(b[k])
  }

  /** Lower-casing maps no letter onto whitespace, so characters equal up to
      case are both whitespace or neither. */
  lemma WhitespaceUpToCase(c: char, d: char)
    requires LowerChar(c) == LowerChar(d)
    ensures IsWhitespace(c) <==> IsWhitespace(d)
  {
  }

  /** Strings equal up to case strip the same way, so they are equal once
      stripped and lower-cased. */
  lemma StripUpToCase(a: string, b: string)
    requires SameUpToCase(a, b)
    ensures Lower(Strip(a)) == Lower(Strip(b))
  {
    forall k | 0 <= k < |a| ensures IsWhitespace(a[k]) <==> IsWhitespace(b[k]) {
      WhitespaceUpToCase(a[k], b[k]);
    }
    var n := LeadingSpace(a);
    LeadingSpaceUnique(b, n);
    var ta, tb := a[n..], b[n..];
    var e := TrailingEnd(ta);
    TrailingEndUnique(tb, e);
    assert Strip(a) == ta[..e] && Strip(b) == tb[..e];
    assert forall k :: 0 <= k < e ==> LowerChar(ta[k]) == LowerChar(tb[k]);
  }

  /** `c.lower()` on ASCII letters; every other character is kept. */
  function LowerChar(c: char): (d: char)
    ensures 'A' <= c <= 'Z' ==> d as int == c as int + 32 && 'a' <= d <= 'z'
    ensures !('A' <= c <= 'Z') ==> d == c
  {
    if 'A' <= c <= 'Z' then (c as int - 'A' as int + 'a' as int) as char else c
  }

  /** `s.lower()`, character by character. */
  function Lower(s: string): (r: string)
    ensures |r| == |s|
    ensures forall k :: 0 <= k < |s| ==> r[k] == LowerChar(s[k])
  {
    seq(|s|, k requires 0 <= k < |s| => LowerChar(s[k]))
  }

  /** `s.split(" ", 1)`: the part before the first space, and the part
      after it when there is a space. */
  function SplitFirstSpace(s: string): (parts: (string, Option<string>))
    ensures ' ' !in parts.0
    ensures ' ' !in s <==> parts.1.None?
    ensures ' ' !in s ==> parts.0 == s
    ensures parts.1.Some? ==> s == parts.0 + [' '] + parts.1.value
  {
    var i := IndexOf(s, ' ');
    if i == |s| then (s, None) else (s[..i], Some(s[i + 1..]))
  }

  /** `s.split(" ")[0]`: everything before the first space. */
  function FirstToken(s: string): (r: string)
    ensures ' ' !in r
    ensures |r| <= |s| && r == s[..|r|]
    ensures |r| < |s| ==> s[|r|] == ' '
  {
    SplitFirstSpace(s).0
  }
}
