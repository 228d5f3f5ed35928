/**
 * The Python string operations the engine and the front ends rely on:
 * `str.join`, `str.split(sep)`, `str.split(sep, 1)`, `str.strip()`,
 * `str.lstrip(ch)` and the substring test `t in s`.
 */
module Text {
  import opened Wrappers

  /** `sep.join(parts)`. */
  function Join(parts: seq<string>, sep: string): string {
    if |parts| == 0 then ""
    else if |parts| == 1 then parts[0]
    else parts[0] + sep + Join(parts[1..], sep)
  }

  /**
   * `s.split(c, 1)` read as a partition: the text before the first `c`,
   * and the text after it when `c` occurs at all.
   */
  function SplitFirst(s: string, c: char): (r: (string, Option<string>))
    ensures c !in r.0
    ensures r.1.None? <==> c !in s
    ensures r.1.None? ==> r.0 == s
    ensures r.1.Some? ==> s == r.0 + [c] + r.1.value
  {
    if |s| == 0 then ("", None)
    else if s[0] == c then ("", Some(s[1..]))
    else
      var rest := SplitFirst(s[1..], c);
      ([s[0]] + rest.0, rest.1)
  }

  /** Splitting at a separator placed after separator-free text finds exactly that separator. */
  lemma {:induction false} SplitFirstAt(a: string, c: char, b: string)
    requires c !in a
    ensures SplitFirst(a + [c] + b, c) == (a, Some(b))
  {
    if |a| > 0 {
      assert (a + [c] + b)[1..] == a[1..] + [c] + b;
      SplitFirstAt(a[1..], c, b);
      assert a == [a[0]] + a[1..];
    } else {
      assert a + [c] + b == [c] + b;
    }
  }

  /** `s.split(c)`: always at least one piece, and no piece contains `c`. */
  function Split(s: string, c: char): (r: seq<string>)
    ensures |r| >= 1
    ensures forall i :: 0 <= i < |r| ==> c !in r[i]
    decreases |s|
  {
    var (before, after) := SplitFirst(s, c);
    if after.None? then [s] else [before] + Split(after.value, c)
  }

  /** Joining the pieces of a split with the same separator gives the text back. */
  lemma {:induction false} JoinSplit(s: string, c: char)
    ensures Join(Split(s, c), [c]) == s
    decreases |s|
  {
    var (before, after) := SplitFirst(s, c);
    if after.Some? {
      JoinSplit(after.value, c);
      var rest := Split(after.value, c);
      assert Split(s, c) == [before] + rest;
      assert ([before] + rest)[1..] == rest;
    }
  }

  /** Splitting a join of separator-free pieces gives the pieces back. */
  lemma {:induction false} SplitJoin(parts: seq<string>, c: char)
    requires |parts| >= 1
    requires forall i :: 0 <= i < |parts| ==> c !in parts[i]
    ensures Split(Join(parts, [c]), c) == parts
  {
    if |parts| > 1 {
      SplitJoin(parts[1..], c);
      SplitFirstAt(parts[0], c, Join(parts[1..], [c]));
      assert parts == [parts[0]] + parts[1..];
    }
  }

  /** A separator between two texts splits them independently. */
  lemma {:induction false} SplitConcat(a: string, c: char, b: string)
    ensures Split(a + [c] + b, c) == Split(a, c) + Split(b, c)
    decreases |a|
  {
    var (a1, a2) := SplitFirst(a, c);
    if a2.None? {
      SplitFirstAt(a, c, b);
    } else {
      var t := a2.value;
      assert a + [c] + b == a1 + [c] + (t + [c] + b);
      SplitFirstAt(a1, c, t + [c] + b);
      SplitConcat(t, c, b);
    }
  }

  /** Every piece of a split occurs in the split text. */
  lemma {:induction false} SplitPiecesOccur(s: string, c: char, p: string)
    requires p in Split(s, c)
    ensures IsSubstring(p, s)
    decreases |s|
  {
    var sf := SplitFirst(s, c);
    if sf.1.None? {
      assert p == s;
      assert OccursAt(p, s, 0);
    } else if p == sf.0 {
      assert s == p + ([c] + sf.1.value);
      assert OccursAt(p, s, 0);
    } else {
      var t := sf.1.value;
      assert p in Split(t, c);
      SplitPiecesOccur(t, c, p);
      var i :| 0 <= i <= |t| && OccursAt(p, t, i);
      OccursShift(p, t, s, |sf.0| + 1, i);
    }
  }

  /** An occurrence in a suffix is an occurrence in the whole text. */
  lemma OccursShift(p: string, t: string, s: string, off: nat, i: nat)
    requires off <= |s| && s[off..] == t && OccursAt(p, t, i)
    ensures OccursAt(p, s, off + i)
  {
    assert s[off + i..off + i + |p|] == t[i..i + |p|];
  }

  /** Python's `t in s` on strings. */
  predicate IsSubstring(t: string, s: string) {
    exists i :: 0 <= i <= |s| && OccursAt(t, s, i)
  }

  /** `t` occurs in `s` starting at index `i`. */
  predicate OccursAt(t: string, s: string, i: nat) {
    i + |t| <= |s| && s[i..i + |t|] == t
  }

  /** `s.startswith(t)`. */
  predicate StartsWith(s: string, t: string) {
    |t| <= |s| && s[..|t|] == t
  }

  /** The characters `str.strip()` removes (Unicode white space). */
  predicate IsWhitespace(ch: char) {
    || ch == ' ' || '\t' <= ch <= '\r' || '\U{1c}' <= ch <= '\U{1f}'
    || ch == '\U{85}' || ch == '\U{a0}' || ch == '\U{1680}' || '\U{2000}' <= ch <= '\U{200a}'
    || ch == '\U{2028}' || ch == '\U{2029}' || ch == '\U{202f}' || ch == '\U{205f}' || ch == '\U{3000}'
  }

  /** `s.lstrip()`: a suffix of `s` after only white space, starting with none. */
  function StripLeft(s: string): (r: string)
    ensures |r| <= |s| && r == s[|s| - |r|..]
    ensures forall k :: 0 <= k < |s| - |r| ==> IsWhitespace(s[k])
    ensures r == [] || !IsWhitespace(r[0])
  {
    if |s| > 0 && IsWhitespace(s[0]) then StripLeft(s[1..]) else s
  }

  /** `s.rstrip()`: a prefix of `s` before only white space, ending with none. */
  function StripRight(s: string): (r: string)
    ensures |r| <= |s| && r == s[..|r|]
    ensures forall k :: |r| <= k < |s| ==> IsWhitespace(s[k])
    ensures r == [] || !IsWhitespace(r[|r| - 1])
  {
    if |s| > 0 && IsWhitespace(s[|s| - 1]) then StripRight(s[..|s| - 1]) else s
  }

  /** `s.strip()`. */
  function Strip(s: string): string {
    StripRight(StripLeft(s))
  }

  /**
   * What `str.strip()` promises: the result is a contiguous part of `s`,
   * everything removed around it is white space, and it neither starts
   * nor ends with white space.
   */
  lemma StripSpec(s: string)
    ensures OccursAt(Strip(s), s, |s| - |StripLeft(s)|)
    ensures forall k :: 0 <= k < |s| - |StripLeft(s)| ==> IsWhitespace(s[k])
    ensures forall k :: |s| - |StripLeft(s)| + |Strip(s)| <= k < |s| ==> IsWhitespace(s[k])
    ensures Strip(s) == [] || (!IsWhitespace(Strip(s)[0]) && !IsWhitespace(Strip(s)[|Strip(s)| - 1]))
  {
    StripInside(s);
    StripTrailing(s);
    StripEnds(s);
  }

  lemma StripInside(s: string)
    ensures OccursAt(Strip(s), s, |s| - |StripLeft(s)|)
  {
    var l := StripLeft(s);
    var r := StripRight(l);
    assert l == s[|s| - |l|..] && r == l[..|r|];
    PrefixOccurs(s, l, r);
    assert Strip(s) == r;
  }

  /** A prefix `r` of a suffix `l` of `s` occurs in `s` where `l` starts. */
  lemma PrefixOccurs(s: string, l: string, r: string)
    requires |l| <= |s| && l == s[|s| - |l|..] && |r| <= |l| && r == l[..|r|]
    ensures OccursAt(r, s, |s| - |l|)
  {
    PrefixOfSuffix(s, |s| - |l|, l, r);
  }

  /** A prefix of a suffix is a slice. */
  lemma PrefixOfSuffix<T>(s: seq<T>, i: nat, l: seq<T>, r: seq<T>)
    requires i <= |s| && l == s[i..] && |r| <= |l| && r == l[..|r|]
    ensures i + |r| <= |s| && s[i..i + |r|] == r
  {
  }

  lemma StripTrailing(s: string)
    ensures forall k :: |s| - |StripLeft(s)| + |Strip(s)| <= k < |s| ==> IsWhitespace(s[k])
  {
    var l := StripLeft(s);
    TailOfSuffix(s, |s| - |l|, l, |StripRight(l)|, IsWhitespace);
  }

  /** What holds of the tail of a suffix holds of the tail of the whole. */
  lemma TailOfSuffix<T>(s: seq<T>, i: nat, l: seq<T>, n: nat, p: T -> bool)
    requires i <= |s| && l == s[i..] && n <= |l|
    requires forall k :: n <= k < |l| ==> p(l[k])
    ensures forall k :: i + n <= k < |s| ==> p(s[k])
  {
    forall k | i + n <= k < |s| ensures p(s[k]) {
      assert s[k] == l[k - i];
    }
  }

  lemma StripEnds(s: string)
    ensures Strip(s) == [] || (!IsWhitespace(Strip(s)[0]) && !IsWhitespace(Strip(s)[|Strip(s)| - 1]))
  {
    var l := StripLeft(s);
    var r := StripRight(l);
    if r != [] {
      assert r[0] == l[0];
    }
  }

  /** `s.lstrip(ch)`: removes every leading `ch`. */
  function StripLeading(s: string, ch: char): (r: string)
    ensures |r| <= |s| && r == s[|s| - |r|..]
    ensures forall k :: 0 <= k < |s| - |r| ==> s[k] == ch
    ensures r == [] || r[0] != ch
  {
    if |s| > 0 && s[0] == ch then StripLeading(s[1..], ch) else s
  }
}
