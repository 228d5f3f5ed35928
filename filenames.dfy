/**
 * The file-name sanitiser both front ends use (`sanitize_filename_base` in
 * app.py:100-104 and `sanitize_filename` in gui_app.py:63-69, which are the
 * same rule): spaces become underscores, every character outside
 * `-_.A-Za-z0-9` is dropped, and an empty result becomes "unnamed_compose".
 */
module Filenames {
  const Unnamed := "unnamed_compose"

  /** Membership in "-_.abcdefghijklmnopqrstuvwxyzABCDEFGHIJKLMNOPQRSTUVWXYZ0123456789". */
  predicate IsValidChar(c: char) {
    c == '-' || c == '_' || c == '.' || 'a' <= c <= 'z' || 'A' <= c <= 'Z' || '0' <= c <= '9'
  }

  predicate AllValid(s: string) {
    forall i :: 0 <= i < |s| ==> IsValidChar(s[i])
  }

  /** `name.replace(" ", "_")`. */
  function ReplaceSpaces(s: string): (r: string)
    ensures |r| == |s|
    ensures forall i :: 0 <= i < |s| ==> r[i] == if s[i] == ' ' then '_' else s[i]
  {
    if |s| == 0 then "" else [if s[0] == ' ' then '_' else s[0]] + ReplaceSpaces(s[1..])
  }

  /** `''.join(c for c in name if c in valid_chars)`. */
  function KeepValid(s: string): (r: string)
    ensures AllValid(r)
    ensures |r| <= |s|
  {
    if |s| == 0 then "" else (if IsValidChar(s[0]) then [s[0]] else "") + KeepValid(s[1..])
  }

  /** The sanitiser: only valid characters, never empty. */
  function Sanitize(name: string): (r: string)
    ensures AllValid(r)
    ensures r != ""
  {
    var kept := KeepValid(ReplaceSpaces(name));
    if kept != "" then kept else Unnamed
  }

  /** The filter keeps every valid character as often as it occurs and drops the rest. */
  lemma {:induction false} KeepValidCounts(s: string, c: char)
    ensures multiset(KeepValid(s))[c] == if IsValidChar(c) then multiset(s)[c] else 0
  {
    if |s| > 0 {
      KeepValidCounts(s[1..], c);
      assert s == [s[0]] + s[1..];
    }
  }

  /** The filter keeps order: filtering a concatenation filters each part. */
  lemma {:induction false} KeepValidAppend(a: string, b: string)
    ensures KeepValid(a + b) == KeepValid(a) + KeepValid(b)
  {
    if |a| > 0 {
      assert (a + b)[1..] == a[1..] + b;
      KeepValidAppend(a[1..], b);
    } else {
      assert a + b == b;
    }
  }

  /** Only spaces change, each into an underscore. */
  lemma {:induction false} ReplaceSpacesCounts(s: string, c: char)
    ensures multiset(ReplaceSpaces(s))[c] ==
      if c == '_' then multiset(s)['_'] + multiset(s)[' ']
      else if c == ' ' then 0
      else multiset(s)[c]
  {
    if |s| > 0 {
      var r := ReplaceSpaces(s);
      ReplaceSpacesCounts(s[1..], c);
      assert r[1..] == ReplaceSpaces(s[1..]);
      CountHead(r, c);
      CountHead(s, c);
      if c == '_' {
        CountHead(s, ' ');
      }
    }
  }

  /** How often `c` occurs, counted from the first character. */
  lemma CountHead(s: string, c: char)
    requires |s| > 0
    ensures multiset(s)[c] == (if s[0] == c then 1 else 0) + multiset(s[1..])[c]
  {
    assert s == [s[0]] + s[1..];
    assert multiset(s) == multiset{s[0]} + multiset(s[1..]);
  }

  /**
   * Unless the fallback name is used, the result holds each valid character
   * as often as the input does, with one more underscore per space.
   */
  lemma SanitizeCounts(name: string, c: char)
    requires KeepValid(ReplaceSpaces(name)) != ""
    ensures multiset(Sanitize(name))[c] ==
      if c == '_' then multiset(name)['_'] + multiset(name)[' ']
      else if IsValidChar(c) then multiset(name)[c]
      else 0
  {
    KeepValidCounts(ReplaceSpaces(name), c);
    ReplaceSpacesCounts(name, c);
  }

  /** The fallback is used exactly when the input holds no valid character and no space. */
  lemma {:induction false} FallbackWhenNothingKept(name: string)
    ensures KeepValid(ReplaceSpaces(name)) == "" <==> forall i :: 0 <= i < |name| ==> !IsValidChar(name[i]) && name[i] != ' '
  {
    if |name| > 0 {
      FallbackWhenNothingKept(name[1..]);
      assert ReplaceSpaces(name)[1..] == ReplaceSpaces(name[1..]);
      if forall i :: 0 <= i < |name[1..]| ==> !IsValidChar(name[1..][i]) && name[1..][i] != ' ' {
        assert forall i :: 1 <= i < |name| ==> name[i] == name[1..][i - 1];
      }
    }
  }

  /** A string of valid characters is left as it is. */
  lemma {:induction false} ValidUnchanged(s: string)
    requires AllValid(s)
    ensures ReplaceSpaces(s) == s
    ensures KeepValid(s) == s
  {
    if |s| > 0 {
      ValidUnchanged(s[1..]);
      assert s == [s[0]] + s[1..];
    }
  }

  /** Sanitising twice is sanitising once. */
  lemma SanitizeIdempotent(name: string)
    ensures Sanitize(Sanitize(name)) == Sanitize(name)
  {
    ValidUnchanged(Sanitize(name));
  }
}
