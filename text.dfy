/**
  Character classes and the string operations of the cleaning script:
  character deletion (what `Series.replace(..., regex=True)` does with a
  pattern replaced by the empty string), `str.strip()`, and Python's
  ordering of strings (used by `Series.mode()` to sort tied modes).
 */
module Text {

  /** `\d`, restricted to the ASCII digits. */
  predicate IsDigit(c: char) {
    '0' <= c <= '9'
  }

  function DigitOf(c: char): (d: nat)
    requires IsDigit(c)
    ensures d < 10
  {
    (c as int) - ('0' as int)
  }

  predicate AllDigits(s: string) {
    forall i :: 0 <= i < |s| ==> IsDigit(s[i])
  }

  predicate NoDigit(s: string) {
    forall i :: 0 <= i < |s| ==> !IsDigit(s[i])
  }

  /**
    Python's `str.isspace()`; a `\s` in a str pattern matches the same
    characters, so `str.strip()` and the `\s+` of the price cleanup agree.
   */
  predicate IsSpace(c: char) {
    || ('\t' <= c <= '\r')
    || ('\U{1C}' <= c <= ' ')
    || c == '\U{85}' || c == '\U{A0}' || c == '\U{1680}'
    || ('\U{2000}' <= c <= '\U{200A}')
    || c == '\U{2028}' || c == '\U{2029}' || c == '\U{202F}'
    || c == '\U{205F}' || c == '\U{3000}'
  }

  predicate AllSpace(s: string) {
    forall i :: 0 <= i < |s| ==> IsSpace(s[i])
  }

  // ---------------------------------------------------------------------
  // Deleting every character of a class
  // ---------------------------------------------------------------------

  /** `s` with every character that `doomed` selects removed. */
  function Delete(s: string, doomed: char -> bool): (r: string)
    ensures |r| <= |s|
    ensures forall i :: 0 <= i < |r| ==> !doomed(r[i])
    decreases |s|
  {
    if s == [] then []
    else
      var rest := Delete(s[1..], doomed);
      if doomed(s[0]) then rest else [s[0]] + rest
  }

  /** Every character that is not deleted survives as often as it occurs. */
  lemma {:induction false} DeleteCounts(s: string, doomed: char -> bool, c: char)
    ensures multiset(Delete(s, doomed))[c] == if doomed(c) then 0 else multiset(s)[c]
    decreases |s|
  {
    if s != [] {
      assert s == [s[0]] + s[1..];
      DeleteCounts(s[1..], doomed, c);
    }
  }

  /** Deletion works piecewise, so the surviving characters keep their order. */
  lemma {:induction false} DeleteAppend(a: string, b: string, doomed: char -> bool)
    ensures Delete(a + b, doomed) == Delete(a, doomed) + Delete(b, doomed)
    decreases |a|
  {
    if a == [] {
      assert a + b == b;
    } else {
      assert (a + b)[1..] == a[1..] + b;
      DeleteAppend(a[1..], b, doomed);
    }
  }

  /** A string with nothing to delete is left as it is. */
  lemma {:induction false} DeleteNothing(s: string, doomed: char -> bool)
    requires forall i :: 0 <= i < |s| ==> !doomed(s[i])
    ensures Delete(s, doomed) == s
    decreases |s|
  {
    if s != [] {
      DeleteNothing(s[1..], doomed);
    }
  }

  lemma {:induction false} DeleteIdempotent(s: string, doomed: char -> bool)
    ensures Delete(Delete(s, doomed), doomed) == Delete(s, doomed)
  {
    DeleteNothing(Delete(s, doomed), doomed);
  }

  // ---------------------------------------------------------------------
  // str.strip()
  // ---------------------------------------------------------------------

  /** No whitespace at either end. */
  predicate Trimmed(s: string) {
    s == [] || (!IsSpace(s[0]) && !IsSpace(s[|s| - 1]))
  }

  /** Every character of `s` outside positions `i` to `j` is whitespace. */
  predicate SpaceOutside(s: string, i: int, j: int) {
    forall k :: 0 <= k < |s| && (k < i || j <= k) ==> IsSpace(s[k])
  }

  /** The first position at or after `i` that does not hold whitespace, or `|s|`. */
  function LeadingEnd(s: string, i: nat): (n: nat)
    requires i <= |s|
    ensures i <= n <= |s|
    ensures forall k :: i <= k < n ==> IsSpace(s[k])
    ensures n == |s| || !IsSpace(s[n])
    decreases |s| - i
  {
    if i < |s| && IsSpace(s[i]) then LeadingEnd(s, i + 1) else i
  }

  /** Walking down from `j` but not below `lo`, the end of the text before trailing whitespace. */
  function TrailingStart(s: string, lo: nat, j: nat): (n: nat)
    requires lo <= j <= |s|
    ensures lo <= n <= j
    ensures forall k :: n <= k < j ==> IsSpace(s[k])
    ensures n == lo || !IsSpace(s[n - 1])
    decreases j
  {
    if j > lo && IsSpace(s[j - 1]) then TrailingStart(s, lo, j - 1) else j
  }

  /** `r` sits at position `i` of `s` with only whitespace around it. */
  predicate PaddedAt(s: string, i: int, r: string) {
    0 <= i <= |s| - |r| && s[i..i + |r|] == r && SpaceOutside(s, i, i + |r|)
  }

  /** `str.strip()`: the slice that remains once both whitespace ends are cut off. */
  function Strip(s: string): (r: string)
    ensures Trimmed(r)
    ensures exists i :: PaddedAt(s, i, r)
  {
    var i := LeadingEnd(s, 0);
    var j := TrailingStart(s, i, |s|);
    assert PaddedAt(s, i, s[i..j]);
    s[i..j]
  }

  lemma {:induction false} LeadingEndOver(a: string, m: string, b: string, i: nat)
    requires AllSpace(a) && m != [] && !IsSpace(m[0]) && i <= |a|
    ensures LeadingEnd(a + m + b, i) == |a|
    decreases |a| - i
  {
    var t := a + m + b;
    assert t[|a|] == m[0];
    if i < |a| {
      assert t[i] == a[i];
      LeadingEndOver(a, m, b, i + 1);
    }
  }

  lemma {:induction false} TrailingStartOver(a: string, m: string, b: string, j: nat)
    requires AllSpace(b) && m != [] && !IsSpace(m[|m| - 1]) && |a| + |m| <= j <= |a| + |m| + |b|
    ensures TrailingStart(a + m + b, |a|, j) == |a| + |m|
    decreases j
  {
    var t := a + m + b;
    assert t[|a| + |m| - 1] == m[|m| - 1];
    if j > |a| + |m| {
      assert t[j - 1] == b[j - 1 - |a| - |m|];
      TrailingStartOver(a, m, b, j - 1);
    }
  }

  /**
    Whatever whitespace surrounds a trimmed string, `Strip` returns exactly
    that string: with the ensures of `Strip` this pins its result down.
   */
  lemma {:induction false} StripExact(a: string, m: string, b: string)
    requires AllSpace(a) && AllSpace(b) && Trimmed(m)
    ensures Strip(a + m + b) == m
  {
    var t := a + m + b;
    if m == [] {
      assert AllSpace(t) by {
        forall k | 0 <= k < |t| ensures IsSpace(t[k]) {
          if k < |a| { assert t[k] == a[k]; } else { assert t[k] == b[k - |a|]; }
        }
      }
    } else {
      LeadingEndOver(a, m, b, 0);
      TrailingStartOver(a, m, b, |t|);
      assert t[|a|..|a| + |m|] == m;
    }
  }

  lemma StripIdempotent(s: string)
    ensures Strip(Strip(s)) == Strip(s)
  {
  }

  // ---------------------------------------------------------------------
  // Python's `<` on str
  // ---------------------------------------------------------------------

  /** Lexicographic by code point; a proper prefix comes first. */
  predicate StrLess(a: string, b: string)
    decreases |a|
  {
    if a == [] then b != []
    else if b == [] then false
    else if a[0] != b[0] then a[0] < b[0]
    else StrLess(a[1..], b[1..])
  }

  lemma {:induction false} StrLessIrreflexive(a: string)
    ensures !StrLess(a, a)
    decreases |a|
  {
    if a != [] {
      StrLessIrreflexive(a[1..]);
    }
  }

  lemma {:induction false} StrLessTransitive(a: string, b: string, c: string)
    requires StrLess(a, b) && StrLess(b, c)
    ensures StrLess(a, c)
    decreases |a|
  {
    if a != [] && a[0] == b[0] && b[0] == c[0] {
      StrLessTransitive(a[1..], b[1..], c[1..]);
    }
  }

  lemma {:induction false} StrLessTotal(a: string, b: string)
    requires a != b
    ensures StrLess(a, b) || StrLess(b, a)
    decreases |a|
  {
    if a != [] && b != [] && a[0] == b[0] {
      assert a == [a[0]] + a[1..] && b == [b[0]] + b[1..];
      StrLessTotal(a[1..], b[1..]);
    }
  }
}
