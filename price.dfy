/**
  The price text cleanup of used_cars_analysis.py, line 39: every `$`, every
  run of whitespace and every `,` is replaced by the empty string.
 */
module Price {
  import opened Text

  /** A character that one of the three patterns `\$`, `\s+` and `,` matches. */
  predicate IsPriceJunk(c: char) {
    c == '$' || c == ',' || IsSpace(c)
  }

  /**
    The cleaned price text. Removing a whole whitespace run and removing its
    characters one by one give the same string, and the three deletions
    commute, so the order in which pandas applies them does not matter.
   */
  function CleanPrice(s: string): (r: string)
    ensures forall i :: 0 <= i < |r| ==> r[i] != '$' && r[i] != ',' && !IsSpace(r[i])
  {
    Delete(s, IsPriceJunk)
  }

  /** Every other character is kept, as often as it occurs in the input. */
  lemma CleanPriceKeeps(s: string, c: char)
    requires !IsPriceJunk(c)
    ensures multiset(CleanPrice(s))[c] == multiset(s)[c]
  {
    DeleteCounts(s, IsPriceJunk, c);
  }

  /** The kept characters stay in their original order: cleaning works piecewise. */
  lemma CleanPriceAppend(a: string, b: string)
    ensures CleanPrice(a + b) == CleanPrice(a) + CleanPrice(b)
  {
    DeleteAppend(a, b, IsPriceJunk);
  }

  /** A text that is already clean is left alone. */
  lemma CleanPriceOfClean(s: string)
    requires forall i :: 0 <= i < |s| ==> !IsPriceJunk(s[i])
    ensures CleanPrice(s) == s
  {
    DeleteNothing(s, IsPriceJunk);
  }

  lemma CleanPriceIdempotent(s: string)
    ensures CleanPrice(CleanPrice(s)) == CleanPrice(s)
  {
    DeleteIdempotent(s, IsPriceJunk);
  }
}
