/**
  The engine-text extractors of used_cars_analysis.py, lines 49-57, as
  hand-written scanners with the leftmost-match semantics of `re.search`.
 */
module Engine {
  import opened Wrappers
  import opened Text
  import opened Decimal

  predicate CharAt(s: string, p: int, c: char) {
    0 <= p < |s| && s[p] == c
  }

  // ---------------------------------------------------------------------
  // extract_hp: r'(\d{2,4})\.?0?HP'
  // ---------------------------------------------------------------------

  /** `HP` at position `p`. */
  predicate HpAt(s: string, p: int) {
    CharAt(s, p, 'H') && CharAt(s, p + 1, 'P')
  }

  /** `0?HP` at `p`: with the `0` if that leads to a match, else without it. */
  predicate ZeroHpAt(s: string, p: int) {
    (CharAt(s, p, '0') && HpAt(s, p + 1)) || HpAt(s, p)
  }

  /** `\.?0?HP` at `p`. */
  predicate HpTailAt(s: string, p: int) {
    (CharAt(s, p, '.') && ZeroHpAt(s, p + 1)) || ZeroHpAt(s, p)
  }

  /** The whole pattern matches at `i` with `n` digits in the group. */
  predicate HpMatchAt(s: string, i: int, n: int) {
    2 <= n <= 4 && 0 <= i && i + n <= |s| && AllDigits(s[i..i + n]) && HpTailAt(s, i + n)
  }

  /**
    The digit count that the greedy `\d{2,4}` settles on at `i`: it tries 4,
    then 3, then 2 digits and keeps the first that lets the rest match.
   */
  function HpDigitsAt(s: string, i: nat): (r: Option<nat>)
    ensures r.Some? ==> HpMatchAt(s, i, r.value) && forall m :: r.value < m ==> !HpMatchAt(s, i, m)
    ensures r.None? ==> forall m :: !HpMatchAt(s, i, m)
  {
    if HpMatchAt(s, i, 4) then Some(4)
    else if HpMatchAt(s, i, 3) then Some(3)
    else if HpMatchAt(s, i, 2) then Some(2)
    else None
  }

  /** `re.search` from position `i` on. */
  function ScanHp(s: string, i: nat): (r: Option<nat>)
    ensures r.Some? ==> r.value < 10000
    decreases |s| - i
  {
    if i >= |s| then None
    else
      match HpDigitsAt(s, i)
      case Some(n) =>
        assert Pow10(n) <= 10000 by {
          assert Pow10(2) == 100 && Pow10(3) == 1000 && Pow10(4) == 10000;
        }
        Some(DigitsValue(s[i..i + n]))
      case None => ScanHp(s, i + 1)
  }

  /** `extract_hp`: the horsepower, or `None` where the pattern does not occur. */
  function ExtractHp(s: string): (r: Option<nat>)
    ensures r.Some? ==> r.value <= 9999
  {
    ScanHp(s, 0)
  }

  ghost predicate HasHpMatch(s: string) {
    exists i, n :: HpMatchAt(s, i, n)
  }

  /** The match `re.search` reports: leftmost start, and there the most digits. */
  ghost predicate LeftmostLongestHp(s: string, i: int, n: int) {
    && HpMatchAt(s, i, n)
    && (forall j, m :: 0 <= j < i ==> !HpMatchAt(s, j, m))
    && (forall m :: n < m ==> !HpMatchAt(s, i, m))
  }

  lemma {:induction false} ScanHpNone(s: string, k: nat)
    ensures ScanHp(s, k).None? <==> forall j, m :: k <= j ==> !HpMatchAt(s, j, m)
    decreases |s| - k
  {
    if k < |s| && HpDigitsAt(s, k).None? {
      ScanHpNone(s, k + 1);
      assert forall j, m :: k <= j && HpMatchAt(s, j, m) ==> k + 1 <= j;
    }
  }

  lemma {:induction false} ScanHpFinds(s: string, k: nat) returns (i: nat, n: nat)
    requires ScanHp(s, k).Some?
    ensures k <= i && HpMatchAt(s, i, n) && forall m :: n < m ==> !HpMatchAt(s, i, m)
    ensures forall j, m :: k <= j < i ==> !HpMatchAt(s, j, m)
    ensures ScanHp(s, k).value == DigitsValue(s[i..i + n])
    decreases |s| - k
  {
    match HpDigitsAt(s, k)
    case Some(d) =>
      i, n := k, d;
    case None =>
      i, n := ScanHpFinds(s, k + 1);
      assert forall j, m :: k <= j < i && HpMatchAt(s, j, m) ==> k + 1 <= j;
  }

  /** `extract_hp` gives `None` exactly when the pattern matches nowhere. */
  lemma ExtractHpNone(s: string)
    ensures ExtractHp(s).None? <==> !HasHpMatch(s)
  {
    ScanHpNone(s, 0);
  }

  /** A result is the digit value of the leftmost, longest match. */
  lemma ExtractHpSome(s: string) returns (i: nat, n: nat)
    requires ExtractHp(s).Some?
    ensures LeftmostLongestHp(s, i, n)
    ensures ExtractHp(s).value == DigitsValue(s[i..i + n])
  {
    i, n := ScanHpFinds(s, 0);
  }

  lemma {:induction false} ScanHpReaches(s: string, k: nat, i: nat, n: nat)
    requires k <= i && HpMatchAt(s, i, n) && forall m :: n < m ==> !HpMatchAt(s, i, m)
    requires forall j, m :: k <= j < i ==> !HpMatchAt(s, j, m)
    ensures ScanHp(s, k) == Some(DigitsValue(s[i..i + n]))
    decreases i - k
  {
    if k < i {
      assert HpDigitsAt(s, k).None?;
      ScanHpReaches(s, k + 1, i, n);
    } else {
      assert HpDigitsAt(s, k) == Some(n);
    }
  }

  /** Conversely, the leftmost, longest match is what `extract_hp` reports. */
  lemma ExtractHpOfMatch(s: string, i: nat, n: nat)
    requires LeftmostLongestHp(s, i, n)
    ensures ExtractHp(s) == Some(DigitsValue(s[i..i + n]))
  {
    ScanHpReaches(s, 0, i, n);
  }

  // ---------------------------------------------------------------------
  // extract_liters: r'(\d\.\d)L'
  // ---------------------------------------------------------------------

  /** Digit, `.`, digit, `L` at position `i`. */
  predicate LitersMatchAt(s: string, i: int) {
    0 <= i && i + 4 <= |s| && IsDigit(s[i]) && s[i + 1] == '.' && IsDigit(s[i + 2]) && s[i + 3] == 'L'
  }

  /** The group `d.e` of a match at `i`, as a whole number of tenths of a litre. */
  function TenthsAt(s: string, i: int): (t: nat)
    requires LitersMatchAt(s, i)
    ensures t <= 99
  {
    10 * DigitOf(s[i]) + DigitOf(s[i + 2])
  }

  function ScanLiters(s: string, i: nat): (r: Option<nat>)
    ensures r.Some? ==> r.value <= 99
    decreases |s| - i
  {
    if i >= |s| then None
    else if LitersMatchAt(s, i) then Some(TenthsAt(s, i))
    else ScanLiters(s, i + 1)
  }

  /**
    `extract_liters`: the displacement in tenths of a litre (`float("2.0")`
    becomes 20), or `None` where the pattern does not occur.
   */
  function ExtractLiters(s: string): (r: Option<nat>)
    ensures r.Some? ==> r.value <= 99
  {
    ScanLiters(s, 0)
  }

  lemma {:induction false} ScanLitersNone(s: string, k: nat)
    ensures ScanLiters(s, k).None? <==> forall j :: k <= j ==> !LitersMatchAt(s, j)
    decreases |s| - k
  {
    if k < |s| && !LitersMatchAt(s, k) {
      ScanLitersNone(s, k + 1);
    }
  }

  lemma {:induction false} ScanLitersFinds(s: string, k: nat) returns (i: nat)
    requires ScanLiters(s, k).Some?
    ensures k <= i && LitersMatchAt(s, i) && forall j :: k <= j < i ==> !LitersMatchAt(s, j)
    ensures ScanLiters(s, k).value == TenthsAt(s, i)
    decreases |s| - k
  {
    if LitersMatchAt(s, k) {
      i := k;
    } else {
      i := ScanLitersFinds(s, k + 1);
    }
  }

  /** `extract_liters` gives `None` exactly when the pattern matches nowhere. */
  lemma ExtractLitersNone(s: string)
    ensures ExtractLiters(s).None? <==> forall j :: !LitersMatchAt(s, j)
  {
    ScanLitersNone(s, 0);
  }

  /** A result is the value of the leftmost match. */
  lemma ExtractLitersSome(s: string) returns (i: nat)
    requires ExtractLiters(s).Some?
    ensures LitersMatchAt(s, i) && forall j :: 0 <= j < i ==> !LitersMatchAt(s, j)
    ensures ExtractLiters(s).value == TenthsAt(s, i)
  {
    i := ScanLitersFinds(s, 0);
  }

  lemma {:induction false} ScanLitersReaches(s: string, k: nat, i: nat)
    requires k <= i && LitersMatchAt(s, i) && forall j :: k <= j < i ==> !LitersMatchAt(s, j)
    ensures ScanLiters(s, k) == Some(TenthsAt(s, i))
    decreases i - k
  {
    if k < i {
      ScanLitersReaches(s, k + 1, i);
    }
  }

  /** Conversely, the leftmost match is what `extract_liters` reports. */
  lemma ExtractLitersOfMatch(s: string, i: nat)
    requires LitersMatchAt(s, i) && forall j :: 0 <= j < i ==> !LitersMatchAt(s, j)
    ensures ExtractLiters(s) == Some(TenthsAt(s, i))
  {
    ScanLitersReaches(s, 0, i);
  }

  // ---------------------------------------------------------------------
  // Worked cases
  // ---------------------------------------------------------------------

  /** The description used as an example for both extractors. */
  lemma TurboExample()
    ensures ExtractHp("300.0HP 2.0L Turbo") == Some(300)
    ensures ExtractLiters("300.0HP 2.0L Turbo") == Some(20)
  {
    var s := "300.0HP 2.0L Turbo";
    assert HpMatchAt(s, 0, 3) by {
      assert s[0..3] == "300";
      assert CharAt(s, 3, '.') && CharAt(s, 4, '0') && HpAt(s, 5);
    }
    assert !HpMatchAt(s, 0, 4) by {
      assert s[0..4][3] == '.';
    }
    assert s[0..3] == "300";
    assert DigitsValue("300") == 300 by {
      assert "300"[..2] == "30" && "30"[..1] == "3" && "3"[..0] == "";
    }
    ExtractHpOfMatch(s, 0, 3);
    assert LitersMatchAt(s, 8);
    ExtractLitersOfMatch(s, 8);
  }

  /** Backtracking lets `0?` take the fifth character: the group is `1230`. */
  lemma FiveDigitExample()
    ensures ExtractHp("12300HP") == Some(1230)
  {
    var s := "12300HP";
    assert HpMatchAt(s, 0, 4) by {
      assert s[0..4] == "1230";
      assert CharAt(s, 4, '0') && HpAt(s, 5);
    }
    assert s[0..4] == "1230";
    assert DigitsValue("1230") == 1230 by {
      assert "1230"[..3] == "123" && "123"[..2] == "12" && "12"[..1] == "1" && "1"[..0] == "";
    }
    ExtractHpOfMatch(s, 0, 4);
  }

  /** A non-zero decimal before `HP` defeats the pattern. */
  lemma FractionExample()
    ensures ExtractHp("300.5HP") == None
  {
    var s := "300.5HP";
    assert forall p :: HpAt(s, p) ==> p == 5;
    assert forall p :: HpTailAt(s, p) ==> p == 5;
    forall i, n ensures !HpMatchAt(s, i, n) {
      if 2 <= n <= 4 && 0 <= i && i + n == 5 {
        assert s[i..i + n][3 - i] == '.';
      }
    }
    ExtractHpNone(s);
  }
}
