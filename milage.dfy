/**
  The per-cell logic of the mileage conversion (used_cars_analysis.py, lines
  31-34): delete the commas, take the first run of digits as the number of
  miles, and truncate miles x 1.60934 to whole kilometres.
 */
module Milage {
  import opened Wrappers
  import opened Text
  import opened Decimal

  predicate IsComma(c: char) {
    c == ','
  }

  /** `replace({',': ''}, regex=True)` on one cell. */
  function RemoveCommas(s: string): (r: string)
    ensures forall i :: 0 <= i < |r| ==> r[i] != ','
  {
    Delete(s, IsComma)
  }

  /** The longest run of digits at the front of `t`. */
  function LeadingDigits(t: string): (r: string)
    ensures |r| <= |t| && r == t[..|r|] && AllDigits(r)
    ensures |r| == |t| || !IsDigit(t[|r|])
    decreases |t|
  {
    if t != [] && IsDigit(t[0]) then [t[0]] + LeadingDigits(t[1..]) else []
  }

  /**
    `run` is a maximal run of digits at position `i` of `t` and no digit
    comes before it: what the greedy, leftmost `(\d+)` of `str.extract` finds.
   */
  predicate FirstRunAt(t: string, i: int, run: string) {
    && 0 <= i <= |t| - |run|
    && run != [] && AllDigits(run)
    && t[i..i + |run|] == run
    && NoDigit(t[..i])
    && (i + |run| == |t| || !IsDigit(t[i + |run|]))
  }

  /** `str.extract('(\d+)')` on one cell: `None` is the NaN of a failed match. */
  function FirstDigitRun(t: string): (r: Option<string>)
    ensures r.None? <==> NoDigit(t)
    ensures r.Some? ==> r.value != [] && AllDigits(r.value)
    decreases |t|
  {
    if t == [] then None
    else if IsDigit(t[0]) then Some(LeadingDigits(t))
    else
      var r := FirstDigitRun(t[1..]);
      assert NoDigit(t) <==> NoDigit(t[1..]) by {
        forall k | 0 <= k < |t[1..]| ensures t[1..][k] == t[k + 1] { }
      }
      r
  }

  /** Where the run that `FirstDigitRun` returns sits in `t`. */
  lemma {:induction false} FirstDigitRunFound(t: string) returns (i: nat)
    requires FirstDigitRun(t).Some?
    ensures FirstRunAt(t, i, FirstDigitRun(t).value)
    decreases |t|
  {
    if IsDigit(t[0]) {
      i := 0;
    } else {
      var j := FirstDigitRunFound(t[1..]);
      i := j + 1;
      var run := FirstDigitRun(t).value;
      assert t[1..][j..j + |run|] == t[i..i + |run|];
      assert t[..i] == [t[0]] + t[1..][..j];
    }
  }

  lemma {:induction false} LeadingDigitsOf(run: string, post: string)
    requires AllDigits(run) && (post == [] || !IsDigit(post[0]))
    ensures LeadingDigits(run + post) == run
    decreases |run|
  {
    if run == [] {
      assert run + post == post;
    } else {
      assert (run + post)[1..] == run[1..] + post;
      LeadingDigitsOf(run[1..], post);
    }
  }

  /** Any first maximal run of digits is the one `FirstDigitRun` returns. */
  lemma {:induction false} FirstDigitRunIsFirstRun(t: string, i: nat, run: string)
    requires FirstRunAt(t, i, run)
    ensures FirstDigitRun(t) == Some(run)
    decreases i
  {
    if i == 0 {
      assert t == run + t[|run|..];
      LeadingDigitsOf(run, t[|run|..]);
    } else {
      assert !IsDigit(t[..i][0]);
      assert FirstRunAt(t[1..], i - 1, run) by {
        assert t[1..][i - 1..i - 1 + |run|] == t[i..i + |run|];
        assert t[1..][..i - 1] == t[..i][1..];
      }
      FirstDigitRunIsFirstRun(t[1..], i - 1, run);
    }
  }

  /** Line 33 on one text cell: the number of miles, or `None` where `astype(int)` meets NaN. */
  function DigitRunValue(t: string): (r: Option<nat>)
    ensures r.None? <==> NoDigit(t)
  {
    match FirstDigitRun(t)
    case None => None
    case Some(run) => Some(DigitsValue(run))
  }

  lemma {:induction false} RemoveCommasKeepsDigits(s: string)
    ensures NoDigit(RemoveCommas(s)) <==> NoDigit(s)
    decreases |s|
  {
    if s != [] {
      RemoveCommasKeepsDigits(s[1..]);
      var rest := RemoveCommas(s[1..]);
      assert NoDigit(s) <==> !IsDigit(s[0]) && NoDigit(s[1..]) by {
        assert forall k :: 0 <= k < |s[1..]| ==> s[1..][k] == s[k + 1];
      }
      if !IsComma(s[0]) {
        assert RemoveCommas(s) == [s[0]] + rest;
        assert NoDigit([s[0]] + rest) <==> !IsDigit(s[0]) && NoDigit(rest) by {
          var t := [s[0]] + rest;
          assert t[0] == s[0];
          assert forall k :: 0 < k < |t| ==> t[k] == rest[k - 1];
          assert forall k :: 0 <= k < |rest| ==> t[k + 1] == rest[k];
        }
      }
    }
  }

  /**
    Lines 32-33 on one text cell: the value of the first run of digits once
    the commas are gone; `None`, where the script fails, exactly when the
    text holds no digit at all.
   */
  function ParseMiles(s: string): (r: Option<nat>)
    ensures r.None? <==> NoDigit(s)
  {
    RemoveCommasKeepsDigits(s);
    DigitRunValue(RemoveCommas(s))
  }

  /** A comma anywhere, even inside the digits, changes nothing. */
  lemma CommasIgnored(a: string, b: string)
    ensures ParseMiles(a + [','] + b) == ParseMiles(a + b)
  {
    var comma: string := [','];
    assert Delete(comma, IsComma) == [] by {
      assert comma[1..] == [];
    }
    calc {
      RemoveCommas(a + comma + b);
      { DeleteAppend(a + comma, b, IsComma); }
      Delete(a + comma, IsComma) + Delete(b, IsComma);
      { DeleteAppend(a, comma, IsComma); }
      Delete(a, IsComma) + Delete(comma, IsComma) + Delete(b, IsComma);
      Delete(a, IsComma) + Delete(b, IsComma);
      { DeleteAppend(a, b, IsComma); }
      RemoveCommas(a + b);
    }
  }

  const KmPerMileMillionths: nat := 160934
  const Scale: nat := 100000

  /**
    Line 34 on one integer: `(miles * 1.60934).astype(int)` computed without
    rounding; the cast truncates toward zero.
   */
  function KmOf(miles: int): (km: int)
    ensures miles >= 0 ==> 0 <= km && km * Scale <= miles * KmPerMileMillionths < (km + 1) * Scale
    ensures miles < 0 ==> km <= 0 && -km * Scale <= -miles * KmPerMileMillionths < (-km + 1) * Scale
  {
    if miles >= 0 then miles * KmPerMileMillionths / Scale
    else -((-miles) * KmPerMileMillionths / Scale)
  }

  /** More miles never give fewer kilometres. */
  lemma KmMonotone(a: int, b: int)
    requires a <= b
    ensures KmOf(a) <= KmOf(b)
  {
  }

  /** A mile is longer than a kilometre: the count never shrinks, and grows from two miles on. */
  lemma KmAtLeastMiles(miles: nat)
    ensures KmOf(miles) >= miles
    ensures miles >= 2 ==> KmOf(miles) > miles
  {
  }
}
