/**
  The categorical repairs of used_cars_analysis.py, lines 73-80, on one
  column of optional text cells: invalid fuel types become missing, missing
  cells are filled, and `Series.mode()[0]` picks the fill value.
 */
module Categorical {
  import opened Wrappers
  import opened Text

  /** A column of text cells; `None` is pandas' NaN. */
  type Column = seq<Option<string>>

  /** The two fuel-type entries that line 73 treats as missing. */
  predicate IsPlaceholder(c: Option<string>) {
    c == Some("-") || c == Some("not supported")
  }

  /** `replace(['-', 'not supported'], np.nan)`. */
  function Invalidate(col: Column): (r: Column)
    ensures |r| == |col|
    ensures forall i :: 0 <= i < |r| ==> !IsPlaceholder(r[i])
    ensures forall i :: 0 <= i < |r| ==> (r[i].None? <==> col[i].None? || IsPlaceholder(col[i]))
    ensures forall i :: 0 <= i < |r| && r[i].Some? ==> r[i] == col[i]
  {
    seq(|col|, i requires 0 <= i < |col| => if IsPlaceholder(col[i]) then None else col[i])
  }

  /** `fillna(v)`. */
  function FillMissing(col: Column, v: string): (r: Column)
    ensures |r| == |col|
    ensures forall i :: 0 <= i < |r| ==> r[i].Some?
    ensures forall i :: 0 <= i < |r| && col[i].Some? ==> r[i] == col[i]
    ensures forall i :: 0 <= i < |r| && col[i].None? ==> r[i] == Some(v)
  {
    seq(|col|, i requires 0 <= i < |col| => if col[i].Some? then col[i] else Some(v))
  }

  /**
    `m` is what `col.mode()[0]` returns: a present value that no present
    value outnumbers, and the smallest (in Python's string order) of those
    that tie with it, since `mode()` returns its modes sorted.
   */
  ghost predicate IsModeOf(col: Column, m: string) {
    && Some(m) in col
    && forall i :: 0 <= i < |col| && col[i].Some? ==>
         || multiset(col)[col[i]] < multiset(col)[Some(m)]
         || (multiset(col)[col[i]] == multiset(col)[Some(m)] && !StrLess(col[i].value, m))
  }

  /** At most one value is the mode, so the fill value is determined. */
  lemma ModeUnique(col: Column, a: string, b: string)
    requires IsModeOf(col, a) && IsModeOf(col, b)
    ensures a == b
  {
    var i :| 0 <= i < |col| && col[i] == Some(a);
    var j :| 0 <= j < |col| && col[j] == Some(b);
    if a != b {
      StrLessTotal(a, b);
    }
  }

  /**
    `col.mode()[0]`, or `None` where the column holds no present value and
    `mode()` is empty, so that indexing it raises.
   */
  method Mode(col: Column) returns (m: Option<string>)
    ensures m.None? <==> forall i :: 0 <= i < |col| ==> col[i].None?
    ensures m.Some? ==> IsModeOf(col, m.value)
  {
    m := None;
    var best := 0;
    for i := 0 to |col|
      invariant m.None? <==> forall j :: 0 <= j < i ==> col[j].None?
      invariant m.Some? ==> m in col[..i] && best == multiset(col)[m]
      invariant forall j :: 0 <= j < i && col[j].Some? ==>
                  m.Some? &&
                  (|| multiset(col)[col[j]] < best
                   || (multiset(col)[col[j]] == best && !StrLess(col[j].value, m.value)))
    {
      if col[i].Some? {
        var count := multiset(col)[col[i]];
        if m.None? || count > best || (count == best && StrLess(col[i].value, m.value)) {
          StrLessIrreflexive(col[i].value);
          forall j | 0 <= j < i && col[j].Some? && multiset(col)[col[j]] == count
            ensures !StrLess(col[j].value, col[i].value)
          {
            if StrLess(col[j].value, col[i].value) && m.Some? && count == best {
              StrLessTransitive(col[j].value, col[i].value, m.value);
            }
          }
          m, best := col[i], count;
        }
      }
    }
    assert col[..|col|] == col;
  }

  /**
    The effect of lines 73-77 on the fuel-type column, once the mode `m` of
    the invalidated column is known: nothing is missing or a placeholder
    afterwards, valid entries are untouched and every other entry is `m`.
   */
  lemma FuelTypeRepair(col: Column, m: string)
    requires IsModeOf(Invalidate(col), m)
    ensures var r := FillMissing(Invalidate(col), m);
      && |r| == |col|
      && (forall i :: 0 <= i < |r| ==> r[i].Some? && !IsPlaceholder(r[i]))
      && (forall i :: 0 <= i < |r| && col[i].Some? && !IsPlaceholder(col[i]) ==> r[i] == col[i])
      && (forall i :: 0 <= i < |r| && (col[i].None? || IsPlaceholder(col[i])) ==> r[i] == Some(m))
  {
  }
}
