/**
  The cleaning section of used_cars_analysis.py (lines 18-80) as the one
  mutable table it updates. Columns that the script reassigns are sequence
  fields that a method replaces; the two columns it updates with
  `inplace=True` are arrays written cell by cell.
 */
module Cleaning {
  import opened Wrappers
  import opened Text
  import opened Decimal
  import opened Milage
  import opened Price
  import opened Engine
  import opened Categorical

  /** A mileage cell: text as read from the file, or an integer once converted. */
  datatype Cell = Str(s: string) | Int(n: int)

  /** The exceptions that stop the script inside the cleaning section. */
  datatype CleaningError =
    | MilageNotNumeric  // line 33: `astype(int)` of the NaN left by a failed extract
    | MilageNotInteger  // line 34: a text cell multiplied by a float
    | NoFuelTypeMode    // line 76: `mode()` of a column without valid entries is empty

  /** Line 31, `astype(str)`, on one cell. */
  function AsText(c: Cell): (s: string)
    ensures c.Str? ==> s == c.s
    ensures c.Int? && c.n >= 0 ==> AllDigits(s) && DigitsValue(s) == c.n
  {
    match c
    case Str(s) => s
    case Int(n) => ShowInt(n)
  }

  /** Line 32 on one cell: a regex replacement leaves non-text cells alone. */
  function DropCommas(c: Cell): Cell {
    match c
    case Str(s) => Str(RemoveCommas(s))
    case Int(n) => Int(n)
  }

  /** Line 33 on one cell: the miles, or `None` for the NaN that `astype(int)` rejects. */
  function MilesIn(c: Cell): Option<nat> {
    match c
    case Str(s) => DigitRunValue(s)
    case Int(_) => None
  }

  /** Line 34 on one cell, or `None` where the multiplication raises. */
  function KmIn(c: Cell): Option<int> {
    match c
    case Str(_) => None
    case Int(n) => Some(KmOf(n))
  }

  /**
    Lines 31-34 on one cell: the kilometres, or `None` exactly when the
    text of the cell holds no digit and the script fails.
   */
  function MilageKm(c: Cell): (r: Option<int>)
    ensures r.None? <==> NoDigit(AsText(c))
    ensures r.Some? ==> r.value >= 0 && exists miles :: ParseMiles(AsText(c)) == Some(miles) && r.value == KmOf(miles)
  {
    match ParseMiles(AsText(c))
    case None => None
    case Some(miles) => Some(KmOf(miles))
  }

  /** The four steps compose to `MilageKm`, and line 34 cannot fail after line 33. */
  lemma MilageSteps(c: Cell)
    ensures MilesIn(DropCommas(Str(AsText(c)))).None? <==> MilageKm(c).None?
    ensures MilesIn(DropCommas(Str(AsText(c)))).Some? ==>
              KmIn(Int(MilesIn(DropCommas(Str(AsText(c)))).value)) == MilageKm(c)
  {
  }

  /**
    Running the conversion again on a converted cell does not leave it alone:
    its kilometres are read as miles and converted a second time.
   */
  lemma MilageRerun(km: nat)
    ensures MilageKm(Int(km)) == Some(KmOf(km))
    ensures km >= 2 ==> MilageKm(Int(km)) != Some(km)
  {
    var t := ShowNat(km);
    assert AsText(Int(km)) == t;
    DeleteNothing(t, IsComma);
    FirstDigitRunIsFirstRun(t, 0, t);
    KmAtLeastMiles(km);
  }

  /** `digits` followed by ` mi`, with a comma after the first `lead` digits. */
  lemma MilageExample(lead: string, rest: string, km: nat)
    requires lead != [] && AllDigits(lead + rest)
    requires KmOf(DigitsValue(lead + rest)) == km
    ensures MilageKm(Str(lead + "," + rest + " mi")) == Some(km)
  {
    var d := lead + rest;
    var t := d + " mi";
    assert lead + "," + rest + " mi" == lead + [','] + (rest + " mi");
    assert lead + (rest + " mi") == t;
    CommasIgnored(lead, rest + " mi");
    DeleteNothing(t, IsComma);
    assert t[|d|] == ' ';
    assert t[0..|d|] == d;
    FirstDigitRunIsFirstRun(t, 0, d);
  }

  /** The mileage strings used as examples for the conversion. */
  lemma TenThousandMiles()
    ensures MilageKm(Str("10,000 mi")) == Some(16093)
  {
    var d := "10000";
    assert DigitsValue(d) == 10000 by {
      assert "1"[..0] == "" && DigitsValue("1") == 1;
      assert "10"[..1] == "1" && DigitsValue("10") == 10;
      assert "100"[..2] == "10" && DigitsValue("100") == 100;
      assert "1000"[..3] == "100" && DigitsValue("1000") == 1000;
      assert d[..4] == "1000";
    }
    assert "10" + "000" == d;
    assert "10" + "," + "000" + " mi" == "10,000 mi";
    MilageExample("10", "000", 16093);
  }

  lemma FiveThousandMiles()
    ensures MilageKm(Str("5,000 mi")) == Some(8046)
  {
    var d := "5000";
    assert DigitsValue(d) == 5000 by {
      assert "5"[..0] == "" && DigitsValue("5") == 5;
      assert "50"[..1] == "5" && DigitsValue("50") == 50;
      assert "500"[..2] == "50" && DigitsValue("500") == 500;
      assert d[..3] == "500";
    }
    assert "5" + "000" == d;
    assert "5" + "," + "000" + " mi" == "5,000 mi";
    MilageExample("5", "000", 8046);
  }

  /** Text without a digit is the case in which the script stops. */
  lemma NoDigitMilage()
    ensures MilageKm(Str("bad")) == None
  {
  }

  /** The listings table. */
  class UsedCars {
    var columns: seq<string>
    var milage: seq<Cell>
    var price: seq<string>
    const engine: seq<string>
    var engineHp: seq<Option<nat>>
    var engineLiters: seq<Option<nat>>
    const fuelType: array<Option<string>>
    const accident: array<Option<string>>

    /** Every column has one cell per listing; the two in-place columns are distinct. */
    ghost predicate Valid()
      reads this
    {
      && |milage| == |engine|
      && |price| == |engine|
      && fuelType.Length == |engine|
      && accident.Length == |engine|
      && fuelType != accident
    }

    /** The table as `pd.read_csv` produces it; the derived engine columns do not exist yet. */
    constructor (names: seq<string>, milageText: seq<string>, priceText: seq<string>,
                 engineText: seq<string>, fuel: Column, accidents: Column)
      requires |milageText| == |engineText| && |priceText| == |engineText|
      requires |fuel| == |engineText| && |accidents| == |engineText|
      ensures Valid() && fresh(fuelType) && fresh(accident)
      ensures columns == names && price == priceText && engine == engineText
      ensures |milage| == |milageText| && forall k :: 0 <= k < |milage| ==> milage[k] == Str(milageText[k])
      ensures engineHp == [] && engineLiters == []
      ensures fuelType[..] == fuel && accident[..] == accidents
    {
      columns := names;
      milage := seq(|milageText|, k requires 0 <= k < |milageText| => Str(milageText[k]));
      price := priceText;
      engine := engineText;
      engineHp, engineLiters := [], [];
      fuelType := new Option<string>[|fuel|](k requires 0 <= k < |fuel| => fuel[k]);
      accident := new Option<string>[|accidents|](k requires 0 <= k < |accidents| => accidents[k]);
    }

    /** Line 19: strip leading and trailing whitespace from every column name. */
    method StripColumnNames()
      modifies this`columns
      ensures |columns| == |old(columns)|
      ensures forall k :: 0 <= k < |columns| ==> columns[k] == Strip(old(columns)[k])
    {
      var names: seq<string> := [];
      for k := 0 to |columns|
        invariant |names| == k
        invariant forall j :: 0 <= j < k ==> names[j] == Strip(columns[j])
      {
        names := names + [Strip(columns[k])];
      }
      columns := names;
    }

    /** Line 31: `astype(str)`. */
    method MilageAsText()
      requires Valid()
      modifies this`milage
      ensures Valid()
      ensures |milage| == |old(milage)|
      ensures forall k :: 0 <= k < |milage| ==> milage[k] == Str(AsText(old(milage)[k]))
    {
      var cells: seq<Cell> := [];
      for k := 0 to |milage|
        invariant |cells| == k
        invariant forall j :: 0 <= j < k ==> cells[j] == Str(AsText(milage[j]))
      {
        cells := cells + [Str(AsText(milage[k]))];
      }
      milage := cells;
    }

    /** Line 32: delete the commas. */
    method RemoveMilageCommas()
      requires Valid()
      modifies this`milage
      ensures Valid()
      ensures |milage| == |old(milage)|
      ensures forall k :: 0 <= k < |milage| ==> milage[k] == DropCommas(old(milage)[k])
    {
      var cells: seq<Cell> := [];
      for k := 0 to |milage|
        invariant |cells| == k
        invariant forall j :: 0 <= j < k ==> cells[j] == DropCommas(milage[j])
      {
        cells := cells + [DropCommas(milage[k])];
      }
      milage := cells;
    }

    /**
      Line 33: `str.extract('(\d+)').astype(int)`. One cell without a match
      makes the cast raise, and the column is not reassigned.
     */
    method ExtractMiles() returns (o: Outcome<CleaningError>)
      requires Valid()
      modifies this`milage
      ensures Valid()
      ensures o.Pass? <==> forall k :: 0 <= k < |old(milage)| ==> MilesIn(old(milage)[k]).Some?
      ensures o.Fail? ==> o.error == MilageNotNumeric && milage == old(milage)
      ensures o.Pass? ==> |milage| == |old(milage)|
      ensures o.Pass? ==> forall k :: 0 <= k < |milage| ==> milage[k] == Int(MilesIn(old(milage)[k]).value)
    {
      var cells: seq<Cell> := [];
      for k := 0 to |milage|
        invariant |cells| == k
        invariant forall j :: 0 <= j < k ==> MilesIn(milage[j]).Some? && cells[j] == Int(MilesIn(milage[j]).value)
      {
        var miles := MilesIn(milage[k]);
        if miles.None? {
          return Fail(MilageNotNumeric);
        }
        cells := cells + [Int(miles.value)];
      }
      milage := cells;
      o := Pass;
    }

    /** Line 34: miles to whole kilometres; a text cell makes the multiplication raise. */
    method MilesToKm() returns (o: Outcome<CleaningError>)
      requires Valid()
      modifies this`milage
      ensures Valid()
      ensures o.Pass? <==> forall k :: 0 <= k < |old(milage)| ==> old(milage)[k].Int?
      ensures o.Fail? ==> o.error == MilageNotInteger && milage == old(milage)
      ensures o.Pass? ==> |milage| == |old(milage)|
      ensures o.Pass? ==> forall k :: 0 <= k < |milage| ==> milage[k] == Int(KmIn(old(milage)[k]).value)
    {
      var cells: seq<Cell> := [];
      for k := 0 to |milage|
        invariant |cells| == k
        invariant forall j :: 0 <= j < k ==> milage[j].Int? && cells[j] == Int(KmIn(milage[j]).value)
      {
        var km := KmIn(milage[k]);
        if km.None? {
          return Fail(MilageNotInteger);
        }
        cells := cells + [Int(km.value)];
      }
      milage := cells;
      o := Pass;
    }

    /** Line 39: delete `$`, whitespace and `,` from every price. */
    method CleanPrices()
      requires Valid()
      modifies this`price
      ensures Valid()
      ensures |price| == |old(price)|
      ensures forall k :: 0 <= k < |price| ==> price[k] == CleanPrice(old(price)[k])
    {
      var cells: seq<string> := [];
      for k := 0 to |price|
        invariant |cells| == k
        invariant forall j :: 0 <= j < k ==> cells[j] == CleanPrice(price[j])
      {
        cells := cells + [CleanPrice(price[k])];
      }
      price := cells;
    }

    /** Line 60: `engine_hp` is `extract_hp` applied to every engine text. */
    method AddEngineHp()
      requires Valid()
      modifies this`engineHp
      ensures Valid()
      ensures |engineHp| == |engine|
      ensures forall k :: 0 <= k < |engine| ==> engineHp[k] == ExtractHp(engine[k])
    {
      var cells: seq<Option<nat>> := [];
      for k := 0 to |engine|
        invariant |cells| == k
        invariant forall j :: 0 <= j < k ==> cells[j] == ExtractHp(engine[j])
      {
        cells := cells + [ExtractHp(engine[k])];
      }
      engineHp := cells;
    }

    /** Line 61: `engine_liters` is `extract_liters` applied to every engine text. */
    method AddEngineLiters()
      requires Valid()
      modifies this`engineLiters
      ensures Valid()
      ensures |engineLiters| == |engine|
      ensures forall k :: 0 <= k < |engine| ==> engineLiters[k] == ExtractLiters(engine[k])
    {
      var cells: seq<Option<nat>> := [];
      for k := 0 to |engine|
        invariant |cells| == k
        invariant forall j :: 0 <= j < k ==> cells[j] == ExtractLiters(engine[j])
      {
        cells := cells + [ExtractLiters(engine[k])];
      }
      engineLiters := cells;
    }

    /** Line 73: `-` and `not supported` become missing, in place. */
    method InvalidateFuelTypes()
      requires Valid()
      modifies fuelType
      ensures fuelType[..] == Invalidate(old(fuelType[..]))
    {
      ghost var before := fuelType[..];
      for k := 0 to fuelType.Length
        invariant forall j :: 0 <= j < k ==> fuelType[j] == Invalidate(before)[j]
        invariant forall j :: k <= j < fuelType.Length ==> fuelType[j] == before[j]
      {
        if IsPlaceholder(fuelType[k]) {
          fuelType[k] := None;
        }
      }
    }

    /**
      Lines 76-77: `fuel_mode = mode()[0]`, then `fillna(fuel_mode)` in place.
      Without a valid entry the indexing raises and nothing changes.
     */
    method FillFuelType() returns (r: Result<string, CleaningError>)
      requires Valid()
      modifies fuelType
      ensures r.Err? <==> forall k :: 0 <= k < fuelType.Length ==> old(fuelType[k]).None?
      ensures r.Err? ==> r.error == NoFuelTypeMode && fuelType[..] == old(fuelType[..])
      ensures r.Ok? ==> IsModeOf(old(fuelType[..]), r.value)
      ensures r.Ok? ==> fuelType[..] == FillMissing(old(fuelType[..]), r.value)
    {
      var m := Mode(fuelType[..]);
      if m.None? {
        return Err(NoFuelTypeMode);
      }
      ghost var before := fuelType[..];
      for k := 0 to fuelType.Length
        invariant forall j :: 0 <= j < k ==> fuelType[j] == FillMissing(before, m.value)[j]
        invariant forall j :: k <= j < fuelType.Length ==> fuelType[j] == before[j]
      {
        if fuelType[k].None? {
          fuelType[k] := m;
        }
      }
      r := Ok(m.value);
    }

    /** Line 80: missing accident entries become `Unknown`, in place. */
    method FillAccident()
      requires Valid()
      modifies accident
      ensures accident[..] == FillMissing(old(accident[..]), "Unknown")
    {
      ghost var before := accident[..];
      for k := 0 to accident.Length
        invariant forall j :: 0 <= j < k ==> accident[j] == FillMissing(before, "Unknown")[j]
        invariant forall j :: k <= j < accident.Length ==> accident[j] == before[j]
      {
        if accident[k].None? {
          accident[k] := Some("Unknown");
        }
      }
    }

    /**
      Lines 19-80 in the script's order. The first step that raises ends
      the run and leaves the later columns as they were.
     */
    method Clean() returns (o: Outcome<CleaningError>)
      requires Valid()
      modifies this, fuelType, accident
      ensures Valid()
      ensures |columns| == |old(columns)|
      ensures forall k :: 0 <= k < |columns| ==> columns[k] == Strip(old(columns)[k])
      ensures o != Fail(MilageNotInteger)
      ensures o == Fail(MilageNotNumeric) <==> exists k :: 0 <= k < |engine| && MilageKm(old(milage)[k]).None?
      ensures o == Fail(MilageNotNumeric) ==>
                && |milage| == |old(milage)|
                && (forall k :: 0 <= k < |milage| ==> milage[k] == DropCommas(Str(AsText(old(milage)[k]))))
                && price == old(price) && engineHp == old(engineHp) && engineLiters == old(engineLiters)
                && fuelType[..] == old(fuelType[..]) && accident[..] == old(accident[..])
      ensures o == Fail(NoFuelTypeMode) <==>
                && (forall k :: 0 <= k < |engine| ==> MilageKm(old(milage)[k]).Some?)
                && (forall k :: 0 <= k < |engine| ==> Invalidate(old(fuelType[..]))[k].None?)
      ensures o == Fail(NoFuelTypeMode) ==>
                fuelType[..] == Invalidate(old(fuelType[..])) && accident[..] == old(accident[..])
      ensures o != Fail(MilageNotNumeric) ==>
                && |milage| == |engine|
                && (forall k :: 0 <= k < |engine| ==> milage[k] == Int(MilageKm(old(milage)[k]).value))
                && (forall k :: 0 <= k < |engine| ==> price[k] == CleanPrice(old(price)[k]))
                && |engineHp| == |engine| && |engineLiters| == |engine|
                && (forall k :: 0 <= k < |engine| ==> engineHp[k] == ExtractHp(engine[k]))
                && (forall k :: 0 <= k < |engine| ==> engineLiters[k] == ExtractLiters(engine[k]))
      ensures o.Pass? ==> exists m ::
                && IsModeOf(Invalidate(old(fuelType[..])), m)
                && fuelType[..] == FillMissing(Invalidate(old(fuelType[..])), m)
      ensures o.Pass? ==> accident[..] == FillMissing(old(accident[..]), "Unknown")
    {
      ghost var cells := milage;
      StripColumnNames();
      MilageAsText();
      RemoveMilageCommas();
      forall k | 0 <= k < |cells| ensures MilesIn(milage[k]).None? <==> MilageKm(cells[k]).None? {
        MilageSteps(cells[k]);
      }
      o := ExtractMiles();
      if o.Fail? {
        return;
      }
      o := MilesToKm();
      assert o.Pass?;
      forall k | 0 <= k < |cells| ensures milage[k] == Int(MilageKm(cells[k]).value) {
        MilageSteps(cells[k]);
      }
      CleanPrices();
      AddEngineHp();
      AddEngineLiters();
      InvalidateFuelTypes();
      var mode := FillFuelType();
      if mode.Err? {
        return Fail(NoFuelTypeMode);
      }
      FillAccident();
    }
  }
}
