# Used-car listings: the cleaning section, verified

This project models the data-cleaning part of `used_cars_analysis.py`
(lines 18-80). That part is a fixed sequence of column transformations over
one in-memory table of car listings:

1. strip whitespace from the column names;
2. turn the `milage` text into whole kilometres;
3. delete currency symbols, whitespace and thousands separators from `price`;
4. derive `engine_hp` and `engine_liters` from the free-text `engine` column
   with two regular expressions;
5. repair `fuel_type`: placeholders become missing, then every missing entry
   is filled with the column's mode;
6. fill missing `accident` entries with `"Unknown"`.

The table is the class `Cleaning.UsedCars`. Columns that the script
reassigns (`columns`, `milage`, `price`, `engine_hp`, `engine_liters`) are
sequence fields, and one method per source line replaces each of them. Each
such method loops over the rows. The two columns the script updates with
`inplace=True` (`fuel_type`, `accident`) are arrays, written cell by cell.
Every method states the new column in terms of the old one. `Clean` runs the
steps in the script's order and stops at the first step that raises.

The logic of single cells is written as pure functions:

- `Text`: Python's whitespace class, character deletion, `str.strip()` and
  Python's `<` on strings.
- `Decimal`: digit values and `str()` of integers.
- `Milage`: comma removal, the first run of digits, and miles to kilometres.
- `Price`: the price cleanup.
- `Engine`: the two regular expressions as hand-written scanners with
  `re.search`'s leftmost, backtracking semantics.
- `Categorical`: invalidation, `fillna` and `mode()[0]`.

Lemmas beside these functions state what the source promises. For the
extractors, `None` comes back exactly when the pattern occurs nowhere;
otherwise the result is the leftmost, longest match, in both directions. The
other lemmas cover the first maximal digit run, the floor relation of the
kilometre conversion, idempotence of the cleanups, and the mode's
tie-breaking and uniqueness.

Modelling choices:

- A missing cell (pandas NaN) is `None`. Each step that raises in the script
  returns `Fail`/`Err` with a `CleaningError` instead.
- A `milage` cell is `Str` (text) or `Int`, because the script changes the
  column's type in place. `astype(str)` on an `Int` cell writes its decimal
  digits. This lets `MilageRerun` show that running the cleaning a second
  time converts kilometres again. The script has no guard against running it
  twice, and the model does not add one.
- Displacement is reported as whole tenths of a litre (`2.0` is `20`), which
  is exact where the script's `float` is not.
- The kilometre conversion is `miles * 160934 / 100000`, truncated toward
  zero as `astype(int)` does.
- Line 34 truncates the kilometres (`astype(int)`); it does not round.
- Line 33 raises when a cell holds no digit: the NaN of the failed extract
  cannot be cast to an integer, so the run stops there.
- The pattern at line 51 accepts `0HP` and `.HP` as well as `.0HP` and `HP`
  after the digits, so `12300HP` gives 1230.
- `mode()` returns its modes sorted, so `[0]` is the smallest of the tied
  values in Python's code-point order (`Text.StrLess`).
- Lines 73, 77 and 80 call `inplace=True` on a column taken from the table.
  The model follows pandas 2.x, where those calls update the table. Under
  copy-on-write they would update only a temporary copy.

## Model

| member | source | states |
|---|---|---|
| `Text.Strip` | used_cars_analysis.py:19 | the stripped name has no whitespace at either end and is a slice of the input with only whitespace cut away |
| `Text.StripExact` | used_cars_analysis.py:19 | a trimmed name surrounded by any whitespace strips to exactly that name, so interior characters are kept |
| `Text.StripIdempotent` | used_cars_analysis.py:19 | stripping twice equals stripping once |
| `Cleaning.UsedCars.StripColumnNames` | used_cars_analysis.py:19 | every column name is replaced by its stripped form; the number of columns is unchanged |
| `Decimal.ShowNat` | used_cars_analysis.py:31 | `str()` of a non-negative integer is a non-empty digit string without a leading zero whose value is the integer |
| `Decimal.ShowInt` | used_cars_analysis.py:31 | `str()` of any integer: the digits of its magnitude, after a `-` when negative |
| `Cleaning.AsText` | used_cars_analysis.py:31 | `astype(str)` keeps text cells and writes integer cells as digits with that value |
| `Cleaning.UsedCars.MilageAsText` | used_cars_analysis.py:31 | every mileage cell becomes its text |
| `Milage.RemoveCommas` | used_cars_analysis.py:32 | the result holds no comma |
| `Milage.RemoveCommasKeepsDigits` | used_cars_analysis.py:32 | removing commas neither adds nor removes digits |
| `Cleaning.UsedCars.RemoveMilageCommas` | used_cars_analysis.py:32 | text cells lose their commas, integer cells are left alone |
| `Decimal.DigitsValue` | used_cars_analysis.py:33 | the value of an n-digit run is below 10^n |
| `Milage.FirstDigitRun` | used_cars_analysis.py:33 | `None` exactly when the text holds no digit; otherwise a non-empty run of digits |
| `Milage.FirstDigitRunFound` | used_cars_analysis.py:33 | the run returned is maximal and no digit occurs before it |
| `Milage.FirstDigitRunIsFirstRun` | used_cars_analysis.py:33 | any maximal run of digits preceded by no digit is the run returned |
| `Milage.DigitRunValue` | used_cars_analysis.py:33 | the miles are missing exactly when the text holds no digit |
| `Cleaning.UsedCars.ExtractMiles` | used_cars_analysis.py:33 | succeeds exactly when every cell yields a digit run; then each cell holds its value; otherwise the error and no change |
| `Milage.ParseMiles` | used_cars_analysis.py:32-33 | parsing fails exactly when the raw text holds no digit |
| `Milage.CommasIgnored` | used_cars_analysis.py:32-33 | a comma anywhere, even between digits, does not change the parsed miles |
| `Milage.KmOf` | used_cars_analysis.py:34 | for non-negative miles, km is the floor of miles x 160934 / 100000 and is non-negative; negative miles truncate toward zero |
| `Milage.KmMonotone` | used_cars_analysis.py:34 | more miles never give fewer kilometres |
| `Milage.KmAtLeastMiles` | used_cars_analysis.py:34 | km is at least the miles, and strictly more from two miles on |
| `Cleaning.UsedCars.MilesToKm` | used_cars_analysis.py:34 | succeeds exactly when every cell is an integer; then each becomes its kilometres; otherwise the error and no change |
| `Cleaning.MilageKm` | used_cars_analysis.py:31-34 | the kilometres of one cell are missing exactly when its text holds no digit; otherwise they are KmOf of the parsed miles |
| `Cleaning.MilageSteps` | used_cars_analysis.py:31-34 | the four column steps applied to one cell compose to MilageKm, and line 34 cannot fail after line 33 succeeded |
| `Cleaning.MilageRerun` | used_cars_analysis.py:31-34 | a second run reads converted kilometres as miles and converts them again, which changes every value of two or more |
| `Cleaning.MilageExample` | used_cars_analysis.py:32-34 | digits with a thousands comma and a ` mi` suffix convert to KmOf of their value |
| `Cleaning.TenThousandMiles` | used_cars_analysis.py:31-34 | `10,000 mi` converts to 16093 km |
| `Cleaning.FiveThousandMiles` | used_cars_analysis.py:31-34 | `5,000 mi` converts to 8046 km |
| `Cleaning.NoDigitMilage` | used_cars_analysis.py:33 | `bad` has no digit, so the conversion fails |
| `Price.CleanPrice` | used_cars_analysis.py:39 | the cleaned price holds no `$`, no whitespace and no `,` |
| `Price.CleanPriceKeeps` | used_cars_analysis.py:39 | every other character survives as often as it occurs in the input |
| `Price.CleanPriceAppend` | used_cars_analysis.py:39 | cleaning works piecewise, so the surviving characters keep their order |
| `Price.CleanPriceOfClean` | used_cars_analysis.py:39 | a text without those characters is left unchanged |
| `Price.CleanPriceIdempotent` | used_cars_analysis.py:39 | cleaning twice equals cleaning once |
| `Cleaning.UsedCars.CleanPrices` | used_cars_analysis.py:39 | every price is replaced by its cleaned text |
| `Engine.HpDigitsAt` | used_cars_analysis.py:51 | at one position, the greedy digit count is the largest of 4, 3, 2 for which the pattern matches, or none matches |
| `Engine.ExtractHp` | used_cars_analysis.py:49-52 | a horsepower found is at most 9999 |
| `Engine.ExtractHpNone` | used_cars_analysis.py:49-52 | `None` exactly when no position starts 2-4 digits, optional `.`, optional `0`, `HP` |
| `Engine.ExtractHpSome` | used_cars_analysis.py:49-52 | a result is the value of the leftmost match's digits, with the most digits that allow a match there |
| `Engine.ExtractHpOfMatch` | used_cars_analysis.py:49-52 | conversely, the leftmost, longest match is the result |
| `Engine.FiveDigitExample` | used_cars_analysis.py:51 | `12300HP` gives 1230, because the optional `0` takes the fifth digit |
| `Engine.FractionExample` | used_cars_analysis.py:51 | `300.5HP` gives no horsepower |
| `Engine.TenthsAt` | used_cars_analysis.py:56-57 | a displacement `d.e` is at most 9.9 litres (99 tenths) |
| `Engine.ExtractLiters` | used_cars_analysis.py:54-57 | a displacement found is at most 99 tenths |
| `Engine.ExtractLitersNone` | used_cars_analysis.py:54-57 | `None` exactly when no position holds digit, `.`, digit, `L` |
| `Engine.ExtractLitersSome` | used_cars_analysis.py:54-57 | a result is d x 10 + e of the leftmost match |
| `Engine.ExtractLitersOfMatch` | used_cars_analysis.py:54-57 | conversely, the leftmost match is the result |
| `Engine.TurboExample` | used_cars_analysis.py:49-57 | `300.0HP 2.0L Turbo` gives 300 HP and 2.0 litres |
| `Cleaning.UsedCars.AddEngineHp` | used_cars_analysis.py:60 | `engine_hp` has one entry per row, the horsepower of that row's engine text |
| `Cleaning.UsedCars.AddEngineLiters` | used_cars_analysis.py:61 | `engine_liters` has one entry per row, the displacement of that row's engine text |
| `Categorical.Invalidate` | used_cars_analysis.py:73 | same length; no placeholder remains; a cell is missing exactly when it was missing or a placeholder; present cells are unchanged |
| `Cleaning.UsedCars.InvalidateFuelTypes` | used_cars_analysis.py:73 | the fuel-type array, updated in place, equals the invalidated column |
| `Text.StrLessTransitive` | used_cars_analysis.py:76 | Python's string order, used to sort tied modes, is transitive |
| `Text.StrLessTotal` | used_cars_analysis.py:76 | of two different strings, one is smaller |
| `Categorical.Mode` | used_cars_analysis.py:76 | no mode exactly when no cell is present; otherwise a present value that no value outnumbers and that is the smallest of the values tied with it |
| `Categorical.ModeUnique` | used_cars_analysis.py:76 | at most one value satisfies the mode condition |
| `Categorical.FillMissing` | used_cars_analysis.py:77 | same length; no cell is missing; present cells are unchanged; missing cells hold the fill value |
| `Cleaning.UsedCars.FillFuelType` | used_cars_analysis.py:76-77 | fails, without change, exactly when no valid entry exists; otherwise returns the mode and fills the missing entries with it in place |
| `Categorical.FuelTypeRepair` | used_cars_analysis.py:73-77 | after repair nothing is missing or a placeholder, valid cells are unchanged, and every other cell is the mode |
| `Cleaning.UsedCars.FillAccident` | used_cars_analysis.py:80 | missing accident entries become `Unknown` in place, present ones are kept |
| `Cleaning.UsedCars.constructor` | used_cars_analysis.py:9 | the table as loaded: text mileage cells, no derived engine columns yet |
| `Cleaning.UsedCars.Clean` | used_cars_analysis.py:19-80 | the steps in order: names always stripped; fails on mileage exactly when some cell has no digit, and then the mileage column holds the comma-free text of lines 31-32 and later columns are untouched; fails on the mode exactly when no valid fuel type remains; otherwise every column is as the steps above state |

## Left out

- Loading the CSV file (line 9) is not modelled: the constructor receives the loaded columns.
- The `print` diagnostics (lines 12-24, 36, 43, 63, 69-70, 83-84) are console output.
- The plots and the statistics behind them (lines 90-198) only read the cleaned table.
- `astype(float)` of the cleaned price (line 40) is floating-point parsing. Its failure on text that is not a number is not modelled.
- `price_inr = price * 85.10` (line 41) is floating-point arithmetic, with a fixed rate of 85.10.
- Milage.KmOf: computes the exact product, not the binary floating-point one. The two truncations agree for every realistic mileage; they could differ only where the double product `miles * 1.60934` rounds across an integer.
- `astype(int)` into 64-bit integers raises on a digit run beyond 2^63 - 1. Integers here are unbounded, so the model does not capture that error.
- Text.IsDigit: `\d` and `int()` in Python also accept non-ASCII decimal digits. The model accepts only `0`-`9`.
- Cell types are fixed per column. Fuel-type and accident cells are text or missing; engine and price cells and column names are text only. So a missing price, which line 39 would leave alone, is not modelled, nor is a missing engine text on which `re.search` raises `TypeError` (line 51), nor `mode()` on mixed, unsortable types.
- Columns are fields, not looked up by name. A `KeyError` for a column that is absent after the names are stripped is not modelled.
- The table's row index and the other columns (`brand`, `transmission`, ...) are not modelled: no cleaning step touches them.
