# Beverage cost spreadsheet: the calculation and migration engine

The beverage cost spreadsheet is a browser page for a bar. Each row is one bottle:
- the item;
- the bottle size (750 ml or 1 L);
- the bottle cost;
- the pour size in ounces;
- the menu price.

From these the page derives the cost of one pour, the pour cost as a percentage of the menu price, and, from the third release on, a suggested menu price. The suggested price hits a target pour-cost percentage and is rounded to a price increment. Rows are stored per location as a JSON array. Stored collections in the older item / unit cost / quantity / total schema are migrated when they are loaded.

The repository has four successive releases of the engine: `app.js`, `app-v2.js`, `app-v3.js` and `app-v3.1.js`. This project models the engine of each one and proves properties of the model:

- `JsNumbers` (`js_numbers.dfy`): the parts of JavaScript the engine relies on, written over exact reals. This covers:
  - `parseFloat`, `Number()` on text, and `parseInt` of a digit string;
  - `toFixed` (nearest, ties away from zero, numbers of 1e21 and more left as they are);
  - `Math.round` (ties toward +∞);
  - the decimal text of a counter.
- `SheetRows` (`sheet_rows.dfy`): the shared pieces:
  - rows as maps from field name to JSON value; a missing field reads as `null`;
  - the `?? 0` / `parseFloat` / `|| 0` coercions;
  - the ounce-to-millilitre factor;
  - grid changes;
  - the row storage key.
- `BottleSize` (`bottle_size.dfy`): `normalizeBottleMl`, in the rule of `app-v2.js` and later and in the older rule of `app.js`.
- `CostEngine` (`cost_engine.dfy`): the engine of `app-v3.js` and `app-v3.1.js`. The two files hold the same text for these functions. It covers:
  - the settings readers and `roundToIncrement`;
  - `calcRow` and `recalcAll`;
  - `migrateIfNeeded`, and loading and saving as pure functions of the parsed JSON;
  - the example rows;
  - the `afterChange` loop, as a method over an array of rows, with a needs-reload flag.
- `LocationColumns` (`location_columns.dfy`): the per-location extra columns of `app-v3.1.js`:
  - `buildColumnsAndHeaders` as a loop;
  - the metadata object as a class;
  - the data part of `addColumn` as a method that updates the metadata and the row array in place;
  - the metadata storage key.
- `LegacyEngine` (`legacy_engine.dfy`): the engines of `app.js` (release `M1`) and `app-v2.js` (release `V2`). Each has:
  - a two-figure `calcRow` with an early return;
  - its own `recalcAll`;
  - in `app-v2.js`, the quantity/total migration that fills in the figures up front;
  - the `afterChange` loop, which reloads after every batch.

The settings inputs, browser storage and the grid library are not modelled. The two settings and the parsed stored value are passed in as parameters. The reload after an edit is the method's returned flag.

Where comments and code disagree, the model follows the code:

- **The "1 L" label gives 750 ml.** The bottle-size dropdown offers the labels "750 ml" and "1 L" (app-v3.1.js:19-22). The comment at app.js:58 says "1 L" is accepted. The normaliser, however, keeps only the digits of a label, and "1" is not 1000. So choosing "1 L" stores a 750 ml bottle in every release (`BottleSize.OneLitreLabelIs750`). Typed sizes such as "1000" and "1,000 ml" do give 1000 ml (`BottleSize.ThousandLabels`).
- **One current row stops migration.** The current schema is detected with `some`: a single row with a pour, a price or a suggested price keeps the whole collection unconverted (`CostEngine.MixedCollectionNotMigrated`). Rows in the old schema inside such a collection keep their quantity and total and show zero figures.
- **A higher price does not always lower the percentage.** After the one-decimal rounding, from a positive menu price and with a non-negative bottle cost, the pour cost percentage does not increase as the price rises, but it need not strictly fall: prices 9 and 9.01 both give 9.7 % (`CostEngine.PourCostPctNotStrictlyDecreasing`).

## Model

| member | source | states |
|---|---|---|
| JsNumbers.ParseIntDigits | app-v3.1.js:91-92 | `parseInt(digits, 10)` is NaN (None) exactly when no digit is left; digits without a leading zero read as the number whose decimal text they are |
| JsNumbers.NatToStringOfDigits | app-v3.1.js:91-92 | digits without a leading zero are the decimal text of the number they denote |
| JsNumbers.ParseIntNatToString | app-v3.1.js:91-92 | `parseInt` reads the decimal text of a counter back as the counter |
| JsNumbers.KeepDigits | app-v3.1.js:91 | `replace(/\D/g, "")` leaves only digits and never lengthens the text |
| JsNumbers.KeepDigitsOfDigits | app-v3.1.js:91 | a text of digits only is left as it is |
| JsNumbers.KeepDigitsAppend | app-v3.1.js:91 | stripping non-digits distributes over concatenation |
| JsNumbers.KeepDigitsOfNonDigits | app-v3.1.js:91 | text without a digit strips to the empty text, so with the two lemmas above `replace(/\D/g, "")` is pinned down |
| JsNumbers.TrimStart | app-v3.1.js:159 | what `Number()` skips at the start is exactly the leading white space |
| JsNumbers.TrimEnd | app-v3.1.js:159 | what `Number()` ignores at the end is exactly the trailing white space |
| JsNumbers.ScanDecimalLongest | app-v3.1.js:111-113 | the scan spans exactly the longest prefix that is a StrDecimalLiteral (signed or unsigned), and finds nothing exactly when no prefix is one |
| JsNumbers.ParseFloatTrim | app-v3.1.js:111-113 | `parseFloat` is the signed scan of the text after its leading white space |
| JsNumbers.ParseFloatLongest | app-v3.1.js:111-113 | `parseFloat` is NaN exactly when no prefix of the trimmed text is a StrDecimalLiteral; otherwise it is the value of the longest such prefix |
| JsNumbers.ParseFloatSkipsWhiteSpace | app-v3.1.js:111-113 | leading white space does not change what `parseFloat` reads |
| JsNumbers.LeadingDigitsPrefix | app-v3.1.js:111-113 | the digit run at the start of digits followed by a non-digit is exactly those digits |
| JsNumbers.ScanInteger | app-v3.1.js:111-113 | an integer followed by text that neither starts with a digit or a dot nor begins an exponent scans as that integer, spanning its digits |
| JsNumbers.ParseFloatLeadingInteger | app-v3.1.js:111-113 | `parseFloat` of an integer followed by such text (as in "12 oz") is the integer; the rest is ignored |
| JsNumbers.ParseFloatNatToString | app-v3.1.js:111-113 | `parseFloat` reads the decimal text of a counter back as the counter |
| JsNumbers.ParseFloatDecimal | app-v3.1.js:97-101 | `parseFloat` of digits, a dot and digits ("11.5", ".25"), followed by text that neither starts with a digit nor begins an exponent, is all the digits' numeral divided by 10 to the number of fraction digits |
| JsNumbers.NonDecimalInteger | app-v3.1.js:159 | a `0b`/`0o`/`0x` literal is at least three characters long and starts with 0 |
| JsNumbers.NonDecimalParseFloat | app-v3.1.js:111-159 | on a `0x`/`0o`/`0b` literal `parseFloat` reads only the leading 0, while `Number` reads the whole literal |
| JsNumbers.StringToNumber | app-v3.1.js:159 | `Number(text)` of empty or white-space text is 0 |
| JsNumbers.StringToNumberLiteral | app-v3.1.js:159 | `Number(text)` is a number exactly when the trimmed text is empty, a non-decimal integer, or as a whole one StrDecimalLiteral; the value is then that literal's value |
| JsNumbers.NumberRejectsTrailingText | app-v3.1.js:111-159 | on digits followed by text that ends in no white space and starts with none of a digit, `.`, `e`, `E`, `b`, `o`, `x` (as in "12 oz"), `parseFloat` gives the digits' number and `Number` gives NaN |
| JsNumbers.MathRound | app-v3.1.js:106 | `Math.round`: the integer within one half of x, with ties going up |
| JsNumbers.ToFixed | app-v3.1.js:132-134 | `toFixed` keeps the sign: non-negative input gives non-negative output |
| JsNumbers.ToFixedNearest | app-v3.1.js:132-134 | `toFixed(f)` is within half a unit of the f-th decimal of x; below 1e21 it is a whole number of such units and a tie goes away from zero; from 1e21 on it is x itself |
| JsNumbers.ToFixedMonotone | app-v3.1.js:133 | `toFixed` never reverses the order of two numbers |
| JsNumbers.Round2 | app-v3.1.js:132-134 | `Number(x.toFixed(2))` is within half a cent of x, a whole number of cents below 1e21, and never above the rounding of a larger amount |
| JsNumbers.Round1 | app-v3.1.js:133 | `Number(x.toFixed(1))` is within 0.05 of x, a whole number of tenths below 1e21, and never above the rounding of a larger amount |
| JsNumbers.NatToString | app-v3.1.js:83-84 | the decimal text of a counter is non-empty, all digits, one character exactly below 10, and reads back as the counter |
| SheetRows.GetUpdate | app-v3.1.js:110-113 | writing a field changes what that field reads and nothing else; a missing field reads as null |
| SheetRows.CoerceNumber | app-v3.1.js:111-113 | `parseFloat(v ?? 0) \|\| 0`: numbers kept; text gives what `parseFloat` reads from it, or 0 when it reads nothing; null and booleans give 0 |
| SheetRows.NumberValue | app-v3.1.js:159 | `Number(v ?? 0)`: numbers kept, null gives 0, booleans give 1/0, text gives a number exactly when `Number` reads one and then that number, otherwise NaN, which every reader takes as 0 |
| SheetRows.LeadingNumberText | app-v3.1.js:111-159 | digits followed by such text (as in "12 oz") read as the digits' number through `parseFloat` (calcRow) but as NaN through `Number` (migration) |
| SheetRows.BlankTextIsZero | app-v3.1.js:161 | the blank price a migrated row gets reads as price 0 |
| SheetRows.PourMl | app-v3.1.js:115 | pour in ml is positive exactly when the pour in oz is, and zero exactly when it is |
| SheetRows.StorageKey | app-v3.1.js:165-167 | the key is the base prefix followed by the location id |
| SheetRows.StorageKeyInjective | app-v3.1.js:165-167 | two locations never share a data key |
| BottleSize.LabelMl | app-v3.1.js:91-93 | a label gives 750 or 1000, and 1000 exactly when its digits read as 1000 |
| BottleSize.NormalizeBottleMl | app-v3.1.js:89-94 | always 750 or 1000; a number gives 1000 iff it is 1000; a text gives 1000 iff its digits read as 1000; booleans and null give 750 |
| BottleSize.NormalizeBottleMlM1 | app.js:57-63 | numbers pass through unchanged (0 and negatives included); anything else follows the later rule |
| BottleSize.NormalizeIdempotent | app-v2.js:55-60 | normalising an already normalised size changes nothing, in both rules |
| BottleSize.LabelDigitsDecide | app-v3.1.js:91-93 | any label whose digits are "1000" is a litre bottle |
| BottleSize.OneLitreLabelIs750 | app.js:58-62 | the dropdown label "1 L" normalises to 750 in both rules, although the comment says it is accepted |
| BottleSize.SevenFiftyLabel | app-v3.1.js:19-22 | the label "750 ml" normalises to 750 |
| BottleSize.ThousandLabels | app.js:58-62 | "1000" and "1,000 ml" normalise to 1000 |
| BottleSize.PlainThousandLabel | app-v3.1.js:89-94 | the typed size "1000" normalises to 1000 |
| BottleSize.GroupedThousandLabel | app-v3.1.js:89-94 | the typed size "1,000 ml" normalises to 1000 |
| BottleSize.GroupedThousandDigits | app-v3.1.js:91 | the digits of "1,000 ml" are "1000" |
| BottleSize.SevenFiftyDigits | app-v3.1.js:91 | the digits of "750 ml" are "750" |
| CostEngine.TargetPct | app-v3.1.js:96-99 | the target is always positive: the parsed input when it is a positive number; 11.5 when it parses to zero or less, when it does not parse, and when the input is missing (its fallback text "11.5" parses to 11.5) |
| CostEngine.Rounding | app-v3.1.js:100-103 | the increment is the parsed input (zero and negatives included); 0.25 when it does not parse and when the input is missing (its fallback text "0.25" parses to 0.25) |
| CostEngine.DefaultSettings | app-v3.js:71-79 | with no input, or with blank input, the settings are 11.5 % and 0.25 |
| CostEngine.RoundingWhole | app-v3.1.js:100-103 | an increment typed as a whole number reads as that number |
| CostEngine.RoundingDecimal | app-v3.1.js:100-103 | an increment typed as digits, a dot and digits ("0.05", ".5") reads as that decimal when the text after it does not start with a digit and does not begin an exponent (so "0.05each" reads as 0.05) |
| CostEngine.RoundingBlank | app-v3.1.js:100-103 | an increment input holding only white space gives 0.25 |
| CostEngine.TargetPctWhole | app-v3.1.js:96-99 | a target typed as a whole number is that number, except that 0 gives 11.5 |
| CostEngine.TargetPctBlank | app-v3.1.js:96-99 | a target input holding only white space gives 11.5 |
| CostEngine.RoundToIncrement | app-v3.1.js:104-107 | increment ≤ 0 returns the amount; otherwise a whole multiple of the increment within half an increment of the amount; non-negative amounts stay non-negative |
| CostEngine.BottleMlOf | app-v3.1.js:110 | the calculator's bottle size is 750 or 1000, so its positive-bottle guard always holds |
| CostEngine.Figures | app-v3.1.js:115-129 | unrounded figures: all zero without a pour; no percentage without a price; no suggestion without a target |
| CostEngine.Rounded | app-v3.1.js:131-135 | rounding keeps zero figures zero |
| CostEngine.CalcRow | app-v3.1.js:109-136 | pour ≤ 0 gives three zeros; price ≤ 0 gives percentage 0; target ≤ 0 gives suggestion 0 |
| CostEngine.CalcRowUnrounded | app-v3.1.js:118-135 | with a pour: cost = Round2(exact cost); percentage = Round1(exact cost / price · 100), from the unrounded cost; suggestion = Round2(RoundToIncrement(target price)), or Round2(target price) when the increment is 0 |
| CostEngine.CostPerPourNearestCent | app-v3.1.js:119-132 | the stored cost per pour is within half a cent of the exact cost, and a whole number of cents |
| CostEngine.PourCostPctFromExactCost | app-v3.1.js:120-133 | the stored percentage is within 0.05 of the exact cost's share of the price |
| CostEngine.TargetPriceMeetsTarget | app-v3.1.js:125 | the raw suggested price puts the pour cost exactly at the target percentage |
| CostEngine.SuggestedPriceWithoutIncrement | app-v3.1.js:125-134 | with no positive increment, the suggestion is the target price to the nearest cent |
| CostEngine.Round2KeepsCents | app-v3.1.js:134 | a whole number of cents survives `toFixed(2)` unchanged |
| CostEngine.SuggestedPriceOnIncrement | app-v3.1.js:104-128 | with a whole-cent positive increment, the suggestion is a multiple of it within half an increment of the target price |
| CostEngine.IncrementKeepsCents | app-v3.1.js:134 | a multiple of a whole-cent increment is not moved by `toFixed(2)` |
| CostEngine.DerivedNonNegative | app-v3.1.js:109-136 | a non-negative bottle cost gives three non-negative figures |
| CostEngine.CostNonNegative | app-v3.1.js:119-132 | with a pour, a non-negative bottle cost gives a non-negative cost per pour |
| CostEngine.PctNonNegative | app-v3.1.js:120-133 | with a pour, a non-negative bottle cost gives a non-negative percentage |
| CostEngine.SuggestedNonNegative | app-v3.1.js:123-134 | with a pour, a non-negative bottle cost gives a non-negative suggestion |
| CostEngine.ExactCostNonNegative | app-v3.1.js:119 | the exact cost of a pour of a non-negative bottle cost is non-negative |
| CostEngine.WithPrice | app-v3.1.js:41 | a row with only its menu price changed |
| CostEngine.PourCostPctNonIncreasing | app-v3.1.js:120-133 | from a positive menu price, with a non-negative bottle cost, raising the price never raises the stored percentage (a price of 0 shows 0 %, so the first price typed can raise it) |
| CostEngine.SameCostInputs | app-v3.1.js:110-119 | rows that agree on bottle size, bottle cost and pour have the same pour, bottle cost and exact cost |
| CostEngine.PriceLeavesCost | app-v3.1.js:111-119 | changing the price changes neither the pour, the bottle cost nor the exact cost |
| CostEngine.ShareFalls | app-v3.1.js:121-133 | the rounded share of a fixed non-negative cost falls or stays as a positive price rises |
| CostEngine.SampleCalc | app-v3.1.js:109-136 | a row written with number literals is priced from exactly those numbers and its normalised bottle |
| CostEngine.VodkaPct | app-v3.1.js:121-133 | at any price where the vodka row's exact share is below 99.95 % (prices above about 0.873), its percentage is the tenth of a percent nearest that share |
| CostEngine.PourCostPctNotStrictlyDecreasing | app-v3.1.js:133 | prices 9 and 9.01 both show 9.7 % |
| CostEngine.WithDerived | app-v3.1.js:141-147 | the row with the three figures set: keys added, other fields unchanged |
| CostEngine.CalcRowReadsInputs | app-v3.1.js:110-113 | the figures depend only on the normalised bottle size, the bottle cost, the pour and the price |
| CostEngine.ConsistentReadsFields | app-v3.1.js:109-147 | whether a row's stored figures match its inputs depends only on the four inputs and the three figures |
| CostEngine.WithDerivedConsistent | app-v3.1.js:140-147 | writing a row's own figures into it makes it consistent, since the figures are not inputs |
| CostEngine.RecalcRow | app-v3.1.js:139-147 | keys are the row's plus bottle size and figures; every other field is kept verbatim; the bottle size is normalised; the figures match the row; the figures are those of the original row |
| CostEngine.RecalcAll | app-v3.1.js:138-149 | same length and order, each row recalculated |
| CostEngine.RecalcAllConsistent | app-v3.1.js:138-149 | every recalculated row is consistent, has a canonical bottle, and keeps the presence and value of all other fields |
| CostEngine.RecalcRowFixed | app-v3.1.js:139-147 | recalculation leaves a row unchanged iff it already has a bottle size and all three figures, its figures match, and its bottle size is canonical |
| CostEngine.RecalcRowIdempotent | app-v3.1.js:139-147 | recalculating a recalculated row changes nothing |
| CostEngine.RecalcAllIdempotent | app-v3.1.js:138-149 | `recalcAll` twice with the same settings equals `recalcAll` once |
| CostEngine.NewFieldByPresence | app-v3.1.js:154 | a row counts as current exactly when it has a pour, a price or a suggested price field, whatever it holds (null included); adding one makes it current; a row without one reads all three as null |
| CostEngine.MigrateRow | app-v3.1.js:156-162 | a converted row has exactly item, bottle size, bottle cost, pour and price; it has a new field, and quantity and total are gone |
| CostEngine.Migrate | app-v3.1.js:152-163 | non-array gives no rows; a collection where some row has a new field is returned unchanged; otherwise every row is converted, in order |
| CostEngine.MigrateIdempotent | app-v3.js:129-140 | migrating migrated data changes nothing |
| CostEngine.MigratedRowFigures | app-v3.1.js:156-162 | a converted row is priced as a 1.5 oz pour of a 750 ml bottle at its old cost, with no percentage |
| CostEngine.MixedCollectionNotMigrated | app-v3.1.js:154-155 | one current row keeps an old row unconverted, with its quantity and total and zero figures |
| CostEngine.LoadMixed | app-v3.1.js:152-178 | an old record without a pour, next to a current row, loads with zero figures and keeps every field but the bottle size and figures |
| CostEngine.NoPourRecalculated | app-v3.1.js:109-147 | a row without a pour recalculates to zero figures |
| CostEngine.LoadOldRecord | app-v3.1.js:152-178 | a stored collection made of one old record loads as that record converted and recalculated |
| CostEngine.ConvertedRecalculated | app-v3.1.js:139-162 | a converted record, recalculated, shows the figures the calculator gives it, pours 1.5 oz and has no quantity or total |
| CostEngine.GinConverted | app-v3.1.js:109-162 | the old gin record converted is priced at 1.06 a pour, 0 %, suggested 9.25 at the defaults |
| CostEngine.OldRecordMigrated | app-v3.1.js:168-178 | the old gin record (cost 18, quantity 2) loads at 1.06 a pour, 0 %, suggested 9.25, with quantity and total gone |
| CostEngine.GinFigures | app-v3.1.js:109-136 | 18 for 750 ml at 1.5 oz and no price gives 1.06, 0, 9.25 at the defaults |
| CostEngine.SaveData | app-v3.1.js:179-181 | what is saved goes under the location's key and is recalculated, so no stored figure is stale |
| CostEngine.Load | app-v3.1.js:168-178 | non-array gives no rows; otherwise one row per stored row, each consistent with a canonical bottle |
| CostEngine.SaveThenLoad | app-v3.js:146-160 | loading what a save wrote gives back exactly the saved rows |
| CostEngine.ExampleRows | app-v3.1.js:183-189 | three example rows, each consistent and canonical |
| CostEngine.ExampleVodka | app-v3.js:164 | at 11.5 % and 0.25 the first example row shows 0.87 / 9.7 % / 7.5 |
| CostEngine.ExampleTequila | app-v3.js:165 | at 11.5 % and 0.25 the second example row shows 0.93 / 8.5 % / 8.0 |
| CostEngine.ExampleLimoncello | app-v3.js:166 | at 11.5 % and 0.25 the third example row shows 0.97 / 12.2 % / 8.5 |
| CostEngine.ExampleShows | app-v3.js:162-168 | an example row shows the rounded figures of its literals |
| CostEngine.VodkaFigures | app-v3.js:164 | 14.75 for 750 ml, 1.5 oz, price 9 gives 0.87, 9.7, 7.5 |
| CostEngine.TequilaFigures | app-v3.js:165 | 21 for 1000 ml, 1.5 oz, price 11 gives 0.93, 8.5, 8.0 |
| CostEngine.LimoncelloFigures | app-v3.js:166 | 24.70 for 750 ml, 1 oz, price 8 gives 0.97, 12.2, 8.5 |
| CostEngine.InitialRows | app-v3.1.js:223 | the grid never starts empty: loaded rows if any, else the example rows |
| CostEngine.ApplyChanges | app-v3.1.js:237-247 | the edit batch as a fold over the changes; the sheet keeps its length |
| CostEngine.AfterChange | app-v3.1.js:233-252 | no changes, or a reload as source, leaves the rows unchanged; otherwise the rows become the batch applied in order; the reload flag is set iff some change was to a tracked field |
| CostEngine.TouchedSplit | app-v3.1.js:237-238 | a row is touched by a batch iff it is touched by all but the last change or by the last one |
| CostEngine.ApplyChangesUntouched | app-v3.1.js:237-247 | rows named by no tracked change are left exactly as they were |
| CostEngine.ApplyChangesConsistent | app-v3.1.js:238-244 | every row a tracked change names ends with figures matching its inputs |
| CostEngine.ApplyChangesStep | app-v3.1.js:237-247 | the first n + 1 changes are the first n followed by change n, and a tracked field is named iff it was before or change n names one |
| CostEngine.EditRow | app-v3.1.js:238-244 | the edited row's figures match its inputs; it gains the figures (and the bottle size on a bottle edit); a bottle edit stores the normalised size, any other edit keeps the stored one; every other field is unchanged |
| CostEngine.ApplyChange | app-v3.1.js:237-245 | an untracked change leaves the rows alone; a tracked one replaces only its row, by the edited row, which is consistent |
| CostEngine.EditRowInPlace | app-v3.1.js:239-244 | the edit is the bottle size written first, then the three figures the calculator gives the updated row |
| CostEngine.ApplyChangesKeepsInputs | app-v3.1.js:239-244 | edits keep every field but the bottle size and figures; the bottle size changes only through a bottle edit, and then to 750 or 1000 |
| LocationColumns.ExtraKey | app-v3.1.js:83 | the key of extra column i is "extra_" followed by the decimal text of i |
| LocationColumns.ExtraHeader | app-v3.1.js:83-84 | the header of extra column i is "Extra " followed by the decimal text of i, the same text that ends its key |
| LocationColumns.ExtraColumn | app-v3.1.js:83 | extra column i is editable text showing field `extra_i`, which no fixed column shows |
| LocationColumns.ExtraKeyInjective | app-v3.1.js:83 | different extra columns have different keys |
| LocationColumns.ExtraKeyNotBase | app-v3.1.js:25-83 | no extra column key is a key of the fixed columns |
| LocationColumns.Columns | app-v3.1.js:79-87 | n extra columns give 8 + n columns |
| LocationColumns.Headers | app-v3.1.js:79-87 | n extra columns give 8 + n headers |
| LocationColumns.BuildColumnsAndHeaders | app-v3.1.js:79-87 | the loop builds the fixed columns and headers followed by extra_1 .. extra_n and Extra 1 .. Extra n, in order |
| LocationColumns.ColumnsDistinct | app-v3.1.js:25-87 | one header per column, the fixed layout first, and no two columns show the same field |
| LocationColumns.LocationMeta.constructor | app-v3.1.js:71-72 | metadata holds the given extra-column count |
| LocationColumns.AddColumnAfterLoad | app-v3.1.js:274-291 | adding a column to a freshly loaded location: the stored count, 0 when missing, rises by one; the rows are seeded with `extra_` and the new count; the columns and headers are rebuilt for it |
| LocationColumns.SeedColumn | app-v3.1.js:281-283 | seeding keeps the number of rows |
| LocationColumns.SeedRow | app-v3.1.js:281-282 | the row gains the field; a row that has it is unchanged; otherwise the field is blank text; every other field reads as before |
| LocationColumns.SeedColumnEffect | app-v3.1.js:281-283 | after seeding every row has the new field; an existing value is kept; a new one is blank text; all other fields are unchanged |
| LocationColumns.SeedRowKeepsConsistent | app-v3.1.js:281-283 | a row given a blank extra field is consistent if it was |
| LocationColumns.SeedColumnKeepsConsistent | app-v3.1.js:281-283 | seeding an extra column leaves consistent figures consistent |
| LocationColumns.AddColumn | app-v3.1.js:274-291 | the count rises by exactly one; the rows become the old rows seeded with the new key; the columns and headers are rebuilt for the new count |
| LocationColumns.MetaKey | app-v3.1.js:68 | the metadata key is its prefix followed by the location id |
| LocationColumns.RowAndMetaKeysDiffer | app-v3.1.js:4-5 | a data key never equals a metadata key, whatever the two locations |
| LegacyEngine.BottleMl | app.js:57-63 | in `app-v2.js` the size is 750 or 1000, and any stored number but 1000 becomes 750; in `app.js` a stored number is kept as it is; anything but a number follows the canonical rule in both; 750 and 1000 are kept in both |
| LegacyEngine.ReleasesDifferOnNumbers | app-v2.js:55-60 | the two releases agree on everything but numbers, and on a number exactly when it is 750 or 1000 |
| LegacyEngine.BottleMlIdempotent | app.js:57-63 | in both releases, normalising a stored size again changes nothing |
| LegacyEngine.Figures | app-v2.js:62-78 | unrounded figures: both zero when the bottle or the pour is not positive; no percentage without a price |
| LegacyEngine.Rounded | app-v2.js:74-77 | rounding keeps zero figures zero |
| LegacyEngine.CalcRow | app.js:65-88 | both figures are 0 when the bottle or the pour is not positive; the percentage is 0 without a positive price (also app-v2.js:62-78) |
| LegacyEngine.CalcRowUnrounded | app.js:79-87 | past the guard: cost = Round2(bottle cost · pour ml / bottle ml); percentage = Round1(cost / price · 100) from the unrounded cost |
| LegacyEngine.PourCostNearest | app.js:79-87 | past the guard, the cost is within half a cent of the exact cost and the percentage within 0.05 of the exact share |
| LegacyEngine.V2MatchesCurrent | app-v2.js:62-78 | the `app-v2.js` cost and percentage equal those of the current engine, whatever the settings |
| LegacyEngine.PourCostNonNegative | app.js:74-87 | a non-negative bottle cost gives non-negative figures |
| LegacyEngine.FiguresNonNegative | app.js:79-82 | the unrounded figures of a non-negative bottle cost are non-negative |
| LegacyEngine.M1GuardIsLive | app.js:59-76 | in `app.js` a stored bottle size of 0 gives zero figures, where `app-v2.js` prices the same row as 750 ml (0.87 a pour) |
| LegacyEngine.WithPourCost | app-v2.js:83-88 | the row with both figures set: keys added, every other field unchanged |
| LegacyEngine.CalcRowReadsInputs | app.js:66-69 | the figures depend only on the release's bottle size, the bottle cost, the pour and the price |
| LegacyEngine.WithPourCostConsistent | app.js:92-98 | writing a row's own figures into it makes it consistent |
| LegacyEngine.RecalcRow | app.js:91-99 | keys are the row's plus bottle size and the two figures; every other field is kept verbatim (including a stored suggested price); the bottle size is the release's normalised size; the figures match the row (also app-v2.js:80-90) |
| LegacyEngine.RecalcAll | app.js:90-100 | same length and order, each row recalculated |
| LegacyEngine.RecalcAllConsistent | app-v2.js:80-90 | every recalculated row is consistent and keeps the presence and value of every other field |
| LegacyEngine.RecalcRowFixed | app.js:91-99 | recalculation leaves a row unchanged iff it already has a bottle size and both figures, its figures match, and its bottle size is the release's normalised size |
| LegacyEngine.RecalcRowIdempotent | app.js:91-99 | recalculating a recalculated row changes nothing |
| LegacyEngine.RecalcAllIdempotent | app.js:90-100 | `recalcAll` is idempotent, in both releases |
| LegacyEngine.DetectionDiffers | app-v2.js:95-97 | an old record next to a current row: `app-v2.js` sees an old row and converts the whole collection, the current row included; the later releases see a current row and convert nothing |
| LegacyEngine.ConvertRow | app-v2.js:101-113 | a converted row has exactly item, bottle size, bottle cost, pour, price and both figures; it no longer looks old, and quantity and total are gone |
| LegacyEngine.ConvertedRowHasNoPercentage | app-v2.js:107-112 | a converted row shows 0 % |
| LegacyEngine.Migrate | app-v2.js:93-114 | non-array gives no rows; with no row that has a quantity or total but neither pour nor price, the input is returned unchanged; otherwise every row is converted, in order |
| LegacyEngine.MigrateIdempotent | app-v2.js:93-114 | migrating migrated data changes nothing |
| LegacyEngine.ConvertedFields | app-v2.js:103-111 | a converted record has exactly item, bottle size, bottle cost, pour, price and both figures; it does not look old |
| LegacyEngine.ConvertedRowConsistent | app-v2.js:103-111 | the figures migration fills in match the converted row's inputs |
| LegacyEngine.ConvertedRowStable | app-v2.js:107-126 | the figures migration fills in are those recalculation gives on load, because the blank price reads as 0 |
| LegacyEngine.Load | app.js:106-115 | `app.js` recalculates the parsed array with no migration; `app-v2.js` migrates first; non-array gives no rows; every loaded row is consistent |
| LegacyEngine.RecalcAllFixed | app-v2.js:80-90 | a collection whose every row is left unchanged by recalculation is left unchanged by `recalcAll` |
| LegacyEngine.ConvertedCollectionStable | app-v2.js:120-130 | a converted collection loads exactly as migration produced it |
| LegacyEngine.SaveThenLoad | app.js:106-119 | loading what a save wrote gives back the saved rows (in `app-v2.js`, when no saved row looks old) |
| LegacyEngine.EditRow | app.js:178-186 | the edited row's figures match its inputs; it gains the two figures (and the bottle size on a bottle edit); a bottle edit stores the release's size, any other edit keeps the stored one; every other field is unchanged (also app-v2.js:174-179) |
| LegacyEngine.ApplyChange | app.js:179-188 | an untracked change leaves the rows alone; a tracked one replaces only its row, by the edited row, which is consistent |
| LegacyEngine.ApplyChanges | app.js:178-189 | the edit batch as a fold over the changes; the sheet keeps its length |
| LegacyEngine.AfterChange | app.js:173-193 | no changes, or a reload as source, leaves the rows unchanged; otherwise the rows become the batch applied in order; the grid is reloaded after every other batch, tracked or not (also app-v2.js:169-183) |
| LegacyEngine.ApplyChangesUntouched | app-v2.js:173-181 | rows named by no tracked change are left exactly as they were |
| LegacyEngine.ApplyChangesConsistent | app.js:179-188 | every row a tracked change names ends with figures matching its inputs |
| LegacyEngine.ApplyChangesKeepsInputs | app.js:179-188 | edits keep every field but the bottle size and the two figures, and the bottle size changes only through a bottle edit |

## Left out

- The page around the engine is not modelled. This covers:
  - DOM lookups and event listeners, `alert` and `confirm`;
  - the version label;
  - the Handsontable column configuration beyond field, kind and read-only;
  - cell renderers, colour thresholds and `applyRowHighlights`.
  These are presentation, and they call a foreign library.
- Storage I/O and JSON are not modelled: `localStorage` reads and writes, and `JSON.parse` / `JSON.stringify` with their try/catch. Loading starts from the parsed value: an array of rows, or anything else. Saving ends at the key and the rows to be written. A missing entry, or text that does not parse, gives no rows before that point.
- Calls into the grid library are not modelled: `hot.loadData`, `hot.updateSettings`, `hot.alter` (`addRow`), `destroy`, and the order of calls in `switchLocation`, `saveAll` and `saveMeta`. `AfterChange` returns whether the grid would be reloaded. `AddColumn` returns the rebuilt columns and headers.
- Arithmetic is exact, not IEEE-754 binary64. `toFixed`, `Math.round`, `/` and `*` are over exact reals, so a double rounding error such as `1.005.toFixed(2)` giving "1.00" is not reproduced.
- NaN and Infinity are not modelled:
  - `Number()` of unreadable text gives NaN, which is represented as null. Every later reader treats the two alike.
  - Text such as "Infinity" or "1e400" is read as not a number, or as an exact real, never as an infinity. So the `isFinite` checks of the settings readers always pass on parsed values.
- `JsNumbers.ParseFloatDecimal`, `CostEngine.RoundingDecimal`: the value is stated for literals without an exponent. Literals with an exponent ("2.5e-1") are read by the same scan, but no lemma states their value.
- Values that are JSON objects or arrays inside a row are not modelled.
- Elements of a stored array that are not objects (null, numbers, strings, booleans) are not modelled: every stored row is a map from field names to values. The detection test is a `some`, which stops at the first row that matches, so what happens depends on where such an element sits:
  - in `app-v3.js` and `app-v3.1.js`, `"pour_oz" in r` throws on such an element when `some` reaches it, that is, when no current row comes before it (or none exists), and loading gives no rows. An element after the first current row is never tested: the rows go to `recalcAll` unchanged, where null makes `calcRow` throw (no rows), a number or boolean loads as a row holding only the bottle size 750 and three zero figures, and a string also gains one field per character;
  - in `app-v2.js`, the `r &&` guard lets null, 0, "" and false past the `in` test, and `"qty" in r` throws on any other primitive that `some` reaches before the first row that looks old (no rows loaded). When a row that looks old is found, the conversion maps every element: null makes `r.item` throw (no rows), and every other primitive becomes a full converted row with an empty item and cost 0. When none is found, the rows go to `recalcAll` unchanged, where null throws and 0, "" and false load as rows holding only the bottle size 750 and two zero figures;
  - in `app.js` there is no detection: null makes `calcRow` throw (no rows), a number or boolean loads as a row holding only the bottle size and two zero figures, and a string also gains one field per character.
- `(data || [])` in `recalcAll` is not modelled: the model's `recalcAll` always receives a sequence.
- `LocationColumns.LoadedExtraCols`: a stored `extraCols` that is not a number (for example the text "2") is not modelled. The metadata count is a natural number or missing.
- `CostEngine.AfterChange`, `LegacyEngine.AfterChange`: every change must name an existing row. The grid reports only existing rows, and a missing row would make the handler throw. The old value of a change is never read, so it is not part of a change.
- `CostEngine.SuggestedPriceOnIncrement`: proved only for increments that are a whole number of cents. For others, such as 0.125, the final `toFixed(2)` can move the suggestion off the increment.
- `CostEngine.CostPerPourNearestCent`: the whole-cent part holds only below 1e21, where `toFixed` stops rounding.
- `LegacyEngine.SaveThenLoad`: for `app-v2.js` it holds only when no saved row looks old. A saved row with a quantity or total and neither pour nor price would be converted again on load.
- `createExampleRows` of `app.js` and `app-v2.js` is not modelled separately. The same three rows are modelled for the later releases in `CostEngine.ExampleRows`.
