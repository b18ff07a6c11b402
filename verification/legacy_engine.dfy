/** The two earlier releases of the engine: app.js (`M1`) and app-v2.js (`V2`). Both compute
    only cost per pour and pour cost percentage, return early when the bottle or the pour is
    not positive, and reload the grid after every edit batch. They differ in the bottle-size
    rule (app.js keeps numbers as they are) and in loading: app.js has no migration, app-v2.js
    converts collections that look like the old quantity/total schema. */
module LegacyEngine {
  import opened JsNumbers
  import opened SheetRows
  import opened BottleSize
  import CostEngine

  datatype Release = M1 | V2

  /** The release's bottle-size rule. */
  function BottleMl(rel: Release, v: Val): (ml: real)
    ensures rel == V2 ==> ml == 750.0 || ml == 1000.0
    ensures rel == V2 && v.Num? && v.n != 1000.0 ==> ml == 750.0
    ensures rel == M1 && v.Num? ==> ml == v.n
    ensures !v.Num? ==> ml == NormalizeBottleMl(v)
    ensures v.Num? && (v.n == 750.0 || v.n == 1000.0) ==> ml == v.n
  {
    match rel
    case M1 => NormalizeBottleMlM1(v)
    case V2 => NormalizeBottleMl(v)
  }

  /** The two releases differ only on stored numbers: M1 keeps any number, V2 any number
      but 1000 becomes 750. */
  lemma ReleasesDifferOnNumbers(v: Val)
    ensures !v.Num? ==> BottleMl(M1, v) == BottleMl(V2, v)
    ensures v.Num? ==> (BottleMl(M1, v) == BottleMl(V2, v) <==> v.n == 750.0 || v.n == 1000.0)
  {
  }

  /** Normalising a stored size again changes nothing, in either release. */
  lemma BottleMlIdempotent(rel: Release, v: Val)
    ensures BottleMl(rel, Num(BottleMl(rel, v))) == BottleMl(rel, v)
  {
    NormalizeIdempotent(v);
  }

  /** The two computed fields of a row in these releases. */
  datatype PourCost = PourCost(costPerPour: real, pourCostPct: real)

  /** The bottle size of a row as the release reads it. */
  function BottleOf(rel: Release, row: Row): real
  {
    BottleMl(rel, Get(row, BOTTLE_ML))
  }

  /** The unrounded figures from the coerced inputs: nothing is computed unless both the
      bottle and the pour are positive, and the percentage needs a positive price. */
  function Figures(bottleMl: real, bottleCost: real, pourOz: real, menuPrice: real): (d: PourCost)
    ensures bottleMl <= 0.0 || pourOz <= 0.0 ==> d == PourCost(0.0, 0.0)
    ensures menuPrice <= 0.0 ==> d.pourCostPct == 0.0
  {
    var pourMl := PourMl(pourOz);
    if bottleMl <= 0.0 || pourMl <= 0.0 then PourCost(0.0, 0.0)
    else
      var cost := bottleCost * (pourMl / bottleMl);
      PourCost(cost, CostEngine.PctOf(cost, menuPrice))
  }

  /** The figures as stored: `Number(x.toFixed(2))` and `Number(x.toFixed(1))`. */
  function Rounded(d: PourCost): (r: PourCost)
    ensures d == PourCost(0.0, 0.0) ==> r == d
    ensures d.pourCostPct == 0.0 ==> r.pourCostPct == 0.0
  {
    CostEngine.ZeroRoundsToZero();
    PourCost(Round2(d.costPerPour), Round1(d.pourCostPct))
  }

  /** `calcRow` of app.js and app-v2.js: zero figures as soon as the bottle or the pour is not
      positive; otherwise the rounded cost per pour and pour cost percentage. */
  function CalcRow(rel: Release, row: Row): (d: PourCost)
    ensures BottleOf(rel, row) <= 0.0 || PourOzOf(row) <= 0.0 ==> d == PourCost(0.0, 0.0)
    ensures MenuPriceOf(row) <= 0.0 ==> d.pourCostPct == 0.0
  {
    Rounded(Figures(BottleOf(rel, row), BottleCostOf(row), PourOzOf(row), MenuPriceOf(row)))
  }

  /** What one pour costs, exactly, for a positive bottle size: the bottle cost times the
      pour's share of the bottle. */
  function ExactCost(rel: Release, row: Row): real
    requires BottleOf(rel, row) > 0.0
  {
    BottleCostOf(row) * (PourMl(PourOzOf(row)) / BottleOf(rel, row))
  }

  /** Past the guard, the stored figures are the exact cost and its share of the price,
      rounded. */
  lemma CalcRowUnrounded(rel: Release, row: Row)
    requires BottleOf(rel, row) > 0.0 && PourOzOf(row) > 0.0
    ensures CalcRow(rel, row).costPerPour == Round2(ExactCost(rel, row))
    ensures MenuPriceOf(row) > 0.0 ==>
              CalcRow(rel, row).pourCostPct == Round1(ExactCost(rel, row) / MenuPriceOf(row) * 100.0)
  {
    var f := Figures(BottleOf(rel, row), BottleCostOf(row), PourOzOf(row), MenuPriceOf(row));
    assert f == PourCost(ExactCost(rel, row), CostEngine.PctOf(ExactCost(rel, row), MenuPriceOf(row)));
  }

  /** Past the guard, the figures are the exact cost to the cent and the exact share of the
      price to a tenth of a percent. */
  lemma PourCostNearest(rel: Release, row: Row)
    requires BottleOf(rel, row) > 0.0 && PourOzOf(row) > 0.0
    ensures Abs(CalcRow(rel, row).costPerPour - ExactCost(rel, row)) <= 0.005
    ensures MenuPriceOf(row) > 0.0 ==>
              Abs(CalcRow(rel, row).pourCostPct - ExactCost(rel, row) / MenuPriceOf(row) * 100.0) <= 0.05
  {
    CalcRowUnrounded(rel, row);
    ToFixedNearest(ExactCost(rel, row), 2);
    assert Pow10(2) == 100.0;
    if MenuPriceOf(row) > 0.0 {
      ToFixedNearest(ExactCost(rel, row) / MenuPriceOf(row) * 100.0, 1);
      assert Pow10(1) == 10.0;
    }
  }

  /** app-v2.js computes the same two figures as the current engine, whatever the settings. */
  lemma V2MatchesCurrent(row: Row, s: CostEngine.Settings)
    ensures CalcRow(V2, row).costPerPour == CostEngine.CalcRow(row, s).costPerPour
    ensures CalcRow(V2, row).pourCostPct == CostEngine.CalcRow(row, s).pourCostPct
  {
    var b, c, oz, m := CostEngine.BottleMlOf(row), BottleCostOf(row), PourOzOf(row), MenuPriceOf(row);
    assert BottleOf(V2, row) == b;
    var f := Figures(b, c, oz, m);
    var g := CostEngine.Figures(b, c, oz, m, s);
    assert f.costPerPour == g.costPerPour && f.pourCostPct == g.pourCostPct;
  }

  /** A bottle that costs nothing or more gives no negative figure. */
  lemma PourCostNonNegative(rel: Release, row: Row)
    requires BottleCostOf(row) >= 0.0
    ensures CalcRow(rel, row).costPerPour >= 0.0 && CalcRow(rel, row).pourCostPct >= 0.0
  {
    FiguresNonNegative(BottleOf(rel, row), BottleCostOf(row), PourOzOf(row), MenuPriceOf(row));
  }

  lemma FiguresNonNegative(b: real, c: real, oz: real, m: real)
    requires c >= 0.0
    ensures Figures(b, c, oz, m).costPerPour >= 0.0 && Figures(b, c, oz, m).pourCostPct >= 0.0
  {
    if b > 0.0 && oz > 0.0 {
      var cost := c * (PourMl(oz) / b);
      assert cost >= 0.0 by { CostEngine.NonNegativeShare(c, PourMl(oz), b); }
      if m > 0.0 {
        CostEngine.NonNegativeQuotient(cost, m);
      }
    }
  }

  /** In app.js the bottle guard matters: a stored size of 0 gives zero figures, where
      app-v2.js reads the same row as a 750 ml bottle. */
  lemma M1GuardIsLive()
    ensures CalcRow(M1, CostEngine.SampleRow("Vodka", 0.0, 14.75, 1.5, 9.0)) == PourCost(0.0, 0.0)
    ensures CalcRow(V2, CostEngine.SampleRow("Vodka", 0.0, 14.75, 1.5, 9.0)).costPerPour == 0.87
  {
    var row := CostEngine.SampleRow("Vodka", 0.0, 14.75, 1.5, 9.0);
    assert Get(row, BOTTLE_ML) == Num(0.0) && Get(row, UNIT_COST) == Num(14.75);
    assert Get(row, POUR_OZ) == Num(1.5) && Get(row, MENU_PRICE) == Num(9.0);
    assert 14.75 * (PourMl(1.5) / 750.0) == CostEngine.VODKA_POUR;
    CostEngine.Round2Of(CostEngine.VODKA_POUR, 87);
  }

  // ----- Recalculation -----

  const LEGACY_RECALC_KEYS: set<string> := {BOTTLE_ML, COST_PER_POUR, POUR_COST_PCT}

  /** The row with the two computed fields set, every other field kept. */
  function WithPourCost(row: Row, d: PourCost): (r: Row)
    ensures r.Keys == row.Keys + {COST_PER_POUR, POUR_COST_PCT}
    ensures Get(r, COST_PER_POUR) == Num(d.costPerPour) && Get(r, POUR_COST_PCT) == Num(d.pourCostPct)
    ensures forall k :: k != COST_PER_POUR && k != POUR_COST_PCT ==> Get(r, k) == Get(row, k)
  {
    row[COST_PER_POUR := Num(d.costPerPour)][POUR_COST_PCT := Num(d.pourCostPct)]
  }

  /** The stored figures of a row are those its inputs give. */
  predicate Consistent(rel: Release, row: Row)
  {
    Get(row, COST_PER_POUR) == Num(CalcRow(rel, row).costPerPour)
    && Get(row, POUR_COST_PCT) == Num(CalcRow(rel, row).pourCostPct)
  }

  /** The calculator reads only the bottle size (through the rule), the cost, pour and price. */
  lemma CalcRowReadsInputs(rel: Release, r1: Row, r2: Row)
    requires BottleOf(rel, r1) == BottleOf(rel, r2)
    requires Get(r1, UNIT_COST) == Get(r2, UNIT_COST) && Get(r1, POUR_OZ) == Get(r2, POUR_OZ)
    requires Get(r1, MENU_PRICE) == Get(r2, MENU_PRICE)
    ensures CalcRow(rel, r1) == CalcRow(rel, r2)
  {
  }

  lemma WithPourCostConsistent(rel: Release, row: Row)
    ensures Consistent(rel, WithPourCost(row, CalcRow(rel, row)))
  {
    CalcRowReadsInputs(rel, WithPourCost(row, CalcRow(rel, row)), row);
  }

  /** One element of `recalcAll`: the release's bottle size and fresh figures. */
  function RecalcRow(rel: Release, row: Row): (r: Row)
    ensures r.Keys == row.Keys + LEGACY_RECALC_KEYS
    ensures forall k :: k !in LEGACY_RECALC_KEYS ==> Get(r, k) == Get(row, k)
    ensures Get(r, BOTTLE_ML) == Num(BottleOf(rel, row))
    ensures Consistent(rel, r) && CalcRow(rel, r) == CalcRow(rel, row)
  {
    var computed := CalcRow(rel, row);
    var bottled := row[BOTTLE_ML := Num(BottleOf(rel, row))];
    BottleMlIdempotent(rel, Get(row, BOTTLE_ML));
    CalcRowReadsInputs(rel, bottled, row);
    WithPourCostConsistent(rel, bottled);
    WithPourCost(bottled, computed)
  }

  /** `recalcAll` of the release: every row recalculated, in order. */
  function RecalcAll(rel: Release, rows: seq<Row>): (out: seq<Row>)
    ensures |out| == |rows|
    ensures forall i :: 0 <= i < |rows| ==> out[i] == RecalcRow(rel, rows[i])
  {
    seq(|rows|, i requires 0 <= i < |rows| => RecalcRow(rel, rows[i]))
  }

  /** A recalculated row is consistent and keeps every field the recalculation does not write. */
  lemma RecalcAllConsistent(rel: Release, rows: seq<Row>, i: nat, k: string)
    requires i < |rows|
    ensures Consistent(rel, RecalcAll(rel, rows)[i])
    ensures k !in LEGACY_RECALC_KEYS ==>
              (k in RecalcAll(rel, rows)[i] <==> k in rows[i]) && Get(RecalcAll(rel, rows)[i], k) == Get(rows[i], k)
  {
  }

  /** Recalculation leaves a row as it is exactly when the row already holds its figures and
      its bottle size in the release's form. */
  lemma RecalcRowFixed(rel: Release, row: Row)
    ensures RecalcRow(rel, row) == row <==>
              LEGACY_RECALC_KEYS <= row.Keys && Consistent(rel, row)
              && Get(row, BOTTLE_ML) == Num(BottleOf(rel, row))
  {
    var rr := RecalcRow(rel, row);
    if LEGACY_RECALC_KEYS <= row.Keys && Consistent(rel, row) && Get(row, BOTTLE_ML) == Num(BottleOf(rel, row)) {
      assert rr.Keys == row.Keys;
      forall k | k in row
        ensures rr[k] == row[k]
      {
        assert Get(rr, k) == Get(row, k);
      }
    }
  }

  lemma RecalcRowIdempotent(rel: Release, row: Row)
    ensures RecalcRow(rel, RecalcRow(rel, row)) == RecalcRow(rel, row)
  {
    var r := RecalcRow(rel, row);
    BottleMlIdempotent(rel, Get(row, BOTTLE_ML));
    RecalcRowFixed(rel, r);
  }

  /** `recalcAll` is idempotent in both releases. */
  lemma RecalcAllIdempotent(rel: Release, rows: seq<Row>)
    ensures RecalcAll(rel, RecalcAll(rel, rows)) == RecalcAll(rel, rows)
  {
    forall i | 0 <= i < |rows|
      ensures RecalcAll(rel, RecalcAll(rel, rows))[i] == RecalcAll(rel, rows)[i]
    {
      RecalcRowIdempotent(rel, rows[i]);
    }
  }

  // ----- Loading -----

  /** A row of the quantity/total schema that has neither a pour nor a price. */
  predicate LooksOld(row: Row)
  {
    (QTY in row || TOTAL in row) && POUR_OZ !in row && MENU_PRICE !in row
  }

  predicate AnyLooksOld(rows: seq<Row>)
  {
    exists i :: 0 <= i < |rows| && LooksOld(rows[i])
  }

  /** The two detection rules disagree on a collection with a record of the old schema next
      to a current row: app-v2.js converts every record of it, while the current engine keeps
      it unconverted. */
  lemma DetectionDiffers(stale: Row, current: Row)
    requires LooksOld(stale) && CostEngine.HasNewField(current)
    ensures AnyLooksOld([stale, current]) && CostEngine.AnyHasNewField([stale, current])
    ensures Migrate(CostEngine.Rows([stale, current]))[1] == ConvertRow(current)
    ensures CostEngine.Migrate(CostEngine.Rows([stale, current])) == [stale, current]
  {
    var rows := [stale, current];
    assert LooksOld(rows[0]);
    assert CostEngine.HasNewField(rows[1]);
  }

  /** The row app-v2.js prices a converted record with: 750 ml, the record's bottle cost,
      1.5 oz and price 0. */
  function ConversionTemplate(unitCost: Val): Row
  {
    map[BOTTLE_ML := Num(750.0), UNIT_COST := unitCost, POUR_OZ := Num(1.5), MENU_PRICE := Num(0.0)]
  }

  /** One record converted by app-v2.js: the fields of the current schema with a blank price,
      and the two figures computed up front; quantity and total are dropped. */
  function ConvertRow(row: Row): (r: Row)
    ensures r.Keys == {ITEM, BOTTLE_ML, UNIT_COST, POUR_OZ, MENU_PRICE, COST_PER_POUR, POUR_COST_PCT}
    ensures !LooksOld(r) && QTY !in r && TOTAL !in r
  {
    var unitCost := NumberValue(Get(row, UNIT_COST));
    ConvertedFields(if Get(row, ITEM).Null? then Text("") else Get(row, ITEM), unitCost,
                    CalcRow(V2, ConversionTemplate(unitCost)))
  }

  /** The converted record from its item, its bottle cost and the figures computed for it. */
  function ConvertedFields(item: Val, unitCost: Val, d: PourCost): (r: Row)
    ensures r.Keys == {ITEM, BOTTLE_ML, UNIT_COST, POUR_OZ, MENU_PRICE, COST_PER_POUR, POUR_COST_PCT}
    ensures !LooksOld(r) && QTY !in r && TOTAL !in r
  {
    map[ITEM := item,
        BOTTLE_ML := Num(750.0),
        UNIT_COST := unitCost,
        POUR_OZ := Num(1.5),
        MENU_PRICE := Text(""),
        COST_PER_POUR := Num(d.costPerPour),
        POUR_COST_PCT := Num(d.pourCostPct)]
  }

  /** `migrateIfNeeded` of app-v2.js: anything but an array gives no rows; a collection in
      which some row looks old is converted row by row; any other collection is kept. */
  function Migrate(stored: CostEngine.Stored): (out: seq<Row>)
    ensures stored.NotArray? ==> out == []
    ensures stored.Rows? ==> |out| == |stored.rows|
    ensures stored.Rows? && !AnyLooksOld(stored.rows) ==> out == stored.rows
    ensures stored.Rows? && AnyLooksOld(stored.rows) ==>
              forall i :: 0 <= i < |out| ==> out[i] == ConvertRow(stored.rows[i])
  {
    match stored
    case NotArray => []
    case Rows(rows) =>
      if !AnyLooksOld(rows) then rows
      else seq(|rows|, i requires 0 <= i < |rows| => ConvertRow(rows[i]))
  }

  /** A converted row shows no percentage: its price is blank. */
  lemma ConvertedRowHasNoPercentage(row: Row)
    ensures Get(ConvertRow(row), POUR_COST_PCT) == Num(0.0)
  {
    var t := ConversionTemplate(NumberValue(Get(row, UNIT_COST)));
    assert Get(t, MENU_PRICE) == Num(0.0);
  }

  /** Migrating a migrated collection changes nothing. */
  lemma MigrateIdempotent(stored: CostEngine.Stored)
    ensures Migrate(CostEngine.Rows(Migrate(stored))) == Migrate(stored)
  {
    var out := Migrate(stored);
    if stored.Rows? && AnyLooksOld(stored.rows) {
      assert !AnyLooksOld(out) by {
        forall i | 0 <= i < |out| ensures !LooksOld(out[i]) {
          assert out[i] == ConvertRow(stored.rows[i]);
        }
      }
    }
  }

  /** The figures migration fills in are exactly those recalculation gives the converted row
      on load, since the blank price reads as 0. */
  lemma ConvertedRowStable(row: Row)
    ensures RecalcRow(V2, ConvertRow(row)) == ConvertRow(row)
  {
    var r := ConvertRow(row);
    ConvertedRowConsistent(row);
    assert Get(r, BOTTLE_ML) == Num(750.0);
    RecalcRowFixed(V2, r);
  }

  /** The figures a converted row carries are those its inputs give. */
  lemma ConvertedRowConsistent(row: Row)
    ensures Consistent(V2, ConvertRow(row))
  {
    var r := ConvertRow(row);
    var t := ConversionTemplate(NumberValue(Get(row, UNIT_COST)));
    BlankTextIsZero();
    assert Get(r, BOTTLE_ML) == Num(750.0) && Get(t, BOTTLE_ML) == Num(750.0);
    assert Get(r, UNIT_COST) == Get(t, UNIT_COST) && Get(r, POUR_OZ) == Get(t, POUR_OZ);
    assert MenuPriceOf(r) == 0.0 && MenuPriceOf(t) == 0.0;
    assert CalcRow(V2, r) == CalcRow(V2, t);
  }

  /** `loadData` after parsing: app.js recalculates what it finds (anything but an array
      gives no rows); app-v2.js migrates first. */
  function Load(rel: Release, stored: CostEngine.Stored): (rows: seq<Row>)
    ensures stored.NotArray? ==> rows == []
    ensures forall i :: 0 <= i < |rows| ==> Consistent(rel, rows[i])
  {
    match rel
    case M1 => (if stored.Rows? then RecalcAll(M1, stored.rows) else [])
    case V2 => RecalcAll(V2, Migrate(stored))
  }

  /** A converted collection loads exactly as migration left it. */
  lemma ConvertedCollectionStable(stored: CostEngine.Stored)
    requires stored.Rows? && AnyLooksOld(stored.rows)
    ensures Load(V2, stored) == Migrate(stored)
  {
    var out := Migrate(stored);
    forall i | 0 <= i < |out|
      ensures RecalcRow(V2, out[i]) == out[i]
    {
      ConvertedRowStable(stored.rows[i]);
    }
    RecalcAllFixed(V2, out);
  }

  /** Rows that recalculation leaves as they are make a sheet it leaves as it is. */
  lemma RecalcAllFixed(rel: Release, rows: seq<Row>)
    requires forall i :: 0 <= i < |rows| ==> RecalcRow(rel, rows[i]) == rows[i]
    ensures RecalcAll(rel, rows) == rows
  {
  }

  /** Loading what a save wrote gives back exactly the saved rows, in both releases, as long
      as no saved row looks old. */
  lemma SaveThenLoad(rel: Release, data: seq<Row>)
    requires rel == V2 ==> !AnyLooksOld(RecalcAll(rel, data))
    ensures Load(rel, CostEngine.Rows(RecalcAll(rel, data))) == RecalcAll(rel, data)
  {
    RecalcAllIdempotent(rel, data);
  }

  // ----- Editing -----

  /** The edited row after one tracked change: a new bottle size is stored through the
      release's rule, then the figures are recomputed. */
  function EditRow(rel: Release, row: Row, c: Change): (r: Row)
    ensures Consistent(rel, r)
    ensures r.Keys == row.Keys + {COST_PER_POUR, POUR_COST_PCT} + (if c.prop == BOTTLE_ML then {BOTTLE_ML} else {})
    ensures c.prop == BOTTLE_ML ==> Get(r, BOTTLE_ML) == Num(BottleMl(rel, c.newVal))
    ensures c.prop != BOTTLE_ML ==> Get(r, BOTTLE_ML) == Get(row, BOTTLE_ML)
    ensures forall k :: k !in LEGACY_RECALC_KEYS ==> Get(r, k) == Get(row, k)
  {
    var r := if c.prop == BOTTLE_ML then row[BOTTLE_ML := Num(BottleMl(rel, c.newVal))] else row;
    WithPourCostConsistent(rel, r);
    WithPourCost(r, CalcRow(rel, r))
  }

  function ApplyChange(rel: Release, rows: seq<Row>, c: Change): (out: seq<Row>)
    requires c.row < |rows|
    ensures |out| == |rows|
    ensures !CostEngine.Tracked(c) ==> out == rows
    ensures CostEngine.Tracked(c) ==> out[c.row] == EditRow(rel, rows[c.row], c) && Consistent(rel, out[c.row])
    ensures forall i :: 0 <= i < |rows| && i != c.row ==> out[i] == rows[i]
  {
    if CostEngine.Tracked(c) then rows[c.row := EditRow(rel, rows[c.row], c)] else rows
  }

  /** The rows after a batch of changes, applied in order. */
  function ApplyChanges(rel: Release, rows: seq<Row>, cs: seq<Change>): (out: seq<Row>)
    requires CostEngine.InRange(cs, |rows|)
    ensures |out| == |rows|
    decreases |cs|
  {
    if cs == [] then rows
    else ApplyChange(rel, ApplyChanges(rel, rows, cs[..|cs| - 1]), cs[|cs| - 1])
  }

  /** The `afterChange` hook of app.js and app-v2.js: tracked changes recompute their rows in
      place, and the grid is reloaded after every batch that is not itself a reload. */
  method AfterChange(rel: Release, data: array<Row>, changes: Option<seq<Change>>, source: string)
    returns (reloaded: bool)
    requires changes.Some? ==> CostEngine.InRange(changes.value, data.Length)
    modifies data
    ensures changes.None? || source == "loadData" ==> data[..] == old(data[..])
    ensures changes.Some? && source != "loadData" ==>
              data[..] == ApplyChanges(rel, old(data[..]), changes.value)
    ensures reloaded <==> changes.Some? && source != "loadData"
  {
    if changes.None? || source == "loadData" {
      return false;
    }
    var cs := changes.value;
    for n := 0 to |cs|
      invariant data[..] == ApplyChanges(rel, old(data[..]), cs[..n])
    {
      var c := cs[n];
      assert cs[..n + 1][..n] == cs[..n];
      if c.prop in TRACKED_PROPS {
        if c.prop == BOTTLE_ML {
          data[c.row] := data[c.row][BOTTLE_ML := Num(BottleMl(rel, c.newVal))];
        }
        var r := data[c.row];
        var computed := CalcRow(rel, r);
        data[c.row] := r[COST_PER_POUR := Num(computed.costPerPour)][POUR_COST_PCT := Num(computed.pourCostPct)];
      }
    }
    assert cs[..|cs|] == cs;
    return true;
  }

  /** Rows no tracked change names are not touched. */
  lemma {:induction false} ApplyChangesUntouched(rel: Release, rows: seq<Row>, cs: seq<Change>, i: nat)
    requires CostEngine.InRange(cs, |rows|) && i < |rows| && !CostEngine.Touched(cs, i)
    ensures ApplyChanges(rel, rows, cs)[i] == rows[i]
    decreases |cs|
  {
    if cs != [] {
      CostEngine.TouchedSplit(cs, i);
      ApplyChangesUntouched(rel, rows, cs[..|cs| - 1], i);
    }
  }

  /** Every row a tracked change names ends up consistent. */
  lemma {:induction false} ApplyChangesConsistent(rel: Release, rows: seq<Row>, cs: seq<Change>, i: nat)
    requires CostEngine.InRange(cs, |rows|) && i < |rows| && CostEngine.Touched(cs, i)
    ensures Consistent(rel, ApplyChanges(rel, rows, cs)[i])
    decreases |cs|
  {
    var prefix := cs[..|cs| - 1];
    var c := cs[|cs| - 1];
    var mid := ApplyChanges(rel, rows, prefix);
    CostEngine.TouchedSplit(cs, i);
    if c.row == i && CostEngine.Tracked(c) {
      var r := if c.prop == BOTTLE_ML then mid[i][BOTTLE_ML := Num(BottleMl(rel, c.newVal))] else mid[i];
      WithPourCostConsistent(rel, r);
    } else {
      ApplyChangesConsistent(rel, rows, prefix, i);
    }
  }

  /** Edits keep every field but the bottle size and the two figures, and keep the bottle
      size unless a change sets it. */
  lemma {:induction false} ApplyChangesKeepsInputs(rel: Release, rows: seq<Row>, cs: seq<Change>, i: nat, k: string)
    requires CostEngine.InRange(cs, |rows|) && i < |rows|
    ensures k !in LEGACY_RECALC_KEYS ==>
              (k in ApplyChanges(rel, rows, cs)[i] <==> k in rows[i])
              && Get(ApplyChanges(rel, rows, cs)[i], k) == Get(rows[i], k)
    ensures !CostEngine.BottleEdited(cs, i) ==>
              Get(ApplyChanges(rel, rows, cs)[i], BOTTLE_ML) == Get(rows[i], BOTTLE_ML)
    decreases |cs|
  {
    if cs != [] {
      ApplyChangesKeepsInputs(rel, rows, cs[..|cs| - 1], i, k);
      CostEngine.TouchedSplit(cs, i);
    }
  }
}
