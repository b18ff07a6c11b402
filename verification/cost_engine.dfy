/** The calculation engine of app-v3.js and app-v3.1.js (the two files hold the same text for
    it): the settings readers, the row calculator, whole-sheet recalculation, the migration of
    stored rows, the edit handler and the save/load pipeline built from them. */
module CostEngine {
  import opened JsNumbers
  import opened SheetRows
  import opened BottleSize

  // ----- Settings -----

  /** The two settings the page holds: the target pour-cost percentage and the price
      rounding increment. The calculator reads them at every call; here they are passed in. */
  datatype Settings = Settings(targetPct: real, increment: real)

  /** The target pour-cost percentage: the input's number when it is positive, else 11.5;
      a missing input reads its fallback text "11.5". */
  function TargetPct(input: Option<string>): (t: real)
    ensures t > 0.0
    ensures input.Some? && ParseFloat(input.value).Some? && ParseFloat(input.value).value > 0.0
            ==> t == ParseFloat(input.value).value
    ensures input.Some? && ParseFloat(input.value).Some? && ParseFloat(input.value).value <= 0.0 ==> t == 11.5
    ensures input.Some? && ParseFloat(input.value).None? ==> t == 11.5
    ensures input.None? ==> t == 11.5
  {
    match input
    case Some(text) =>
      var v := ParseFloat(text);
      if v.Some? && v.value > 0.0 then v.value else 11.5
    case None =>
      ParseEleven();
      var v := ParseFloat("11.5");
      if v.Some? && v.value > 0.0 then v.value else 11.5
  }

  /** The price rounding increment: the input's number (zero and negatives included), else
      0.25; a missing input reads its fallback text "0.25". */
  function Rounding(input: Option<string>): (inc: real)
    ensures input.Some? && ParseFloat(input.value).Some? ==> inc == ParseFloat(input.value).value
    ensures input.Some? && ParseFloat(input.value).None? ==> inc == 0.25
    ensures input.None? ==> inc == 0.25
  {
    var text := match input case Some(text) => text case None => "0.25";
    ParseQuarter();
    match ParseFloat(text)
    case Some(v) => v
    case None => 0.25
  }

  /** Without their inputs the settings are 11.5 % and 0.25, and empty text falls back to the
      same values. */
  lemma DefaultSettings()
    ensures TargetPct(None) == 11.5 && Rounding(None) == 0.25
    ensures TargetPct(Some("")) == 11.5 && Rounding(Some("")) == 0.25
  {
    assert ScanDecimal("", false).None?;
  }

  /** An increment typed as a whole number reads as that number. */
  lemma RoundingWhole(n: nat)
    ensures Rounding(Some(NatToString(n))) == n as real
  {
    ParseFloatNatToString(n);
  }

  /** An increment typed as digits, a dot and digits (such as "0.05" or ".5") reads as that
      decimal when the text after it neither starts with a digit nor begins an exponent. */
  lemma RoundingDecimal(i: string, f: string, rest: string)
    requires AllDigits(i) && AllDigits(f) && (i != [] || f != [])
    requires (rest == [] || !IsDigit(rest[0])) && ScanExponent(rest).None?
    ensures AllInBase(i + f, 10)
    ensures Rounding(Some(i + "." + f + rest)) == ValueInBase(i + f, 10) as real / Pow10(|f|)
  {
    ParseFloatDecimal(i, f, rest);
  }

  /** An increment input holding only white space falls back to 0.25. */
  lemma RoundingBlank(w: string)
    requires forall i :: 0 <= i < |w| ==> IsWhiteSpace(w[i])
    ensures Rounding(Some(w)) == 0.25
  {
    ParseFloatSkipsWhiteSpace(w, []);
    assert w + [] == w;
    assert ScanDecimal([], false).None?;
  }

  /** A target typed as a whole number is that number when it is not zero, and 11.5 when it
      is zero. */
  lemma TargetPctWhole(n: nat)
    ensures TargetPct(Some(NatToString(n))) == if n > 0 then n as real else 11.5
  {
    ParseFloatNatToString(n);
  }

  /** A target input holding only white space falls back to 11.5. */
  lemma TargetPctBlank(w: string)
    requires forall i :: 0 <= i < |w| ==> IsWhiteSpace(w[i])
    ensures TargetPct(Some(w)) == 11.5
  {
    ParseFloatSkipsWhiteSpace(w, []);
    assert w + [] == w;
    assert ScanDecimal([], false).None?;
  }

  lemma ParseEleven()
    ensures ParseFloat("11.5") == Some(11.5)
  {
    assert AllInBase("11" + "5", 10) && ValueInBase("11" + "5", 10) as real / Pow10(1) == 11.5 by {
      assert "11" + "5" == "115";
      assert "115"[..2] == "11" && "11"[..1] == "1" && "1"[..0] == "";
    }
    assert "11" + "." + "5" + [] == "11.5";
    ParseFloatDecimal("11", "5", []);
  }

  lemma ParseQuarter()
    ensures ParseFloat("0.25") == Some(0.25)
  {
    assert AllInBase("0" + "25", 10) && ValueInBase("0" + "25", 10) as real / Pow10(2) == 0.25 by {
      assert "0" + "25" == "025";
      assert "025"[..2] == "02" && "02"[..1] == "0" && "0"[..0] == "";
    }
    assert "0" + "." + "25" + [] == "0.25";
    ParseFloatDecimal("0", "25", []);
  }

  /** True when r is a whole number of steps `step`. */
  predicate IsMultipleOf(r: real, step: real)
    requires step != 0.0
  {
    IsIntegral(r / step)
  }

  /** The amount rounded to the nearest multiple of the increment, halves upwards; a zero or
      negative increment leaves the amount as it is. */
  function RoundToIncrement(amount: real, increment: real): (r: real)
    ensures increment <= 0.0 ==> r == amount
    ensures increment > 0.0 ==> IsMultipleOf(r, increment)
    ensures increment > 0.0 ==> amount - increment / 2.0 < r <= amount + increment / 2.0
    ensures amount >= 0.0 ==> r >= 0.0
  {
    if increment <= 0.0 then amount
    else
      var k := MathRound(amount / increment);
      ScaledRound(amount, increment, k);
      k as real * increment
  }

  lemma ScaledRound(amount: real, increment: real, k: int)
    requires increment > 0.0
    requires amount / increment - 0.5 < k as real <= amount / increment + 0.5
    ensures IsMultipleOf(k as real * increment, increment)
    ensures amount - increment / 2.0 < k as real * increment <= amount + increment / 2.0
    ensures amount >= 0.0 ==> k as real * increment >= 0.0
  {
    HalfStepBelow(amount, k as real, increment);
    HalfStepAbove(amount, k as real, increment);
    assert IsIntegral(k as real * increment / increment) by {
      DivMulCancel(k as real, increment);
      assert k as real * increment / increment == k as real;
      assert (k as real).Floor == k;
    }
    if amount >= 0.0 {
      NonNegativeQuotient(amount, increment);
      assert k >= 0;
      MulMonotone(0.0, k as real, increment);
    }
  }

  /** Half a step below amount / p, scaled back by p, is below amount less half of p. */
  lemma HalfStepBelow(amount: real, y: real, p: real)
    requires p > 0.0 && amount / p - 0.5 < y
    ensures amount - p / 2.0 < y * p
  {
    var x := amount / p;
    DivMulCancel(amount, p);
    MulStrict(x - 0.5, y, p);
    assert (x - 0.5) * p == x * p - p / 2.0;
  }

  /** Half a step above amount / p, scaled back by p, is at most amount plus half of p. */
  lemma HalfStepAbove(amount: real, y: real, p: real)
    requires p > 0.0 && y <= amount / p + 0.5
    ensures y * p <= amount + p / 2.0
  {
    var x := amount / p;
    DivMulCancel(amount, p);
    MulMonotone(y, x + 0.5, p);
    assert (x + 0.5) * p == x * p + p / 2.0;
  }

  lemma MulStrict(x: real, y: real, p: real)
    requires p > 0.0 && x < y
    ensures x * p < y * p
  {
  }

  // ----- The row calculator -----

  /** The three computed fields of a row. */
  datatype Derived = Derived(costPerPour: real, pourCostPct: real, suggestedPrice: real)

  const DERIVED_KEYS: set<string> := {COST_PER_POUR, POUR_COST_PCT, SUGGESTED_PRICE}

  /** The fields a recalculation writes: the canonical bottle size and the derived fields. */
  const RECALC_KEYS: set<string> := {BOTTLE_ML, COST_PER_POUR, POUR_COST_PCT, SUGGESTED_PRICE}

  /** The bottle size of a row in millilitres, as the calculator reads it. */
  function BottleMlOf(row: Row): (ml: real)
    ensures ml == 750.0 || ml == 1000.0
  {
    NormalizeBottleMl(Get(row, BOTTLE_ML))
  }

  /** What one pour costs, exactly: the bottle cost times the pour's share of the bottle.
      The reference for the calculator's first column. */
  function ExactCost(row: Row): real
  {
    CostOfPour(BottleCostOf(row), PourMl(PourOzOf(row)), BottleMlOf(row))
  }

  /** The cost of pouring `pourMl` from a bottle of `bottleMl` that cost `bottleCost`. */
  function CostOfPour(bottleCost: real, pourMl: real, bottleMl: real): real
    requires bottleMl != 0.0
  {
    bottleCost * (pourMl / bottleMl)
  }

  /** The menu price of which the exact cost is the target share. */
  function TargetPrice(row: Row, s: Settings): real
    requires s.targetPct > 0.0
  {
    ExactCost(row) / (s.targetPct / 100.0)
  }

  /** The unrounded figures of `calcRow` from its coerced inputs. Nothing is computed when
      the bottle or the pour is not positive; the percentage needs a positive price and the
      suggestion a positive target; a non-zero increment rounds the suggestion to a multiple
      of it. */
  function Figures(bottleMl: real, bottleCost: real, pourOz: real, menuPrice: real, s: Settings): (d: Derived)
    ensures pourOz <= 0.0 ==> d == Derived(0.0, 0.0, 0.0)
    ensures menuPrice <= 0.0 ==> d.pourCostPct == 0.0
    ensures s.targetPct <= 0.0 ==> d.suggestedPrice == 0.0
  {
    var pourMl := PourMl(pourOz);
    if bottleMl > 0.0 && pourMl > 0.0 then
      var cost := CostOfPour(bottleCost, pourMl, bottleMl);
      Derived(cost, PctOf(cost, menuPrice), SuggestedOf(cost, s))
    else Derived(0.0, 0.0, 0.0)
  }

  function PctOf(cost: real, menuPrice: real): real
  {
    if menuPrice > 0.0 then (cost / menuPrice) * 100.0 else 0.0
  }

  function SuggestedOf(cost: real, s: Settings): real
  {
    if s.targetPct > 0.0 then
      var rawPrice := cost / (s.targetPct / 100.0);
      if s.increment != 0.0 then RoundToIncrement(rawPrice, s.increment) else rawPrice
    else 0.0
  }

  /** The figures as stored: `Number(x.toFixed(2))`, `toFixed(1)` and `toFixed(2)`. */
  function Rounded(d: Derived): (r: Derived)
    ensures d == Derived(0.0, 0.0, 0.0) ==> r == d
    ensures d.pourCostPct == 0.0 ==> r.pourCostPct == 0.0
    ensures d.suggestedPrice == 0.0 ==> r.suggestedPrice == 0.0
  {
    ZeroRoundsToZero();
    Derived(Round2(d.costPerPour), Round1(d.pourCostPct), Round2(d.suggestedPrice))
  }

  /** `calcRow`: cost per pour, pour cost percentage and suggested price of a row. */
  function CalcRow(row: Row, s: Settings): (d: Derived)
    ensures PourOzOf(row) <= 0.0 ==> d == Derived(0.0, 0.0, 0.0)
    ensures MenuPriceOf(row) <= 0.0 ==> d.pourCostPct == 0.0
    ensures s.targetPct <= 0.0 ==> d.suggestedPrice == 0.0
  {
    Rounded(Figures(BottleMlOf(row), BottleCostOf(row), PourOzOf(row), MenuPriceOf(row), s))
  }

  lemma ZeroRoundsToZero()
    ensures Round2(0.0) == 0.0 && Round1(0.0) == 0.0
  {
    assert Pow10(2) == 100.0 && Pow10(1) == 10.0;
  }

  /** `toFixed(2)` of a non-negative x whose hundredfold lies within half of k. */
  lemma Round2Of(x: real, k: int)
    requires 0.0 <= x < FIXED_LIMIT && k as real - 0.5 <= x * 100.0 < k as real + 0.5
    ensures Round2(x) == k as real / 100.0
  {
    assert Pow10(2) == 100.0;
    FloorBelow(x * 100.0 + 0.5, k);
  }

  /** `toFixed(1)` of a non-negative x whose tenfold lies within half of k. */
  lemma Round1Of(x: real, k: int)
    requires 0.0 <= x < FIXED_LIMIT && k as real - 0.5 <= x * 10.0 < k as real + 0.5
    ensures Round1(x) == k as real / 10.0
  {
    assert Pow10(1) == 10.0;
    FloorBelow(x * 10.0 + 0.5, k);
  }

  /** The raw (unrounded) values the calculator works with, when the pour is positive. */
  lemma CalcRowUnrounded(row: Row, s: Settings)
    requires PourOzOf(row) > 0.0
    ensures CalcRow(row, s).costPerPour == Round2(ExactCost(row))
    ensures MenuPriceOf(row) > 0.0 ==>
              CalcRow(row, s).pourCostPct == Round1(ExactCost(row) / MenuPriceOf(row) * 100.0)
    ensures s.targetPct > 0.0 && s.increment != 0.0 ==>
              CalcRow(row, s).suggestedPrice == Round2(RoundToIncrement(TargetPrice(row, s), s.increment))
    ensures s.targetPct > 0.0 && s.increment == 0.0 ==>
              CalcRow(row, s).suggestedPrice == Round2(TargetPrice(row, s))
  {
    var f := Figures(BottleMlOf(row), BottleCostOf(row), PourOzOf(row), MenuPriceOf(row), s);
    assert f == Derived(ExactCost(row), PctOf(ExactCost(row), MenuPriceOf(row)), SuggestedOf(ExactCost(row), s));
  }

  /** The cost per pour is the exact cost to the nearest cent. */
  lemma CostPerPourNearestCent(row: Row, s: Settings)
    requires PourOzOf(row) > 0.0
    ensures Abs(CalcRow(row, s).costPerPour - ExactCost(row)) <= 0.005
    ensures Abs(ExactCost(row)) < FIXED_LIMIT ==> WholeUnits(CalcRow(row, s).costPerPour, 100.0)
  {
    CalcRowUnrounded(row, s);
    ToFixedNearest(ExactCost(row), 2);
    assert Pow10(2) == 100.0;
  }

  /** The pour cost percentage is taken from the unrounded cost, not from the rounded cost
      shown in the sheet: it is within 0.05 of the exact share of the price. */
  lemma PourCostPctFromExactCost(row: Row, s: Settings)
    requires PourOzOf(row) > 0.0 && MenuPriceOf(row) > 0.0
    ensures Abs(CalcRow(row, s).pourCostPct - ExactCost(row) / MenuPriceOf(row) * 100.0) <= 0.05
  {
    CalcRowUnrounded(row, s);
    ToFixedNearest(ExactCost(row) / MenuPriceOf(row) * 100.0, 1);
    assert Pow10(1) == 10.0;
  }

  /** At the unrounded target price, the cost is exactly the target share of the price. */
  lemma TargetPriceMeetsTarget(row: Row, s: Settings)
    requires s.targetPct > 0.0 && ExactCost(row) != 0.0
    ensures ExactCost(row) / TargetPrice(row, s) * 100.0 == s.targetPct
  {
    TargetShare(ExactCost(row), s.targetPct);
  }

  lemma TargetShare(e: real, t: real)
    requires t > 0.0 && e != 0.0
    ensures e / (e / (t / 100.0)) * 100.0 == t
  {
    assert e / (t / 100.0) == e * (100.0 / t);
    assert e / (e * (100.0 / t)) == t / 100.0;
  }

  /** Without a positive increment the suggested price is the target price to the cent. */
  lemma SuggestedPriceWithoutIncrement(row: Row, s: Settings)
    requires PourOzOf(row) > 0.0 && s.targetPct > 0.0 && s.increment <= 0.0
    ensures Abs(CalcRow(row, s).suggestedPrice - TargetPrice(row, s)) <= 0.005
  {
    CalcRowUnrounded(row, s);
    ToFixedNearest(TargetPrice(row, s), 2);
    assert Pow10(2) == 100.0;
  }

  /** `toFixed(2)` leaves a whole number of cents as it is. */
  lemma Round2KeepsCents(x: real)
    requires WholeUnits(x, 100.0)
    ensures Round2(x) == x
  {
    assert Pow10(2) == 100.0;
    if x >= 0.0 {
      if x < FIXED_LIMIT {
        var k := (x * 100.0).Floor;
        assert (x * 100.0 + 0.5).Floor == k;
        DivMulCancel(x, 100.0);
      }
    } else {
      WholeUnitsNegate(x, 100.0);
      if -x < FIXED_LIMIT {
        var k := (-x * 100.0).Floor;
        assert (-x * 100.0 + 0.5).Floor == k;
        DivMulCancel(-x, 100.0);
      }
    }
  }

  /** With an increment of whole cents (0.25 by default) the suggested price is a multiple of
      the increment, at most half an increment from the target price. */
  lemma SuggestedPriceOnIncrement(row: Row, s: Settings)
    requires PourOzOf(row) > 0.0 && s.targetPct > 0.0 && s.increment > 0.0
    requires WholeUnits(s.increment, 100.0)
    ensures IsMultipleOf(CalcRow(row, s).suggestedPrice, s.increment)
    ensures TargetPrice(row, s) - s.increment / 2.0 < CalcRow(row, s).suggestedPrice
            <= TargetPrice(row, s) + s.increment / 2.0
  {
    CalcRowUnrounded(row, s);
    IncrementKeepsCents(TargetPrice(row, s), s.increment);
  }

  /** A multiple of a whole number of cents is itself a whole number of cents, which
      `toFixed(2)` keeps. */
  lemma IncrementKeepsCents(x: real, increment: real)
    requires increment > 0.0 && WholeUnits(increment, 100.0)
    ensures Round2(RoundToIncrement(x, increment)) == RoundToIncrement(x, increment)
  {
    var q := RoundToIncrement(x, increment);
    var k := (q / increment).Floor;
    assert q == (k as real) * increment by {
      DivMulCancel(q, increment);
    }
    var m := (increment * 100.0).Floor;
    assert q * 100.0 == (k as real) * (m as real);
    IntegralMul(k, m);
    assert ((k * m) as real).Floor == k * m;
    Round2KeepsCents(q);
  }

  /** A bottle that costs nothing or more gives no negative figure. */
  lemma DerivedNonNegative(row: Row, s: Settings)
    requires BottleCostOf(row) >= 0.0
    ensures CalcRow(row, s).costPerPour >= 0.0
    ensures CalcRow(row, s).pourCostPct >= 0.0
    ensures CalcRow(row, s).suggestedPrice >= 0.0
  {
    if PourOzOf(row) > 0.0 {
      CostNonNegative(row, s);
      PctNonNegative(row, s);
      SuggestedNonNegative(row, s);
    }
  }

  lemma CostNonNegative(row: Row, s: Settings)
    requires BottleCostOf(row) >= 0.0 && PourOzOf(row) > 0.0
    ensures CalcRow(row, s).costPerPour >= 0.0
  {
    CalcRowUnrounded(row, s);
    ExactCostNonNegative(row);
  }

  lemma PctNonNegative(row: Row, s: Settings)
    requires BottleCostOf(row) >= 0.0 && PourOzOf(row) > 0.0
    ensures CalcRow(row, s).pourCostPct >= 0.0
  {
    CalcRowUnrounded(row, s);
    ExactCostNonNegative(row);
    if MenuPriceOf(row) > 0.0 {
      NonNegativeQuotient(ExactCost(row), MenuPriceOf(row));
    }
  }

  lemma SuggestedNonNegative(row: Row, s: Settings)
    requires BottleCostOf(row) >= 0.0 && PourOzOf(row) > 0.0
    ensures CalcRow(row, s).suggestedPrice >= 0.0
  {
    CalcRowUnrounded(row, s);
    ExactCostNonNegative(row);
    if s.targetPct > 0.0 {
      NonNegativeQuotient(ExactCost(row), s.targetPct / 100.0);
    }
  }

  lemma ExactCostNonNegative(row: Row)
    requires BottleCostOf(row) >= 0.0 && PourOzOf(row) > 0.0
    ensures ExactCost(row) >= 0.0
  {
    NonNegativeShare(BottleCostOf(row), PourMl(PourOzOf(row)), BottleMlOf(row));
  }

  lemma NonNegativeShare(c: real, p: real, b: real)
    requires c >= 0.0 && p > 0.0 && b > 0.0
    ensures c * (p / b) >= 0.0
  {
    assert p / b > 0.0;
  }

  lemma NonNegativeQuotient(a: real, b: real)
    requires a >= 0.0 && b > 0.0
    ensures a / b >= 0.0 && a / b * 100.0 >= 0.0
  {
  }

  /** A row with only its menu price replaced. */
  function WithPrice(row: Row, price: real): (r: Row)
    ensures Get(r, MENU_PRICE) == Num(price)
    ensures forall k :: k != MENU_PRICE ==> Get(r, k) == Get(row, k)
  {
    row[MENU_PRICE := Num(price)]
  }

  /** From a positive menu price, with a non-negative bottle cost, raising the price never
      raises the pour cost percentage. */
  lemma PourCostPctNonIncreasing(row: Row, p1: real, p2: real, s: Settings)
    requires BottleCostOf(row) >= 0.0 && 0.0 < p1 <= p2
    ensures CalcRow(WithPrice(row, p2), s).pourCostPct <= CalcRow(WithPrice(row, p1), s).pourCostPct
  {
    var r1, r2 := WithPrice(row, p1), WithPrice(row, p2);
    PriceLeavesCost(row, p1);
    PriceLeavesCost(row, p2);
    if PourOzOf(row) > 0.0 {
      CalcRowUnrounded(r1, s);
      CalcRowUnrounded(r2, s);
      ExactCostNonNegative(row);
      ShareFalls(ExactCost(row), p1, p2);
    }
  }

  /** Replacing the price leaves the pour and the exact cost as they were. */
  lemma PriceLeavesCost(row: Row, p: real)
    ensures PourOzOf(WithPrice(row, p)) == PourOzOf(row) && BottleCostOf(WithPrice(row, p)) == BottleCostOf(row)
    ensures ExactCost(WithPrice(row, p)) == ExactCost(row) && MenuPriceOf(WithPrice(row, p)) == p
  {
    var r := WithPrice(row, p);
    assert MENU_PRICE != BOTTLE_ML && MENU_PRICE != UNIT_COST && MENU_PRICE != POUR_OZ;
    SameCostInputs(r, row);
  }

  /** Rows that agree on bottle size, bottle cost and pour agree on the exact cost. */
  lemma SameCostInputs(r1: Row, r2: Row)
    requires Get(r1, BOTTLE_ML) == Get(r2, BOTTLE_ML) && Get(r1, UNIT_COST) == Get(r2, UNIT_COST)
    requires Get(r1, POUR_OZ) == Get(r2, POUR_OZ)
    ensures PourOzOf(r1) == PourOzOf(r2) && BottleCostOf(r1) == BottleCostOf(r2)
    ensures ExactCost(r1) == ExactCost(r2)
  {
  }

  /** The rounded share of a non-negative cost falls as the price rises. */
  lemma ShareFalls(e: real, p1: real, p2: real)
    requires e >= 0.0 && 0.0 < p1 <= p2
    ensures Round1(e / p2 * 100.0) <= Round1(e / p1 * 100.0)
  {
    DivAntitone(e, p1, p2);
    MulMonotone(e / p2, e / p1, 100.0);
    ToFixedMonotone(e / p2 * 100.0, e / p1 * 100.0, 1);
  }

  lemma DivAntitone(e: real, p1: real, p2: real)
    requires e >= 0.0 && 0.0 < p1 <= p2
    ensures e / p2 <= e / p1
  {
    var a, b := e / p1, e / p2;
    assert a * p1 == e;
    assert b * p2 == e;
    assert b * p1 <= b * p2;
  }

  /** A row as the sample data writes it: item, bottle size, bottle cost, pour and price. */
  function SampleRow(item: string, bottleMl: real, bottleCost: real, pourOz: real, price: real): Row
  {
    map[ITEM := Text(item), BOTTLE_ML := Num(bottleMl), UNIT_COST := Num(bottleCost),
        POUR_OZ := Num(pourOz), MENU_PRICE := Num(price)]
  }

  /** The calculator on a sample row works on the row's own numbers. */
  lemma SampleCalc(item: string, bottleMl: real, bottleCost: real, pourOz: real, price: real, s: Settings)
    ensures CalcRow(SampleRow(item, bottleMl, bottleCost, pourOz, price), s)
            == Rounded(Figures(NormalizeBottleMl(Num(bottleMl)), bottleCost, pourOz, price, s))
  {
    var r := SampleRow(item, bottleMl, bottleCost, pourOz, price);
    assert Get(r, BOTTLE_ML) == Num(bottleMl) && Get(r, UNIT_COST) == Num(bottleCost);
    assert Get(r, POUR_OZ) == Num(pourOz) && Get(r, MENU_PRICE) == Num(price);
  }

  /** Cost of a 1.5 oz pour of the sample vodka (14.75 for 750 ml). */
  const VODKA_POUR: real := 0.87241825

  /** Where the vodka row's exact share is below 99.95 % (k < 1000), its percentage is the
      tenth of a percent nearest that share. */
  lemma VodkaPct(price: real, k: int)
    requires 0.0 < price && 0 <= k < 1000
    requires k as real - 0.5 <= VODKA_POUR / price * 1000.0 < k as real + 0.5
    ensures CalcRow(SampleRow("Vodka", 750.0, 14.75, 1.5, price), Settings(11.5, 0.25)).pourCostPct
            == k as real / 10.0
  {
    SampleCalc("Vodka", 750.0, 14.75, 1.5, price, Settings(11.5, 0.25));
    assert 14.75 * (PourMl(1.5) / 750.0) == VODKA_POUR;
    NonNegativeQuotient(VODKA_POUR, price);
    Round1Of(VODKA_POUR / price * 100.0, k);
  }

  /** Raising the price does not always lower the shown percentage: at 9 and at 9.01 the
      vodka row shows 9.7 % both times. */
  lemma PourCostPctNotStrictlyDecreasing()
    ensures CalcRow(SampleRow("Vodka", 750.0, 14.75, 1.5, 9.0), Settings(11.5, 0.25)).pourCostPct == 9.7
    ensures CalcRow(SampleRow("Vodka", 750.0, 14.75, 1.5, 9.01), Settings(11.5, 0.25)).pourCostPct == 9.7
  {
    VodkaPct(9.0, 97);
    VodkaPct(9.01, 97);
  }

  // ----- Recalculation of the sheet -----

  /** The row with the three derived fields set, every other field kept. */
  function WithDerived(row: Row, d: Derived): (r: Row)
    ensures r.Keys == row.Keys + DERIVED_KEYS
    ensures Get(r, COST_PER_POUR) == Num(d.costPerPour)
    ensures Get(r, POUR_COST_PCT) == Num(d.pourCostPct)
    ensures Get(r, SUGGESTED_PRICE) == Num(d.suggestedPrice)
    ensures forall k :: k !in DERIVED_KEYS ==> Get(r, k) == Get(row, k)
  {
    row[COST_PER_POUR := Num(d.costPerPour)][POUR_COST_PCT := Num(d.pourCostPct)]
       [SUGGESTED_PRICE := Num(d.suggestedPrice)]
  }

  /** The stored derived fields of a row are those its inputs give. */
  predicate Consistent(row: Row, s: Settings)
  {
    var d := CalcRow(row, s);
    Get(row, COST_PER_POUR) == Num(d.costPerPour) && Get(row, POUR_COST_PCT) == Num(d.pourCostPct)
    && Get(row, SUGGESTED_PRICE) == Num(d.suggestedPrice)
  }

  /** The stored bottle size is one of the two canonical numbers. */
  predicate CanonicalBottle(row: Row)
  {
    Get(row, BOTTLE_ML) == Num(750.0) || Get(row, BOTTLE_ML) == Num(1000.0)
  }

  /** The calculator reads only the bottle size (through the normaliser), the bottle cost, the
      pour and the price. */
  lemma CalcRowReadsInputs(r1: Row, r2: Row, s: Settings)
    requires BottleMlOf(r1) == BottleMlOf(r2)
    requires Get(r1, UNIT_COST) == Get(r2, UNIT_COST) && Get(r1, POUR_OZ) == Get(r2, POUR_OZ)
    requires Get(r1, MENU_PRICE) == Get(r2, MENU_PRICE)
    ensures CalcRow(r1, s) == CalcRow(r2, s)
  {
  }

  /** Whether a row is consistent depends only on its four inputs and three derived fields. */
  lemma ConsistentReadsFields(r1: Row, r2: Row, s: Settings)
    requires Get(r1, BOTTLE_ML) == Get(r2, BOTTLE_ML) && Get(r1, UNIT_COST) == Get(r2, UNIT_COST)
    requires Get(r1, POUR_OZ) == Get(r2, POUR_OZ) && Get(r1, MENU_PRICE) == Get(r2, MENU_PRICE)
    requires Get(r1, COST_PER_POUR) == Get(r2, COST_PER_POUR)
    requires Get(r1, POUR_COST_PCT) == Get(r2, POUR_COST_PCT)
    requires Get(r1, SUGGESTED_PRICE) == Get(r2, SUGGESTED_PRICE)
    ensures Consistent(r1, s) <==> Consistent(r2, s)
  {
    CalcRowReadsInputs(r1, r2, s);
  }

  /** Writing the derived fields does not change what the calculator computes. */
  lemma WithDerivedConsistent(row: Row, s: Settings)
    ensures Consistent(WithDerived(row, CalcRow(row, s)), s)
  {
    CalcRowReadsInputs(WithDerived(row, CalcRow(row, s)), row, s);
  }

  /** One element of `recalcAll`: the row with a canonical bottle size and fresh derived fields. */
  function RecalcRow(row: Row, s: Settings): (r: Row)
    ensures r.Keys == row.Keys + RECALC_KEYS
    ensures forall k :: k !in RECALC_KEYS ==> Get(r, k) == Get(row, k)
    ensures Get(r, BOTTLE_ML) == Num(BottleMlOf(row))
    ensures Consistent(r, s) && CanonicalBottle(r)
    ensures CalcRow(r, s) == CalcRow(row, s)
  {
    var computed := CalcRow(row, s);
    var bottled := row[BOTTLE_ML := Num(BottleMlOf(row))];
    NormalizeIdempotent(Get(row, BOTTLE_ML));
    CalcRowReadsInputs(bottled, row, s);
    WithDerivedConsistent(bottled, s);
    WithDerived(bottled, computed)
  }

  /** `recalcAll`: every row recalculated, in order. */
  function RecalcAll(rows: seq<Row>, s: Settings): (out: seq<Row>)
    ensures |out| == |rows|
    ensures forall i :: 0 <= i < |rows| ==> out[i] == RecalcRow(rows[i], s)
  {
    seq(|rows|, i requires 0 <= i < |rows| => RecalcRow(rows[i], s))
  }

  /** A recalculated sheet is consistent, with canonical bottles and every other field kept. */
  lemma RecalcAllConsistent(rows: seq<Row>, s: Settings, i: nat, k: string)
    requires i < |rows|
    ensures Consistent(RecalcAll(rows, s)[i], s) && CanonicalBottle(RecalcAll(rows, s)[i])
    ensures k !in RECALC_KEYS ==>
              (k in RecalcAll(rows, s)[i] <==> k in rows[i]) && Get(RecalcAll(rows, s)[i], k) == Get(rows[i], k)
  {
  }

  /** Recalculation leaves a row as it is exactly when the row already holds its derived
      fields, consistent with its inputs, and a canonical bottle size. */
  lemma RecalcRowFixed(row: Row, s: Settings)
    ensures RecalcRow(row, s) == row <==> RECALC_KEYS <= row.Keys && Consistent(row, s) && CanonicalBottle(row)
  {
    var rr := RecalcRow(row, s);
    if RECALC_KEYS <= row.Keys && Consistent(row, s) && CanonicalBottle(row) {
      assert Get(rr, BOTTLE_ML) == Get(row, BOTTLE_ML);
      assert rr.Keys == row.Keys;
      forall k | k in row
        ensures rr[k] == row[k]
      {
        assert Get(rr, k) == Get(row, k);
      }
    }
  }

  /** A row already recalculated is not changed by recalculating it again. */
  lemma RecalcRowIdempotent(row: Row, s: Settings)
    ensures RecalcRow(RecalcRow(row, s), s) == RecalcRow(row, s)
  {
    RecalcRowFixed(RecalcRow(row, s), s);
  }

  /** `recalcAll` is idempotent. */
  lemma RecalcAllIdempotent(rows: seq<Row>, s: Settings)
    ensures RecalcAll(RecalcAll(rows, s), s) == RecalcAll(rows, s)
  {
    forall i | 0 <= i < |rows|
      ensures RecalcAll(RecalcAll(rows, s), s)[i] == RecalcAll(rows, s)[i]
    {
      RecalcRowIdempotent(rows[i], s);
    }
  }

  // ----- Migration, saving and loading -----

  /** What `JSON.parse` gave for a location: an array of row objects, or any other value. */
  datatype Stored = Rows(rows: seq<Row>) | NotArray

  /** A row that has one of the fields the old schema lacks. */
  predicate HasNewField(row: Row)
  {
    POUR_OZ in row || MENU_PRICE in row || SUGGESTED_PRICE in row
  }

  /** The fields whose presence marks a row of the current schema. */
  const NEW_FIELDS: set<string> := {POUR_OZ, MENU_PRICE, SUGGESTED_PRICE}

  /** A new field counts by its presence, whatever it holds (null included); a row without one
      reads all three as null. */
  lemma NewFieldByPresence(row: Row, k: string, v: Val)
    ensures HasNewField(row) <==> exists f :: f in NEW_FIELDS && f in row
    ensures k in NEW_FIELDS ==> HasNewField(row[k := v])
    ensures !HasNewField(row) ==> forall f :: f in NEW_FIELDS ==> Get(row, f) == Null
  {
    if HasNewField(row) {
      var f :| f in {POUR_OZ, MENU_PRICE, SUGGESTED_PRICE} && f in row;
    }
  }

  /** The collection counts as current as soon as one row has a new field. */
  predicate AnyHasNewField(rows: seq<Row>)
  {
    exists i :: 0 <= i < |rows| && HasNewField(rows[i])
  }

  /** One old-schema row in the current schema: the item (null and missing become ""), a
      750 ml bottle, the bottle cost as `Number`, a 1.5 oz pour and a blank price; quantity and
      total are dropped. */
  function MigrateRow(row: Row): (r: Row)
    ensures r.Keys == {ITEM, BOTTLE_ML, UNIT_COST, POUR_OZ, MENU_PRICE}
    ensures HasNewField(r) && QTY !in r && TOTAL !in r
  {
    map[ITEM := (if Get(row, ITEM).Null? then Text("") else Get(row, ITEM)),
        BOTTLE_ML := Num(750.0),
        UNIT_COST := NumberValue(Get(row, UNIT_COST)),
        POUR_OZ := Num(1.5),
        MENU_PRICE := Text("")]
  }

  /** `migrateIfNeeded`: anything but an array gives no rows; a collection with a new field
      anywhere is kept as it is; otherwise every row is converted. */
  function Migrate(stored: Stored): (out: seq<Row>)
    ensures stored.NotArray? ==> out == []
    ensures stored.Rows? ==> |out| == |stored.rows|
    ensures stored.Rows? && AnyHasNewField(stored.rows) ==> out == stored.rows
    ensures stored.Rows? && !AnyHasNewField(stored.rows) ==>
              forall i :: 0 <= i < |out| ==> out[i] == MigrateRow(stored.rows[i])
  {
    match stored
    case NotArray => []
    case Rows(rows) =>
      if AnyHasNewField(rows) then rows
      else seq(|rows|, i requires 0 <= i < |rows| => MigrateRow(rows[i]))
  }

  /** Migrating a migrated collection changes nothing. */
  lemma MigrateIdempotent(stored: Stored)
    ensures Migrate(Rows(Migrate(stored))) == Migrate(stored)
  {
    var out := Migrate(stored);
    if |out| > 0 {
      if stored.Rows? && !AnyHasNewField(stored.rows) {
        assert HasNewField(out[0]);
      } else {
        assert stored.Rows? && AnyHasNewField(stored.rows);
      }
      assert AnyHasNewField(out);
    }
  }

  /** A converted row is priced as one 1.5 oz pour of a 750 ml bottle of its old bottle cost,
      with a blank (zero) price. */
  lemma MigratedRowFigures(row: Row, s: Settings)
    ensures CalcRow(MigrateRow(row), s)
            == Rounded(Figures(750.0, CoerceNumber(NumberValue(Get(row, UNIT_COST))), 1.5, 0.0, s))
    ensures CalcRow(MigrateRow(row), s).pourCostPct == 0.0
  {
    var r := MigrateRow(row);
    BlankTextIsZero();
    assert Get(r, MENU_PRICE) == Text("") && Get(r, POUR_OZ) == Num(1.5);
    assert Get(r, BOTTLE_ML) == Num(750.0);
    assert Get(r, UNIT_COST) == NumberValue(Get(row, UNIT_COST));
  }

  /** The old-schema record of the examples: gin, bottle cost 18, quantity 2, total 36. */
  const OLD_GIN: Row := map[ITEM := Text("Gin"), UNIT_COST := Num(18.0), QTY := Num(2.0), TOTAL := Num(36.0)]

  /** A collection mixing an old-schema row with a current one is not migrated at all: the
      old row keeps its quantity and total and, having no pour, gets zero figures. */
  lemma MixedCollectionNotMigrated(s: Settings)
    ensures var out := Load(Rows([OLD_GIN, SampleRow("Vodka", 750.0, 14.75, 1.5, 9.0)]), s);
            |out| == 2 && Get(out[0], QTY) == Num(2.0) && Get(out[0], TOTAL) == Num(36.0)
            && Shows(out[0], Derived(0.0, 0.0, 0.0))
  {
    var vodka := SampleRow("Vodka", 750.0, 14.75, 1.5, 9.0);
    assert HasNewField(vodka) by { assert POUR_OZ in vodka; }
    assert PourOzOf(OLD_GIN) == 0.0 by { assert Get(OLD_GIN, POUR_OZ) == Null; }
    assert Get(OLD_GIN, QTY) == Num(2.0) && Get(OLD_GIN, TOTAL) == Num(36.0);
    assert QTY !in RECALC_KEYS && TOTAL !in RECALC_KEYS;
    LoadMixed(OLD_GIN, vodka, s);
  }

  /** A pair of an old-schema row without a pour and a current row loads without migration:
      the old row gets zero figures and keeps every field recalculation does not write. */
  lemma LoadMixed(stale: Row, current: Row, s: Settings)
    requires HasNewField(current) && PourOzOf(stale) <= 0.0
    ensures var out := Load(Rows([stale, current]), s);
            |out| == 2 && Shows(out[0], Derived(0.0, 0.0, 0.0))
            && forall k :: k !in RECALC_KEYS ==> Get(out[0], k) == Get(stale, k)
  {
    var rows := [stale, current];
    assert HasNewField(rows[1]);
    assert Load(Rows(rows), s)[0] == RecalcRow(stale, s);
    NoPourRecalculated(stale, s);
  }

  /** A row without a positive pour is recalculated to zero figures, its other fields kept. */
  lemma NoPourRecalculated(row: Row, s: Settings)
    requires PourOzOf(row) <= 0.0
    ensures Shows(RecalcRow(row, s), Derived(0.0, 0.0, 0.0))
    ensures forall k :: k !in RECALC_KEYS ==> Get(RecalcRow(row, s), k) == Get(row, k)
  {
  }

  /** The gin record converted and recalculated at the default settings: 1.06 a pour, no
      percentage and a suggested price of 9.25, with quantity and total gone. */
  lemma OldRecordMigrated()
    ensures var out := Load(Rows([OLD_GIN]), Settings(11.5, 0.25));
            |out| == 1 && Get(out[0], COST_PER_POUR) == Num(1.06) && Get(out[0], POUR_COST_PCT) == Num(0.0)
            && Get(out[0], SUGGESTED_PRICE) == Num(9.25) && Get(out[0], POUR_OZ) == Num(1.5)
            && QTY !in out[0] && TOTAL !in out[0]
  {
    var s := Settings(11.5, 0.25);
    assert !HasNewField(OLD_GIN);
    LoadOldRecord(OLD_GIN, s);
    ConvertedRecalculated(OLD_GIN, s);
    GinConverted();
  }

  /** A collection of one old-schema record loads as that record converted and recalculated. */
  lemma LoadOldRecord(row: Row, s: Settings)
    requires !HasNewField(row)
    ensures Load(Rows([row]), s) == [RecalcRow(MigrateRow(row), s)]
  {
    assert !AnyHasNewField([row]);
    assert Migrate(Rows([row])) == [MigrateRow(row)];
  }

  /** A converted row, recalculated: its own figures, the converted pour, and no quantity
      or total. */
  lemma ConvertedRecalculated(row: Row, s: Settings)
    ensures var o := RecalcRow(MigrateRow(row), s);
            Shows(o, CalcRow(MigrateRow(row), s))
            && Get(o, POUR_OZ) == Num(1.5) && QTY !in o && TOTAL !in o
  {
    var r := MigrateRow(row);
    var o := RecalcRow(r, s);
    assert QTY !in RECALC_KEYS && TOTAL !in RECALC_KEYS && POUR_OZ !in RECALC_KEYS;
    assert Get(o, POUR_OZ) == Get(r, POUR_OZ);
  }

  /** The converted gin record's figures at the default settings. */
  lemma GinConverted()
    ensures CalcRow(MigrateRow(OLD_GIN), Settings(11.5, 0.25)) == Derived(1.06, 0.0, 9.25)
  {
    assert Get(OLD_GIN, UNIT_COST) == Num(18.0);
    MigratedRowFigures(OLD_GIN, Settings(11.5, 0.25));
    GinFigures();
  }

  lemma GinFigures()
    ensures Rounded(Figures(750.0, 18.0, 1.5, 0.0, Settings(11.5, 0.25))) == Derived(1.06, 0.0, 9.25)
  {
    var f := Figures(750.0, 18.0, 1.5, 0.0, Settings(11.5, 0.25));
    assert f.costPerPour == 1.064646;
    assert MathRound(1.064646 / (11.5 / 100.0) / 0.25) == 37;
    assert f.suggestedPrice == 9.25;
    Round2Of(1.064646, 106);
    Round2Of(9.25, 925);
    ZeroRoundsToZero();
  }

  /** What a save writes: the location's storage key and the recalculated rows. */
  datatype Saved = Saved(key: string, rows: seq<Row>)

  /** `saveData`: the rows are recalculated before they are written under the location's key. */
  function SaveData(locationId: string, data: seq<Row>, s: Settings): (w: Saved)
    ensures w.key == StorageKey(locationId) && |w.rows| == |data|
    ensures forall i :: 0 <= i < |data| ==> Consistent(w.rows[i], s) && CanonicalBottle(w.rows[i])
  {
    Saved(StorageKey(locationId), RecalcAll(data, s))
  }

  /** `loadData` once the stored text is parsed: migration, then recalculation. A missing
      entry or text that does not parse gives no rows before this point. */
  function Load(stored: Stored, s: Settings): (rows: seq<Row>)
    ensures stored.NotArray? ==> rows == []
    ensures stored.Rows? ==> |rows| == |stored.rows|
    ensures forall i :: 0 <= i < |rows| ==> Consistent(rows[i], s) && CanonicalBottle(rows[i])
  {
    RecalcAll(Migrate(stored), s)
  }

  /** Loading what a save wrote, under the same settings, gives back exactly the saved rows. */
  lemma SaveThenLoad(locationId: string, data: seq<Row>, s: Settings)
    ensures Load(Rows(SaveData(locationId, data, s).rows), s) == SaveData(locationId, data, s).rows
  {
    var saved := SaveData(locationId, data, s).rows;
    if |saved| > 0 {
      assert SUGGESTED_PRICE in saved[0];
      assert AnyHasNewField(saved);
    }
    RecalcAllIdempotent(data, s);
  }

  /** The sample rows: vodka, tequila blanco and limoncello. */
  const EXAMPLE_INPUTS: seq<Row> := [
    SampleRow("Vodka", 750.0, 14.75, 1.5, 9.0),
    SampleRow("Tequila Blanco", 1000.0, 21.0, 1.5, 11.0),
    SampleRow("Limoncello", 750.0, 24.7, 1.0, 8.0)
  ]

  /** `createExampleRows`: the sample rows, recalculated. */
  function ExampleRows(s: Settings): (rows: seq<Row>)
    ensures |rows| == 3
    ensures forall i :: 0 <= i < 3 ==> Consistent(rows[i], s) && CanonicalBottle(rows[i])
  {
    RecalcAll(EXAMPLE_INPUTS, s)
  }

  /** At the default settings the example rows show, per row, cost per pour, pour cost % and
      suggested price: vodka 0.87, 9.7, 7.50; tequila 0.93, 8.5, 8.00; limoncello 0.97,
      12.2, 8.50. */
  lemma ExampleVodka()
    ensures Shows(ExampleRows(Settings(11.5, 0.25))[0], Derived(0.87, 9.7, 7.5))
  {
    VodkaFigures();
    ExampleShows(0, "Vodka", 750.0, 14.75, 1.5, 9.0, Derived(0.87, 9.7, 7.5));
  }

  lemma ExampleTequila()
    ensures Shows(ExampleRows(Settings(11.5, 0.25))[1], Derived(0.93, 8.5, 8.0))
  {
    TequilaFigures();
    ExampleShows(1, "Tequila Blanco", 1000.0, 21.0, 1.5, 11.0, Derived(0.93, 8.5, 8.0));
  }

  lemma ExampleLimoncello()
    ensures Shows(ExampleRows(Settings(11.5, 0.25))[2], Derived(0.97, 12.2, 8.5))
  {
    LimoncelloFigures();
    ExampleShows(2, "Limoncello", 750.0, 24.7, 1.0, 8.0, Derived(0.97, 12.2, 8.5));
  }

  lemma ExampleShows(i: nat, item: string, bottleMl: real, bottleCost: real, pourOz: real, price: real, d: Derived)
    requires i < 3 && EXAMPLE_INPUTS[i] == SampleRow(item, bottleMl, bottleCost, pourOz, price)
    requires Rounded(Figures(NormalizeBottleMl(Num(bottleMl)), bottleCost, pourOz, price, Settings(11.5, 0.25))) == d
    ensures Shows(ExampleRows(Settings(11.5, 0.25))[i], d)
  {
    SampleCalc(item, bottleMl, bottleCost, pourOz, price, Settings(11.5, 0.25));
  }

  /** The row holds exactly these derived figures. */
  predicate Shows(row: Row, d: Derived)
  {
    Get(row, COST_PER_POUR) == Num(d.costPerPour) && Get(row, POUR_COST_PCT) == Num(d.pourCostPct)
    && Get(row, SUGGESTED_PRICE) == Num(d.suggestedPrice)
  }

  lemma VodkaFigures()
    ensures Rounded(Figures(750.0, 14.75, 1.5, 9.0, Settings(11.5, 0.25))) == Derived(0.87, 9.7, 7.5)
  {
    var f := Figures(750.0, 14.75, 1.5, 9.0, Settings(11.5, 0.25));
    assert f.costPerPour == VODKA_POUR;
    assert MathRound(VODKA_POUR / (11.5 / 100.0) / 0.25) == 30;
    assert f.suggestedPrice == 7.5;
    Round2Of(VODKA_POUR, 87);
    Round1Of(VODKA_POUR / 9.0 * 100.0, 97);
    Round2Of(7.5, 750);
  }

  lemma TequilaFigures()
    ensures Rounded(Figures(1000.0, 21.0, 1.5, 11.0, Settings(11.5, 0.25))) == Derived(0.93, 8.5, 8.0)
  {
    var f := Figures(1000.0, 21.0, 1.5, 11.0, Settings(11.5, 0.25));
    assert f.costPerPour == 0.93156525;
    assert MathRound(0.93156525 / (11.5 / 100.0) / 0.25) == 32;
    assert f.suggestedPrice == 8.0;
    Round2Of(0.93156525, 93);
    Round1Of(0.93156525 / 11.0 * 100.0, 85);
    Round2Of(8.0, 800);
  }

  lemma LimoncelloFigures()
    ensures Rounded(Figures(750.0, 24.7, 1.0, 8.0, Settings(11.5, 0.25))) == Derived(0.97, 12.2, 8.5)
  {
    var f := Figures(750.0, 24.7, 1.0, 8.0, Settings(11.5, 0.25));
    var c := 24.7 * (29.5735 / 750.0);
    assert f.costPerPour == c;
    assert MathRound(c / (11.5 / 100.0) / 0.25) == 34;
    assert f.suggestedPrice == 8.5;
    Round2Of(c, 97);
    Round1Of(c / 8.0 * 100.0, 122);
    Round2Of(8.5, 850);
  }

  /** The rows a location opens with: its stored rows, or the examples when there are none. */
  function InitialRows(loaded: seq<Row>, s: Settings): (rows: seq<Row>)
    ensures |rows| > 0
    ensures |loaded| > 0 ==> rows == loaded
    ensures |loaded| == 0 ==> rows == ExampleRows(s)
  {
    if |loaded| > 0 then loaded else ExampleRows(s)
  }

  // ----- Editing -----

  predicate Tracked(c: Change) { c.prop in TRACKED_PROPS }

  /** Some change of the batch is to a tracked field. */
  predicate AnyTracked(cs: seq<Change>)
  {
    exists j :: 0 <= j < |cs| && Tracked(cs[j])
  }

  /** Some change of the batch is to a tracked field of row i. */
  predicate Touched(cs: seq<Change>, i: nat)
  {
    exists j :: 0 <= j < |cs| && cs[j].row == i && Tracked(cs[j])
  }

  /** Some change of the batch sets the bottle size of row i. */
  predicate BottleEdited(cs: seq<Change>, i: nat)
  {
    exists j :: 0 <= j < |cs| && cs[j].row == i && cs[j].prop == BOTTLE_ML
  }

  predicate InRange(cs: seq<Change>, n: nat)
  {
    forall j :: 0 <= j < |cs| ==> cs[j].row < n
  }

  /** The edited row after one tracked change: a new bottle size is normalised and stored,
      then the derived fields are recomputed. The other field the change names is already in
      the row: the grid writes it before the handler runs. */
  function EditRow(row: Row, c: Change, s: Settings): (r: Row)
    ensures Consistent(r, s)
    ensures r.Keys == row.Keys + DERIVED_KEYS + (if c.prop == BOTTLE_ML then {BOTTLE_ML} else {})
    ensures c.prop == BOTTLE_ML ==> Get(r, BOTTLE_ML) == Num(NormalizeBottleMl(c.newVal)) && CanonicalBottle(r)
    ensures c.prop != BOTTLE_ML ==> Get(r, BOTTLE_ML) == Get(row, BOTTLE_ML)
    ensures forall k :: k !in RECALC_KEYS ==> Get(r, k) == Get(row, k)
  {
    var r := if c.prop == BOTTLE_ML then row[BOTTLE_ML := Num(NormalizeBottleMl(c.newVal))] else row;
    WithDerivedConsistent(r, s);
    WithDerived(r, CalcRow(r, s))
  }

  /** The rows after one change; a change of an untracked field leaves them alone. */
  function ApplyChange(rows: seq<Row>, c: Change, s: Settings): (out: seq<Row>)
    requires c.row < |rows|
    ensures |out| == |rows|
    ensures !Tracked(c) ==> out == rows
    ensures Tracked(c) ==> out[c.row] == EditRow(rows[c.row], c, s) && Consistent(out[c.row], s)
    ensures forall i :: 0 <= i < |rows| && i != c.row ==> out[i] == rows[i]
  {
    if Tracked(c) then rows[c.row := EditRow(rows[c.row], c, s)] else rows
  }

  /** The rows after a batch of changes, applied in order. */
  function ApplyChanges(rows: seq<Row>, cs: seq<Change>, s: Settings): (out: seq<Row>)
    requires InRange(cs, |rows|)
    ensures |out| == |rows|
    decreases |cs|
  {
    if cs == [] then rows
    else ApplyChange(ApplyChanges(rows, cs[..|cs| - 1], s), cs[|cs| - 1], s)
  }

  /** The `afterChange` hook: unless the batch is missing or comes from a reload, every change
      of a tracked field recomputes its row in place; the result says whether the grid has to
      reload. */
  method AfterChange(data: array<Row>, changes: Option<seq<Change>>, source: string, s: Settings)
    returns (needsReload: bool)
    requires changes.Some? ==> InRange(changes.value, data.Length)
    modifies data
    ensures changes.None? || source == "loadData" ==> data[..] == old(data[..])
    ensures changes.Some? && source != "loadData" ==>
              data[..] == ApplyChanges(old(data[..]), changes.value, s)
    ensures needsReload <==> changes.Some? && source != "loadData" && AnyTracked(changes.value)
  {
    needsReload := false;
    if changes.None? || source == "loadData" {
      return;
    }
    var cs := changes.value;
    for n := 0 to |cs|
      invariant data[..] == ApplyChanges(old(data[..]), cs[..n], s)
      invariant needsReload <==> AnyTracked(cs[..n])
    {
      var c := cs[n];
      ghost var before := data[..];
      ApplyChangesStep(old(data[..]), cs, n, s);
      if c.prop in TRACKED_PROPS {
        var r := data[c.row];
        if c.prop == BOTTLE_ML {
          r := r[BOTTLE_ML := Num(NormalizeBottleMl(c.newVal))];
        }
        var computed := CalcRow(r, s);
        EditRowInPlace(before[c.row], c, s);
        data[c.row] := r[COST_PER_POUR := Num(computed.costPerPour)]
                        [POUR_COST_PCT := Num(computed.pourCostPct)]
                        [SUGGESTED_PRICE := Num(computed.suggestedPrice)];
        assert data[..] == before[c.row := EditRow(before[c.row], c, s)];
        needsReload := true;
      }
    }
    assert cs[..|cs|] == cs;
  }

  /** Applying the first n + 1 changes is applying the first n, then change n; the batch
      names a tracked field after that step iff it did before or change n does. */
  lemma ApplyChangesStep(rows: seq<Row>, cs: seq<Change>, n: nat, s: Settings)
    requires InRange(cs, |rows|) && n < |cs|
    ensures InRange(cs[..n], |rows|) && InRange(cs[..n + 1], |rows|)
    ensures ApplyChanges(rows, cs[..n + 1], s) == ApplyChange(ApplyChanges(rows, cs[..n], s), cs[n], s)
    ensures AnyTracked(cs[..n + 1]) <==> AnyTracked(cs[..n]) || Tracked(cs[n])
  {
    assert cs[..n + 1][..n] == cs[..n];
    assert cs[..n + 1][n] == cs[n];
  }

  /** The edit written out as the handler performs it: the bottle size first, then the three
      derived fields from the calculator's figures for the updated row. */
  lemma EditRowInPlace(row: Row, c: Change, s: Settings)
    ensures var r := if c.prop == BOTTLE_ML then row[BOTTLE_ML := Num(NormalizeBottleMl(c.newVal))] else row;
            EditRow(row, c, s) == r[COST_PER_POUR := Num(CalcRow(r, s).costPerPour)]
                                   [POUR_COST_PCT := Num(CalcRow(r, s).pourCostPct)]
                                   [SUGGESTED_PRICE := Num(CalcRow(r, s).suggestedPrice)]
  {
  }

  /** Whether a row is touched by a batch: by the batch without its last change, or by the
      last change. */
  lemma TouchedSplit(cs: seq<Change>, i: nat)
    requires cs != []
    ensures Touched(cs, i) <==> Touched(cs[..|cs| - 1], i) || (cs[|cs| - 1].row == i && Tracked(cs[|cs| - 1]))
    ensures BottleEdited(cs, i) <==> BottleEdited(cs[..|cs| - 1], i) || (cs[|cs| - 1].row == i && cs[|cs| - 1].prop == BOTTLE_ML)
  {
    var prefix := cs[..|cs| - 1];
    assert forall j :: 0 <= j < |prefix| ==> prefix[j] == cs[j];
  }

  /** Rows no tracked change names are not touched. */
  lemma {:induction false} ApplyChangesUntouched(rows: seq<Row>, cs: seq<Change>, s: Settings, i: nat)
    requires InRange(cs, |rows|) && i < |rows| && !Touched(cs, i)
    ensures ApplyChanges(rows, cs, s)[i] == rows[i]
    decreases |cs|
  {
    if cs != [] {
      var prefix := cs[..|cs| - 1];
      TouchedSplit(cs, i);
      ApplyChangesUntouched(rows, prefix, s, i);
    }
  }

  /** Every row a tracked change names ends up consistent. */
  lemma {:induction false} ApplyChangesConsistent(rows: seq<Row>, cs: seq<Change>, s: Settings, i: nat)
    requires InRange(cs, |rows|) && i < |rows| && Touched(cs, i)
    ensures Consistent(ApplyChanges(rows, cs, s)[i], s)
    decreases |cs|
  {
    var prefix := cs[..|cs| - 1];
    var c := cs[|cs| - 1];
    var mid := ApplyChanges(rows, prefix, s);
    TouchedSplit(cs, i);
    if c.row == i && Tracked(c) {
      var r := if c.prop == BOTTLE_ML then mid[i][BOTTLE_ML := Num(NormalizeBottleMl(c.newVal))] else mid[i];
      WithDerivedConsistent(r, s);
    } else {
      ApplyChangesConsistent(rows, prefix, s, i);
    }
  }

  /** Edits keep every field but the bottle size and the derived ones, and keep the bottle
      size unless a change sets it, in which case it becomes canonical. */
  lemma {:induction false} ApplyChangesKeepsInputs(rows: seq<Row>, cs: seq<Change>, s: Settings, i: nat, k: string)
    requires InRange(cs, |rows|) && i < |rows|
    ensures k !in RECALC_KEYS ==>
              (k in ApplyChanges(rows, cs, s)[i] <==> k in rows[i])
              && Get(ApplyChanges(rows, cs, s)[i], k) == Get(rows[i], k)
    ensures !BottleEdited(cs, i) ==> Get(ApplyChanges(rows, cs, s)[i], BOTTLE_ML) == Get(rows[i], BOTTLE_ML)
    ensures BottleEdited(cs, i) ==> CanonicalBottle(ApplyChanges(rows, cs, s)[i])
    decreases |cs|
  {
    if cs != [] {
      var prefix := cs[..|cs| - 1];
      var c := cs[|cs| - 1];
      ApplyChangesKeepsInputs(rows, prefix, s, i, k);
      TouchedSplit(cs, i);
    }
  }
}
