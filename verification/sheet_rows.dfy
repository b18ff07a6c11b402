/** Rows of the cost sheet as every version stores them: plain objects whose fields hold
    JSON values, read with the `?? 0` / `parseFloat` / `|| 0` coercions of the source. */
module SheetRows {
  import opened JsNumbers

  /** A field value: a JSON number, string, boolean or null. */
  datatype Val = Num(n: real) | Text(s: string) | Bool(b: bool) | Null

  /** A row object, from field name to value. */
  type Row = map<string, Val>

  const ITEM := "item"
  const BOTTLE_ML := "bottle_ml"
  const UNIT_COST := "unit_cost"
  const POUR_OZ := "pour_oz"
  const MENU_PRICE := "menu_price"
  const COST_PER_POUR := "cost_per_pour"
  const POUR_COST_PCT := "pour_cost_pct"
  const SUGGESTED_PRICE := "suggested_price"
  /** Fields of the oldest stored schema (item, unit_cost, qty, total). */
  const QTY := "qty"
  const TOTAL := "total"

  /** The four fields an edit of which triggers a recalculation of its row. */
  const TRACKED_PROPS: seq<string> := [UNIT_COST, POUR_OZ, MENU_PRICE, BOTTLE_ML]

  /** Millilitres in one US fluid ounce. */
  const ML_PER_OZ: real := 29.5735

  /** `row.key`: a missing field is undefined, which every read in the sheet treats like null. */
  function Get(row: Row, key: string): (v: Val)
    ensures key in row ==> v == row[key]
    ensures key !in row ==> v == Null
  {
    if key in row then row[key] else Null
  }

  /** Writing a field changes what that field reads and nothing else. */
  lemma GetUpdate(row: Row, k: string, v: Val, k': string)
    ensures Get(row[k := v], k') == if k == k' then v else Get(row, k')
  {
  }

  /** `parseFloat(v ?? 0) || 0`: a number is kept, text is parsed, and null, booleans and
      text that does not start with a number (NaN) all become 0. */
  function CoerceNumber(v: Val): (x: real)
    ensures v.Num? ==> x == v.n
    ensures v.Null? || v.Bool? ==> x == 0.0
    ensures v.Text? && ParseFloat(v.s).None? ==> x == 0.0
    ensures v.Text? && ParseFloat(v.s).Some? ==> x == ParseFloat(v.s).value
  {
    match v
    case Num(n) => n
    case Text(s) => (match ParseFloat(s) case Some(y) => y case None => 0.0)
    case Bool(_) => 0.0
    case Null => 0.0
  }

  /** `Number(v ?? 0)`. NaN is represented by Null: every later reader treats the two alike
      (`parseFloat(NaN) || 0` is 0, and `JSON.stringify` writes NaN as null). */
  function NumberValue(v: Val): (r: Val)
    ensures r.Num? || r.Null?
    ensures v.Num? ==> r == v
    ensures v.Null? ==> r == Num(0.0)
    ensures v.Bool? ==> r == Num(if v.b then 1.0 else 0.0)
    ensures CoerceNumber(r) == (if r.Num? then r.n else 0.0)
    ensures v.Text? ==> (r.Num? <==> StringToNumber(v.s).Some?)
    ensures v.Text? && r.Num? ==> r.n == StringToNumber(v.s).value
  {
    match v
    case Num(_) => v
    case Text(s) => (match StringToNumber(s) case Some(y) => Num(y) case None => Null)
    case Bool(b) => Num(if b then 1.0 else 0.0)
    case Null => Num(0.0)
  }

  /** The bottle cost, pour size and menu price of a row, coerced to numbers. */
  function BottleCostOf(row: Row): real { CoerceNumber(Get(row, UNIT_COST)) }
  function PourOzOf(row: Row): real { CoerceNumber(Get(row, POUR_OZ)) }
  function MenuPriceOf(row: Row): real { CoerceNumber(Get(row, MENU_PRICE)) }

  /** Blank text, the value migration gives `menu_price`, reads as price 0. */
  lemma BlankTextIsZero()
    ensures CoerceNumber(Text("")) == 0.0
  {
    assert ScanDecimal("", false).None?;
  }

  /** Text such as "12 oz" reads as 12 where a field is coerced with `parseFloat`, but as NaN
      (null) where it is converted with `Number`. */
  lemma LeadingNumberText(d: string, rest: string)
    requires d != [] && AllDigits(d)
    requires rest != [] && !IsDigit(rest[0]) && rest[0] != '.' && rest[0] != 'e' && rest[0] != 'E'
    requires !(rest[0] in "bBoOxX") && !IsWhiteSpace(rest[|rest| - 1])
    ensures AllInBase(d, 10)
    ensures CoerceNumber(Text(d + rest)) == ValueInBase(d, 10) as real
    ensures NumberValue(Text(d + rest)) == Null
  {
    NumberRejectsTrailingText(d, rest);
  }

  /** Unit conversion: a pour of `oz` fluid ounces in millilitres. */
  function PourMl(oz: real): (ml: real)
    ensures ml > 0.0 <==> oz > 0.0
    ensures ml == 0.0 <==> oz == 0.0
  {
    oz * ML_PER_OZ
  }

  /** One entry of a grid edit batch: `[rowIndex, prop, oldValue, newValue]` (the old value is
      not read). */
  datatype Change = Change(row: nat, prop: string, newVal: Val)

  /** The storage key of a location's rows. */
  const STORAGE_KEY_BASE := "bevcost_demo_"

  function StorageKey(locationId: string): (key: string)
    ensures |key| == |STORAGE_KEY_BASE| + |locationId|
    ensures key[..|STORAGE_KEY_BASE|] == STORAGE_KEY_BASE && key[|STORAGE_KEY_BASE|..] == locationId
  {
    STORAGE_KEY_BASE + locationId
  }

  /** Locations never share a storage key. */
  lemma StorageKeyInjective(a: string, b: string)
    requires StorageKey(a) == StorageKey(b)
    ensures a == b
  {
    assert a == StorageKey(a)[|STORAGE_KEY_BASE|..];
  }
}
