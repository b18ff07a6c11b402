/** Per-location extra columns of app-v3.1.js: the column layout built from a location's
    metadata, the "add column" action on the sheet, and the storage keys of rows and metadata. */
module LocationColumns {
  import opened JsNumbers
  import opened SheetRows
  import opened CostEngine

  /** How a column edits its cells. */
  datatype CellKind = TextCell | DropdownCell | NumericCell

  /** A grid column: the row field it shows, its editor, and whether it can be edited. */
  datatype Column = Column(data: string, kind: CellKind, readOnly: bool)

  /** The eight fixed columns, in order. */
  const BASE_COLUMNS: seq<Column> := [
    Column(ITEM, TextCell, false),
    Column(BOTTLE_ML, DropdownCell, false),
    Column(UNIT_COST, NumericCell, false),
    Column(POUR_OZ, NumericCell, false),
    Column(MENU_PRICE, NumericCell, false),
    Column(COST_PER_POUR, NumericCell, true),
    Column(POUR_COST_PCT, NumericCell, true),
    Column(SUGGESTED_PRICE, NumericCell, true)
  ]

  const BASE_HEADERS: seq<string> := [
    "Item", "Bottle Size", "Bottle Cost ($)", "Pour Size (oz)", "Menu Price ($)",
    "Cost / Pour ($)", "Pour Cost %", "Suggested Menu Price ($)"
  ]

  /** The field of the i-th extra column, `extra_i`. */
  function ExtraKey(i: nat): (k: string)
    ensures |k| > 6 && k[..6] == "extra_" && k[6..] == NatToString(i)
  {
    "extra_" + NatToString(i)
  }

  /** The header of the i-th extra column, `Extra i`. */
  function ExtraHeader(i: nat): (h: string)
    ensures |h| > 6 && h[..6] == "Extra " && h[6..] == NatToString(i)
    ensures h[6..] == ExtraKey(i)[6..]
  {
    "Extra " + NatToString(i)
  }

  /** The i-th extra column: plain text, editable, showing a field no fixed column shows. */
  function ExtraColumn(i: nat): (c: Column)
    ensures c.data == ExtraKey(i) && c.kind == TextCell && !c.readOnly
    ensures forall b :: 0 <= b < |BASE_COLUMNS| ==> BASE_COLUMNS[b].data != c.data
  {
    ExtraKeyNotBase(i);
    Column(ExtraKey(i), TextCell, false)
  }

  /** Two extra columns share a field only when they are the same column. */
  lemma ExtraKeyInjective(i: nat, j: nat)
    ensures ExtraKey(i) == ExtraKey(j) ==> i == j
  {
    if ExtraKey(i) == ExtraKey(j) {
      assert NatToString(i) == ExtraKey(i)[6..];
    }
  }

  /** No extra column shows a field of the fixed layout. */
  lemma ExtraKeyNotBase(i: nat)
    ensures forall c :: 0 <= c < |BASE_COLUMNS| ==> BASE_COLUMNS[c].data != ExtraKey(i)
  {
    var k := ExtraKey(i);
    assert k[0] == 'e';
    forall c | 0 <= c < |BASE_COLUMNS|
      ensures BASE_COLUMNS[c].data != k
    {
      assert BASE_COLUMNS[c].data[0] != 'e';
    }
  }

  /** The columns for a location with n extra columns. */
  function Columns(n: nat): (cols: seq<Column>)
    ensures |cols| == |BASE_COLUMNS| + n
  {
    BASE_COLUMNS + seq(n, j requires 0 <= j < n => ExtraColumn(j + 1))
  }

  /** The headers for a location with n extra columns. */
  function Headers(n: nat): (headers: seq<string>)
    ensures |headers| == |BASE_HEADERS| + n
  {
    BASE_HEADERS + seq(n, j requires 0 <= j < n => ExtraHeader(j + 1))
  }

  /** `buildColumnsAndHeaders`: the fixed layout followed by `extra_1` .. `extra_n`. */
  method BuildColumnsAndHeaders(extraCols: nat) returns (cols: seq<Column>, headers: seq<string>)
    ensures cols == Columns(extraCols) && headers == Headers(extraCols)
  {
    cols := BASE_COLUMNS;
    headers := BASE_HEADERS;
    var i := 1;
    while i <= extraCols
      invariant 1 <= i <= extraCols + 1
      invariant cols == Columns(i - 1) && headers == Headers(i - 1)
    {
      cols := cols + [ExtraColumn(i)];
      headers := headers + [ExtraHeader(i)];
      i := i + 1;
    }
  }

  /** The layout has one column per field: no two columns show the same field, and every
      column has a header. */
  lemma ColumnsDistinct(n: nat)
    ensures |Headers(n)| == |Columns(n)| == 8 + n
    ensures Columns(n)[..8] == BASE_COLUMNS && Headers(n)[..8] == BASE_HEADERS
    ensures forall a, b :: 0 <= a < b < |Columns(n)| ==> Columns(n)[a].data != Columns(n)[b].data
  {
    var cols := Columns(n);
    forall a, b | 0 <= a < b < |cols|
      ensures cols[a].data != cols[b].data
    {
      if b >= 8 {
        assert cols[b].data == ExtraKey(b - 7);
        if a >= 8 {
          assert cols[a].data == ExtraKey(a - 7);
          ExtraKeyInjective(a - 7, b - 7);
        } else {
          ExtraKeyNotBase(b - 7);
          assert cols[a] == BASE_COLUMNS[a];
        }
      } else {
        BaseColumnsDistinct(a, b);
        assert cols[a] == BASE_COLUMNS[a] && cols[b] == BASE_COLUMNS[b];
      }
    }
  }

  /** The fixed columns show eight different fields. */
  lemma BaseColumnsDistinct(a: nat, b: nat)
    requires a < b < |BASE_COLUMNS|
    ensures BASE_COLUMNS[a].data != BASE_COLUMNS[b].data
  {
  }

  /** A location's metadata: how many extra columns its sheet has. */
  class LocationMeta {
    var extraCols: nat

    constructor (extraCols: nat)
      ensures this.extraCols == extraCols
    {
      this.extraCols := extraCols;
    }
  }

  /** Stored metadata once parsed: an object whose `extraCols` may be missing, or nothing
      usable (no entry, text that does not parse, or null). */
  datatype StoredMeta = MetaObject(extraCols: Option<nat>) | NoMeta

  /** The extra-column count `loadMeta` yields, where a missing count reads as 0 (both the
      layout loop and the add action treat it so). */
  function LoadedExtraCols(stored: StoredMeta): (n: nat)
    ensures stored.NoMeta? || stored.extraCols.None? ==> n == 0
    ensures stored.MetaObject? && stored.extraCols.Some? ==> n == stored.extraCols.value
  {
    match stored
    case NoMeta => 0
    case MetaObject(count) => if count.Some? then count.value else 0
  }

  /** Every row gets the new field as blank text unless it already has it. */
  function SeedColumn(rows: seq<Row>, key: string): (out: seq<Row>)
    ensures |out| == |rows|
  {
    seq(|rows|, i requires 0 <= i < |rows| => SeedRow(rows[i], key))
  }

  /** The row with the field as blank text unless it already has it. */
  function SeedRow(row: Row, key: string): (r: Row)
    ensures r.Keys == row.Keys + {key}
    ensures key in row ==> r == row
    ensures key !in row ==> r[key] == Text("")
    ensures forall k :: k != key ==> Get(r, k) == Get(row, k)
  {
    if key in row then row else row[key := Text("")]
  }

  /** After seeding, every row has the field; a value already there is kept, and all other
      fields are as they were. */
  lemma SeedColumnEffect(rows: seq<Row>, key: string, i: nat, k: string)
    requires i < |rows|
    ensures key in SeedColumn(rows, key)[i]
    ensures key in rows[i] ==> SeedColumn(rows, key)[i] == rows[i]
    ensures key !in rows[i] ==> SeedColumn(rows, key)[i][key] == Text("")
    ensures k != key ==> (k in SeedColumn(rows, key)[i] <==> k in rows[i])
                         && Get(SeedColumn(rows, key)[i], k) == Get(rows[i], k)
  {
  }

  /** Seeding an extra column leaves every row's figures consistent if they were. */
  lemma SeedColumnKeepsConsistent(rows: seq<Row>, n: nat, s: Settings, i: nat)
    requires i < |rows| && Consistent(rows[i], s)
    ensures Consistent(SeedColumn(rows, ExtraKey(n))[i], s)
  {
    SeedRowKeepsConsistent(rows[i], ExtraKey(n), s);
  }

  /** A row given a blank extra field is consistent if it was. */
  lemma SeedRowKeepsConsistent(row: Row, key: string, s: Settings)
    requires |key| > 0 && key[0] == 'e' && Consistent(row, s)
    ensures Consistent(SeedRow(row, key), s)
  {
    if key !in row {
      assert BOTTLE_ML[0] != 'e' && UNIT_COST[0] != 'e' && POUR_OZ[0] != 'e' && MENU_PRICE[0] != 'e';
      assert COST_PER_POUR[0] != 'e' && POUR_COST_PCT[0] != 'e' && SUGGESTED_PRICE[0] != 'e';
      ConsistentReadsFields(row[key := Text("")], row, s);
    }
  }

  /** `addColumn` on the sheet: one more extra column in the metadata, the new field seeded
      into the rows that lack it, and the layout rebuilt for the new count. */
  method AddColumn(meta: LocationMeta, data: array<Row>) returns (cols: seq<Column>, headers: seq<string>)
    modifies meta, data
    ensures meta.extraCols == old(meta.extraCols) + 1
    ensures data[..] == SeedColumn(old(data[..]), ExtraKey(meta.extraCols))
    ensures cols == Columns(meta.extraCols) && headers == Headers(meta.extraCols)
  {
    meta.extraCols := meta.extraCols + 1;
    var newKey := ExtraKey(meta.extraCols);
    for i := 0 to data.Length
      modifies data
      invariant forall j :: 0 <= j < i ==> data[j] == SeedRow(old(data[j]), newKey)
      invariant forall j :: i <= j < data.Length ==> data[j] == old(data[j])
    {
      if newKey !in data[i] {
        data[i] := data[i][newKey := Text("")];
      }
    }
    assert forall j :: 0 <= j < data.Length ==> old(data[..])[j] == old(data[j]);
    assert data[..] == SeedColumn(old(data[..]), newKey);
    cols, headers := BuildColumnsAndHeaders(meta.extraCols);
  }

  /** `addColumn` right after a location is loaded: the stored count (0 when missing) goes
      up by one and the new field is `extra_` followed by the new count. */
  method AddColumnAfterLoad(stored: StoredMeta, data: array<Row>)
    returns (meta: LocationMeta, cols: seq<Column>, headers: seq<string>)
    modifies data
    ensures fresh(meta) && meta.extraCols == LoadedExtraCols(stored) + 1
    ensures data[..] == SeedColumn(old(data[..]), ExtraKey(LoadedExtraCols(stored) + 1))
    ensures cols == Columns(LoadedExtraCols(stored) + 1) && headers == Headers(LoadedExtraCols(stored) + 1)
  {
    meta := new LocationMeta(LoadedExtraCols(stored));
    cols, headers := AddColumn(meta, data);
  }

  /** The storage key of a location's metadata. */
  const META_KEY_BASE := "bevcost_meta_"

  function MetaKey(locationId: string): (key: string)
    ensures |key| == |META_KEY_BASE| + |locationId|
    ensures key[..|META_KEY_BASE|] == META_KEY_BASE && key[|META_KEY_BASE|..] == locationId
  {
    META_KEY_BASE + locationId
  }

  /** Rows and metadata never share a storage key, whatever the two locations: the two
      prefixes have the same length and differ. */
  lemma RowAndMetaKeysDiffer(a: string, b: string)
    ensures StorageKey(a) != MetaKey(b)
  {
    assert |STORAGE_KEY_BASE| == |META_KEY_BASE|;
    assert STORAGE_KEY_BASE[8] == 'd' && META_KEY_BASE[8] == 'm';
    assert StorageKey(a)[8] == 'd' && MetaKey(b)[8] == 'm';
  }
}
