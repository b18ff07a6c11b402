/** Bottle-size normalisation: from a number or a dropdown label to millilitres.
    `NormalizeBottleMl` is the rule of app-v2.js, app-v3.js and app-v3.1.js (the same text in
    all three); `NormalizeBottleMlM1` is the earlier rule of app.js, which keeps numbers. */
module BottleSize {
  import opened JsNumbers
  import opened SheetRows

  /** The millilitres a label names: all its digits, concatenated, read as one decimal number
      (`parseInt(String(v).replace(/\D/g, ""), 10)`); no digits or 0 gives 750, 1000 gives
      1000, anything else 750. */
  function LabelMl(text: string): (ml: real)
    ensures ml == 750.0 || ml == 1000.0
    ensures ml == 1000.0 <==> ParseIntDigits(KeepDigits(text)) == Some(1000)
  {
    var n := ParseIntDigits(KeepDigits(text));
    if n.None? || n.value == 0 then 750.0
    else if n.value == 1000 then 1000.0
    else 750.0
  }

  /** `String(v)` for a value that is not a number (a missing field prints "undefined",
      which has no digits either). */
  function NonNumberText(v: Val): (s: string)
    requires !v.Num?
    ensures v.Text? ==> s == v.s
    ensures !v.Text? ==> KeepDigits(s) == []
  {
    match v
    case Text(s) => s
    case Bool(b) =>
      assert KeepDigits("true") == [] && KeepDigits("false") == [] by { WordsHaveNoDigits(); }
      if b then "true" else "false"
    case Null =>
      assert KeepDigits("null") == [] by { WordsHaveNoDigits(); }
      "null"
  }

  lemma WordsHaveNoDigits()
    ensures KeepDigits("true") == [] && KeepDigits("false") == [] && KeepDigits("null") == []
  {
    assert "true"[1..] == "rue" && "rue"[1..] == "ue" && "ue"[1..] == "e" && "e"[1..] == "";
    assert "false"[1..] == "alse" && "alse"[1..] == "lse" && "lse"[1..] == "se" && "se"[1..] == "e";
    assert "null"[1..] == "ull" && "ull"[1..] == "ll" && "ll"[1..] == "l" && "l"[1..] == "";
  }

  /** `normalizeBottleMl` from app-v2.js on: the canonical bottle size, 750 or 1000 ml. */
  function NormalizeBottleMl(v: Val): (ml: real)
    ensures ml == 750.0 || ml == 1000.0
    ensures v.Num? ==> (ml == 1000.0 <==> v.n == 1000.0)
    ensures v.Text? ==> (ml == 1000.0 <==> ParseIntDigits(KeepDigits(v.s)) == Some(1000))
    ensures v.Bool? || v.Null? ==> ml == 750.0
  {
    if v.Num? then (if v.n == 1000.0 then 1000.0 else 750.0)
    else LabelMl(NonNumberText(v))
  }

  /** `normalizeBottleMl` of app.js: a number passes through unchanged (0 and negatives
      included); anything else is read as a label, as later versions do. */
  function NormalizeBottleMlM1(v: Val): (ml: real)
    ensures v.Num? ==> ml == v.n
    ensures !v.Num? ==> ml == NormalizeBottleMl(v)
  {
    if v.Num? then v.n else LabelMl(NonNumberText(v))
  }

  /** Normalising a stored size again changes nothing, in both rules. */
  lemma NormalizeIdempotent(v: Val)
    ensures NormalizeBottleMl(Num(NormalizeBottleMl(v))) == NormalizeBottleMl(v)
    ensures NormalizeBottleMlM1(Num(NormalizeBottleMlM1(v))) == NormalizeBottleMlM1(v)
  {
  }

  /** A label whose digits spell 1000, however they are spread, is a litre bottle. */
  lemma LabelDigitsDecide(text: string)
    requires KeepDigits(text) == "1000"
    ensures LabelMl(text) == 1000.0
  {
    assert ValueInBase("1000", 10) == 1000 by {
      assert "1000"[..3] == "100" && "100"[..2] == "10" && "10"[..1] == "1";
    }
  }

  /** The label "1 L" has the single digit 1 and so gives 750, not 1000, under both rules:
      choosing "1 L" in the dropdown stores a 750 ml bottle. */
  lemma OneLitreLabelIs750()
    ensures NormalizeBottleMl(Text("1 L")) == 750.0
    ensures NormalizeBottleMlM1(Text("1 L")) == 750.0
  {
    assert KeepDigits("1 L") == "1" by {
      assert "1 L"[1..] == " L" && " L"[1..] == "L" && "L"[1..] == "";
    }
    assert ValueInBase("1", 10) == 1 by { assert "1"[..0] == ""; }
  }

  /** The other dropdown label gives its own size. */
  lemma SevenFiftyLabel()
    ensures NormalizeBottleMl(Text("750 ml")) == 750.0
  {
    SevenFiftyDigits();
    assert ValueInBase("750", 10) == 750 by {
      assert "750"[..2] == "75" && "75"[..1] == "7" && "7"[..0] == "";
    }
  }

  lemma SevenFiftyDigits()
    ensures KeepDigits("750 ml") == "750"
  {
    assert "750 ml" == "750" + " ml";
    KeepDigitsAppend("750", " ml");
    UnitHasNoDigits();
  }

  lemma UnitHasNoDigits()
    ensures KeepDigits(" ml") == ""
  {
    assert " ml"[1..] == "ml" && "ml"[1..] == "l" && "l"[1..] == "";
  }

  /** Typed sizes whose digits spell 1000 are litre bottles. */
  lemma ThousandLabels()
    ensures NormalizeBottleMl(Text("1000")) == 1000.0
    ensures NormalizeBottleMl(Text("1,000 ml")) == 1000.0
  {
    PlainThousandLabel();
    GroupedThousandLabel();
  }

  lemma PlainThousandLabel()
    ensures NormalizeBottleMl(Text("1000")) == 1000.0
  {
    KeepDigitsOfDigits("1000");
    LabelDigitsDecide("1000");
  }

  lemma GroupedThousandLabel()
    ensures NormalizeBottleMl(Text("1,000 ml")) == 1000.0
  {
    GroupedThousandDigits();
    LabelDigitsDecide("1,000 ml");
  }

  lemma GroupedThousandDigits()
    ensures KeepDigits("1,000 ml") == "1000"
  {
    ZerosThenUnit();
    assert KeepDigits(",000 ml") == "000" by { assert ",000 ml"[1..] == "000 ml"; }
    assert "1,000 ml"[1..] == ",000 ml";
  }

  lemma ZerosThenUnit()
    ensures KeepDigits("000 ml") == "000"
  {
    UnitHasNoDigits();
    assert KeepDigits("0 ml") == "0" by { assert "0 ml"[1..] == " ml"; }
    assert KeepDigits("00 ml") == "00" by { assert "00 ml"[1..] == "0 ml"; }
    assert "000 ml"[1..] == "00 ml";
  }
}
