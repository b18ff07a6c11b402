/** The parts of JavaScript's number semantics the cost sheet relies on, over exact reals:
    `parseFloat`, `Number(string)`, `parseInt` of a run of decimal digits,
    `Number.prototype.toFixed` (section 21.1.3.3 of ECMA-262), `Math.round` (section 21.3.2.28)
    and the decimal text of a natural number (template literals such as `extra_${i}`). */
module JsNumbers {

  datatype Option<T> = None | Some(value: T)

  // ----- Characters and digit strings -----

  /** StrWhiteSpaceChar of ECMA-262: the WhiteSpace and LineTerminator code points. */
  predicate IsWhiteSpace(c: char) {
    c == '\t' || c == '\n' || c == '\U{000B}' || c == '\U{000C}' || c == '\r' || c == ' '
    || c == '\U{00A0}' || c == '\U{1680}' || ('\U{2000}' <= c <= '\U{200A}')
    || c == '\U{2028}' || c == '\U{2029}' || c == '\U{202F}' || c == '\U{205F}'
    || c == '\U{3000}' || c == '\U{FEFF}'
  }

  predicate IsDigit(c: char) { '0' <= c <= '9' }

  predicate AllDigits(s: string) { forall i :: 0 <= i < |s| ==> IsDigit(s[i]) }

  /** The value of a hexadecimal digit, -1 for any other character. */
  function HexDigitValue(c: char): int {
    if '0' <= c <= '9' then c as int - '0' as int
    else if 'a' <= c <= 'f' then c as int - 'a' as int + 10
    else if 'A' <= c <= 'F' then c as int - 'A' as int + 10
    else -1
  }

  predicate InBase(c: char, base: nat) { 0 <= HexDigitValue(c) < base }

  predicate AllInBase(s: string, base: nat) { forall i :: 0 <= i < |s| ==> InBase(s[i], base) }

  /** The number a string of digits in `base` denotes, most significant digit first. */
  function ValueInBase(s: string, base: nat): (n: nat)
    requires AllInBase(s, base)
    ensures s == [] ==> n == 0
  {
    if s == [] then 0
    else ValueInBase(s[..|s| - 1], base) * base + HexDigitValue(s[|s| - 1])
  }

  /** `s.replace(/\D/g, "")`: the decimal digits of `s`, in order. */
  function KeepDigits(s: string): (d: string)
    ensures AllDigits(d) && |d| <= |s|
  {
    if s == [] then []
    else if IsDigit(s[0]) then [s[0]] + KeepDigits(s[1..])
    else KeepDigits(s[1..])
  }

  /** Text made only of digits has nothing to strip. */
  lemma {:induction false} KeepDigitsOfDigits(s: string)
    requires AllDigits(s)
    ensures KeepDigits(s) == s
    decreases |s|
  {
    if s != [] {
      KeepDigitsOfDigits(s[1..]);
    }
  }

  /** Text without a digit strips to nothing. */
  lemma {:induction false} KeepDigitsOfNonDigits(s: string)
    requires forall i :: 0 <= i < |s| ==> !IsDigit(s[i])
    ensures KeepDigits(s) == []
    decreases |s|
  {
    if s != [] {
      KeepDigitsOfNonDigits(s[1..]);
    }
  }

  /** Stripping non-digits distributes over concatenation. */
  lemma {:induction false} KeepDigitsAppend(a: string, b: string)
    ensures KeepDigits(a + b) == KeepDigits(a) + KeepDigits(b)
  {
    if a != [] {
      assert (a + b)[1..] == a[1..] + b;
      KeepDigitsAppend(a[1..], b);
    } else {
      assert a + b == b;
    }
  }

  /** `parseInt(d, 10)` for a string of decimal digits: NaN (None) when it is empty. */
  function ParseIntDigits(d: string): (r: Option<nat>)
    requires AllDigits(d)
    ensures r.None? <==> d == []
    ensures r.Some? && (d[0] != '0' || |d| == 1) ==> NatToString(r.value) == d
  {
    assert forall i :: 0 <= i < |d| ==> InBase(d[i], 10);
    if d == [] then None
    else
      assert d[0] != '0' || |d| == 1 ==> NatToString(ValueInBase(d, 10)) == d by {
        if d[0] != '0' || |d| == 1 { NatToStringOfDigits(d); }
      }
      Some(ValueInBase(d, 10))
  }

  /** Digits without a leading zero are the decimal text of the number they denote. */
  lemma {:induction false} NatToStringOfDigits(d: string)
    requires d != [] && AllDigits(d) && (d[0] != '0' || |d| == 1)
    ensures AllInBase(d, 10) && NatToString(ValueInBase(d, 10)) == d
    decreases |d|
  {
    DigitsInBase(d);
    var last := d[|d| - 1];
    assert DigitChar(HexDigitValue(last)) == last;
    if |d| == 1 {
      assert d == [last];
    } else {
      var init := d[..|d| - 1];
      assert init[0] == d[0];
      LeadingNonZero(init);
      NatToStringOfDigits(init);
      var v := ValueInBase(d, 10);
      DivModDigit(ValueInBase(init, 10), HexDigitValue(last), v);
      assert d == init + [last];
    }
  }

  lemma DivModDigit(a: nat, b: int, v: nat)
    requires 0 <= b < 10 && v == a * 10 + b
    ensures v / 10 == a && v % 10 == b
  {
  }

  /** Digits that start with a non-zero digit denote a positive number. */
  lemma {:induction false} LeadingNonZero(d: string)
    requires d != [] && AllDigits(d) && d[0] != '0'
    ensures AllInBase(d, 10) && ValueInBase(d, 10) >= 1
    decreases |d|
  {
    DigitsInBase(d);
    if |d| > 1 {
      var init := d[..|d| - 1];
      assert init[0] == d[0];
      LeadingNonZero(init);
    }
  }

  /** The longest prefix of `s` made of decimal digits. */
  function LeadingDigits(s: string): (d: string)
    ensures AllDigits(d) && d <= s
    ensures |d| < |s| ==> !IsDigit(s[|d|])
  {
    if s != [] && IsDigit(s[0]) then [s[0]] + LeadingDigits(s[1..]) else []
  }

  function TrimStart(s: string): (t: string)
    ensures |t| <= |s| && t == s[|s| - |t|..]
    ensures t == [] || !IsWhiteSpace(t[0])
    ensures forall i :: 0 <= i < |s| - |t| ==> IsWhiteSpace(s[i])
  {
    if s != [] && IsWhiteSpace(s[0]) then TrimStart(s[1..]) else s
  }

  function TrimEnd(s: string): (t: string)
    ensures |t| <= |s| && t == s[..|t|]
    ensures t == [] || !IsWhiteSpace(t[|t| - 1])
    ensures forall i :: |t| <= i < |s| ==> IsWhiteSpace(s[i])
  {
    if s != [] && IsWhiteSpace(s[|s| - 1]) then TrimEnd(s[..|s| - 1]) else s
  }

  // ----- Powers of ten -----

  function Pow10(n: nat): (p: real)
    ensures p >= 1.0
  {
    if n == 0 then 1.0 else 10.0 * Pow10(n - 1)
  }

  /** m times 10 to the power e, one decimal place at a time (so every step is linear). */
  function ShiftDecimal(m: real, e: int): real
    decreases if e < 0 then -e else e
  {
    if e == 0 then m
    else if e > 0 then ShiftDecimal(m * 10.0, e - 1)
    else ShiftDecimal(m / 10.0, e + 1)
  }

  /** A string of decimal digits is a numeral in base 10. */
  lemma DigitsInBase(d: string)
    requires AllDigits(d)
    ensures AllInBase(d, 10)
  {
    forall i | 0 <= i < |d| ensures InBase(d[i], 10) { assert IsDigit(d[i]); }
  }

  // ----- StrDecimalLiteral (ECMA-262 section 7.1.4.1), without the Infinity forms -----

  /** A scanned numeric prefix: its value and how many characters it spans. */
  datatype Scan = Scan(value: real, len: nat)

  /** An ExponentPart at the start of `s`: its signed value and its length. */
  function ScanExponent(s: string): (r: Option<(int, nat)>)
    ensures r.Some? ==> 2 <= r.value.1 <= |s|
  {
    if |s| < 2 || (s[0] != 'e' && s[0] != 'E') then None
    else
      var signLen := if s[1] == '+' || s[1] == '-' then 1 else 0;
      var digits := LeadingDigits(s[1 + signLen..]);
      if digits == [] then None
      else
        assert |digits| <= |s| - 1 - signLen;
        DigitsInBase(digits);
        var mag: int := ValueInBase(digits, 10);
        Some((if s[1] == '-' then -mag else mag, 1 + signLen + |digits|))
  }

  /** The pieces of the longest StrUnsignedDecimalLiteral at the start of `t`: its integer
      digits, its fraction digits, the value of its exponent (0 when it has none) and its
      length; None when `t` starts with no such literal. */
  datatype Parts = Parts(intDigits: string, fracDigits: string, expValue: int, len: nat)

  function UnsignedParts(t: string): (r: Option<Parts>)
    ensures r.Some? ==> 0 < r.value.len <= |t| && AllDigits(r.value.intDigits) && AllDigits(r.value.fracDigits)
  {
    var intDigits := LeadingDigits(t);
    var hasDot := |intDigits| < |t| && t[|intDigits|] == '.';
    var fracDigits := if hasDot then LeadingDigits(t[|intDigits| + 1..]) else [];
    MantissaParts(t, intDigits, hasDot, fracDigits)
  }

  /** The pieces once the mantissa is known: `intDigits`, then the dot and `fracDigits` when
      `hasDot`, followed by an optional exponent. */
  function MantissaParts(t: string, intDigits: string, hasDot: bool, fracDigits: string): (r: Option<Parts>)
    requires hasDot || fracDigits == []
    requires |intDigits| + (if hasDot then 1 + |fracDigits| else 0) <= |t|
    ensures r.Some? <==> intDigits != [] || fracDigits != []
    ensures r.Some? ==> 0 < r.value.len <= |t| && r.value.intDigits == intDigits && r.value.fracDigits == fracDigits
  {
    if intDigits == [] && fracDigits == [] then None
    else
      var mantissaLen := |intDigits| + (if hasDot then 1 + |fracDigits| else 0);
      var exponent := ScanExponent(t[mantissaLen..]);
      var expValue := if exponent.Some? then exponent.value.0 else 0;
      var expLen := if exponent.Some? then exponent.value.1 else 0;
      Some(Parts(intDigits, fracDigits, expValue, mantissaLen + expLen))
  }

  /** The number the digits of a decimal literal denote, with the decimal point moved by
      `shift` places. */
  function DecimalValue(digits: string, shift: int): real
    requires AllDigits(digits)
  {
    DigitsInBase(digits);
    ShiftDecimal(ValueInBase(digits, 10) as real, shift)
  }

  /** The longest prefix of `t` that is a StrDecimalLiteral, scanned; None when there is none.
      With `signed`, an optional `+` or `-` comes first and the rest is scanned unsigned
      (StrUnsignedDecimalLiteral). `Infinity`, `+Infinity` and `-Infinity` are not recognised. */
  function ScanDecimal(t: string, signed: bool): (r: Option<Scan>)
    decreases |t|, signed
    ensures r.Some? ==> 0 < r.value.len <= |t|
  {
    if signed then
      if t != [] && (t[0] == '+' || t[0] == '-') then
        match ScanDecimal(t[1..], false)
        case None => None
        case Some(sc) => Some(Scan(if t[0] == '-' then -sc.value else sc.value, sc.len + 1))
      else ScanDecimal(t, false)
    else
      match UnsignedParts(t)
      case None => None
      case Some(p) =>
        assert AllDigits(p.intDigits + p.fracDigits);
        Some(Scan(DecimalValue(p.intDigits + p.fracDigits, p.expValue - |p.fracDigits|), p.len))
  }

  // ----- A recogniser for StrDecimalLiteral, independent of the scanner above -----

  /** The states of a left-to-right recogniser for StrDecimalLiteral (ECMA-262 section
      7.1.4.1, without the Infinity forms): before an optional sign, before the first
      character of StrUnsignedDecimalLiteral, in the integer digits, after a dot with no digit
      yet, in the fraction, after the exponent letter, after its sign, in its digits, and
      rejected. */
  datatype LitState = BeforeSign | Start | IntPart | DotOnly | FracPart | ExpMark | ExpSign | ExpDigits | Dead

  /** The state after a decimal digit. */
  function OnDigit(q: LitState): LitState
  {
    match q
    case BeforeSign => IntPart
    case Start => IntPart
    case IntPart => IntPart
    case DotOnly => FracPart
    case FracPart => FracPart
    case ExpMark => ExpDigits
    case ExpSign => ExpDigits
    case ExpDigits => ExpDigits
    case Dead => Dead
  }

  function Step(q: LitState, c: char): LitState
  {
    if IsDigit(c) then OnDigit(q)
    else if c == '.' then (if q == BeforeSign || q == Start then DotOnly else if q == IntPart then FracPart else Dead)
    else if c == 'e' || c == 'E' then (if q == IntPart || q == FracPart then ExpMark else Dead)
    else if c == '+' || c == '-' then (if q == BeforeSign then Start else if q == ExpMark then ExpSign else Dead)
    else Dead
  }

  /** The state after reading s from q. */
  function Run(q: LitState, s: string): LitState
    decreases |s|
  {
    if s == [] then q else Run(Step(q, s[0]), s[1..])
  }

  /** A literal may end in the integer digits, in the fraction (also right after the dot of
      "1.") or in the exponent digits. */
  predicate Accepting(q: LitState) { q == IntPart || q == FracPart || q == ExpDigits }

  /** The whole of s is a StrDecimalLiteral; with `signed` false, a StrUnsignedDecimalLiteral. */
  predicate IsDecimalLiteral(s: string, signed: bool)
  {
    Accepting(Run(if signed then BeforeSign else Start, s))
  }

  /** No non-empty prefix of s leads from q to an accepting state. */
  predicate Stuck(q: LitState, s: string)
  {
    forall j :: 0 < j <= |s| ==> !Accepting(Run(q, s[..j]))
  }

  lemma {:induction false} RunSplit(q: LitState, s: string, k: nat)
    requires k <= |s|
    ensures Run(q, s) == Run(Run(q, s[..k]), s[k..])
    decreases k
  {
    if k > 0 {
      assert s[..k][1..] == s[1..][..k - 1];
      RunSplit(Step(q, s[0]), s[1..], k - 1);
      assert s[1..][k - 1..] == s[k..];
    }
  }

  lemma {:induction false} RunDead(s: string)
    ensures Run(Dead, s) == Dead
    decreases |s|
  {
    if s != [] {
      RunDead(s[1..]);
    }
  }

  /** A run of digits is absorbed by the state the first of them leads to. */
  lemma {:induction false} RunDigits(q: LitState, d: string)
    requires AllDigits(d) && d != []
    ensures Run(q, d) == OnDigit(q)
    decreases |d|
  {
    if |d| > 1 {
      RunDigits(OnDigit(q), d[1..]);
    }
  }

  lemma RunOne(q: LitState, c: char)
    ensures Run(q, [c]) == Step(q, c)
  {
    assert [c][1..] == [];
  }

  /** A character that leads to the rejecting state leaves nothing to accept after it. */
  lemma StuckAtDead(q: LitState, s: string)
    requires s != [] && Step(q, s[0]) == Dead
    ensures Stuck(q, s)
  {
    forall j | 0 < j <= |s|
      ensures Run(q, s[..j]) == Dead
    {
      RunDead(s[..j][1..]);
    }
  }

  /** Stuck after a non-accepting first step when stuck from there on. */
  lemma StuckCons(q: LitState, s: string)
    requires s != [] && !Accepting(Step(q, s[0])) && Stuck(Step(q, s[0]), s[1..])
    ensures Stuck(q, s)
  {
    forall j | 0 < j <= |s|
      ensures !Accepting(Run(q, s[..j]))
    {
      if j > 1 {
        assert s[..j][1..] == s[1..][..j - 1];
      }
    }
  }

  /** A prefix that ends in an accepting state, with nothing acceptable after it, is the
      longest literal prefix. */
  lemma LongestFromStuck(q: LitState, t: string, len: nat)
    requires len <= |t| && Stuck(Run(q, t[..len]), t[len..])
    ensures forall j :: len < j <= |t| ==> !Accepting(Run(q, t[..j]))
  {
    forall j | len < j <= |t|
      ensures !Accepting(Run(q, t[..j]))
    {
      RunSplit(q, t[..j], len);
      assert t[..j][..len] == t[..len];
      assert t[..j][len..] == t[len..][..j - len];
    }
  }

  /** After an accepted integer or mantissa, the exponent part is read exactly as the
      recogniser reads it, and nothing after the scan can be accepted. */
  lemma ScanExponentRun(q: LitState, s: string)
    requires q == IntPart || q == FracPart
    requires s == [] || (!IsDigit(s[0]) && (q == IntPart ==> s[0] != '.'))
    ensures ScanExponent(s).Some? ==>
              Run(q, s[..ScanExponent(s).value.1]) == ExpDigits && Stuck(ExpDigits, s[ScanExponent(s).value.1..])
    ensures ScanExponent(s).None? ==> Stuck(q, s)
  {
    if s == [] {
    } else if s[0] != 'e' && s[0] != 'E' {
      StuckAtDead(q, s);
    } else if |s| < 2 {
      assert s[..1] == s;
    } else {
      var signLen, k := ExponentFacts(s);
      ExponentRun(q, s, signLen, k);
    }
  }

  /** The sign and the digit run of an exponent part, as facts about positions in s. */
  lemma ExponentFacts(s: string) returns (signLen: nat, k: nat)
    requires |s| >= 2 && (s[0] == 'e' || s[0] == 'E')
    ensures signLen == (if s[1] == '+' || s[1] == '-' then 1 else 0)
    ensures 1 + signLen + k <= |s| && AllDigits(s[1 + signLen..1 + signLen + k])
    ensures 1 + signLen + k < |s| ==> !IsDigit(s[1 + signLen + k])
    ensures ScanExponent(s).Some? <==> k > 0
    ensures ScanExponent(s).Some? ==> ScanExponent(s).value.1 == 1 + signLen + k
  {
    signLen := if s[1] == '+' || s[1] == '-' then 1 else 0;
    var digits := LeadingDigits(s[1 + signLen..]);
    k := |digits|;
    LeadingDigitsFacts(s[1 + signLen..]);
    SliceFacts(s, 1 + signLen, 1 + signLen + k);
    if 1 + signLen + k < |s| {
      assert s[1 + signLen + k] == s[1 + signLen..][k];
    }
  }

  /** The recogniser over an exponent part: the letter, the optional sign, then k digits. */
  lemma ExponentRun(q: LitState, s: string, signLen: nat, k: nat)
    requires q == IntPart || q == FracPart
    requires |s| >= 2 && (s[0] == 'e' || s[0] == 'E')
    requires signLen == (if s[1] == '+' || s[1] == '-' then 1 else 0)
    requires 1 + signLen + k <= |s| && AllDigits(s[1 + signLen..1 + signLen + k])
    requires 1 + signLen + k < |s| ==> !IsDigit(s[1 + signLen + k])
    ensures k > 0 ==> Run(q, s[..1 + signLen + k]) == ExpDigits && Stuck(ExpDigits, s[1 + signLen + k..])
    ensures k == 0 ==> Stuck(q, s)
  {
    var mark := ExponentMark(q, s, signLen);
    if k == 0 {
      NoExponentDigits(q, s, signLen, mark);
    } else {
      ExponentDigitsRun(q, s, 1 + signLen, k, mark);
    }
  }

  /** The k exponent digits after position p lead into the exponent digits state, and the
      character after them (not a digit) rejects. */
  lemma ExponentDigitsRun(q: LitState, s: string, p: nat, k: nat, mark: LitState)
    requires k > 0 && p + k <= |s| && AllDigits(s[p..p + k]) && (p + k < |s| ==> !IsDigit(s[p + k]))
    requires Run(q, s[..p]) == mark && (mark == ExpSign || mark == ExpMark)
    ensures Run(q, s[..p + k]) == ExpDigits && Stuck(ExpDigits, s[p + k..])
  {
    SliceFacts(s, p, p + k);
    RunSplit(q, s[..p + k], p);
    RunDigits(mark, s[p..p + k]);
    if p + k < |s| {
      StuckAtDead(ExpDigits, s[p + k..]);
    }
  }

  /** The state after the exponent letter and its optional sign. */
  lemma ExponentMark(q: LitState, s: string, signLen: nat) returns (mark: LitState)
    requires q == IntPart || q == FracPart
    requires |s| >= 2 && (s[0] == 'e' || s[0] == 'E')
    requires signLen == (if s[1] == '+' || s[1] == '-' then 1 else 0)
    ensures mark == (if signLen == 1 then ExpSign else ExpMark)
    ensures Run(q, s[..1 + signLen]) == mark && !Accepting(mark)
  {
    mark := if signLen == 1 then ExpSign else ExpMark;
    if signLen == 1 {
      assert s[..2] == [s[0]] + [s[1]];
      RunSplit(q, s[..2], 1);
      assert s[..2][..1] == [s[0]] && s[..2][1..] == [s[1]];
      RunOne(q, s[0]);
      RunOne(ExpMark, s[1]);
    } else {
      assert s[..1] == [s[0]];
      RunOne(q, s[0]);
    }
  }

  /** An exponent letter (and sign) with no digit after it: nothing from there is accepted. */
  lemma NoExponentDigits(q: LitState, s: string, signLen: nat, mark: LitState)
    requires q == IntPart || q == FracPart
    requires |s| >= 2 && (s[0] == 'e' || s[0] == 'E')
    requires signLen == (if s[1] == '+' || s[1] == '-' then 1 else 0)
    requires mark == (if signLen == 1 then ExpSign else ExpMark)
    requires 1 + signLen <= |s| && (1 + signLen < |s| ==> !IsDigit(s[1 + signLen]))
    ensures Stuck(q, s)
  {
    var rest := s[1 + signLen..];
    if rest == [] {
      assert Stuck(mark, rest);
    } else {
      StuckAtDead(mark, rest);
    }
    if signLen == 1 {
      assert s[1..][1..] == rest;
      StuckCons(ExpMark, s[1..]);
    }
    StuckCons(q, s);
  }

  /** `ScanDecimal` spans exactly the longest prefix of t that is a decimal literal, and finds
      none when no prefix is one. */
  lemma ScanDecimalLongest(t: string, signed: bool)
    ensures ScanDecimal(t, signed).Some? ==>
              IsDecimalLiteral(t[..ScanDecimal(t, signed).value.len], signed)
              && forall j :: ScanDecimal(t, signed).value.len < j <= |t| ==> !IsDecimalLiteral(t[..j], signed)
    ensures ScanDecimal(t, signed).None? ==> forall j :: 0 <= j <= |t| ==> !IsDecimalLiteral(t[..j], signed)
    decreases signed
  {
    if signed {
      SignedLongest(t);
    } else {
      UnsignedLongest(t);
    }
  }

  lemma SignedLongest(t: string)
    ensures ScanDecimal(t, true).Some? ==>
              IsDecimalLiteral(t[..ScanDecimal(t, true).value.len], true)
              && forall j :: ScanDecimal(t, true).value.len < j <= |t| ==> !IsDecimalLiteral(t[..j], true)
    ensures ScanDecimal(t, true).None? ==> forall j :: 0 <= j <= |t| ==> !IsDecimalLiteral(t[..j], true)
  {
    var signLen := if t != [] && (t[0] == '+' || t[0] == '-') then 1 else 0;
    var u := t[signLen..];
    UnsignedLongest(u);
    SignedSpan(t, signLen);
    forall j | 0 <= j <= |t|
      ensures IsDecimalLiteral(t[..j], true) <==> j >= signLen && IsDecimalLiteral(u[..j - signLen], false)
    {
      SignedPrefix(t, signLen, j);
    }
    SignedFromUnsigned(t, signLen, u, ScanDecimal(t, true), ScanDecimal(u, false));
  }

  /** The longest signed literal, from the longest unsigned one after the sign. */
  lemma SignedFromUnsigned(t: string, signLen: nat, u: string, r: Option<Scan>, ru: Option<Scan>)
    requires signLen <= |t| && u == t[signLen..]
    requires r.None? <==> ru.None?
    requires r.Some? ==> r.value.len == ru.value.len + signLen
    requires ru.Some? ==> ru.value.len <= |u|
    requires ru.Some? ==> IsDecimalLiteral(u[..ru.value.len], false)
                          && forall j :: ru.value.len < j <= |u| ==> !IsDecimalLiteral(u[..j], false)
    requires ru.None? ==> forall j :: 0 <= j <= |u| ==> !IsDecimalLiteral(u[..j], false)
    requires forall j :: 0 <= j <= |t| ==>
               (IsDecimalLiteral(t[..j], true) <==> j >= signLen && IsDecimalLiteral(u[..j - signLen], false))
    ensures r.Some? ==> r.value.len <= |t| && IsDecimalLiteral(t[..r.value.len], true)
                        && forall j :: r.value.len < j <= |t| ==> !IsDecimalLiteral(t[..j], true)
    ensures r.None? ==> forall j :: 0 <= j <= |t| ==> !IsDecimalLiteral(t[..j], true)
  {
  }

  /** The signed scan is the unsigned scan after the optional sign, one character longer
      when there is a sign. */
  lemma SignedSpan(t: string, signLen: nat)
    requires signLen == if t != [] && (t[0] == '+' || t[0] == '-') then 1 else 0
    ensures ScanDecimal(t, true).None? <==> ScanDecimal(t[signLen..], false).None?
    ensures ScanDecimal(t, true).Some? ==>
              ScanDecimal(t, true).value.len == ScanDecimal(t[signLen..], false).value.len + signLen
  {
    if signLen == 0 {
      assert t[signLen..] == t;
    }
  }

  /** A prefix of t is a signed literal exactly when, past the optional sign, it is an
      unsigned one. */
  lemma SignedPrefix(t: string, signLen: nat, j: nat)
    requires signLen == if t != [] && (t[0] == '+' || t[0] == '-') then 1 else 0
    requires j <= |t|
    ensures IsDecimalLiteral(t[..j], true) <==> j >= signLen && IsDecimalLiteral(t[signLen..][..j - signLen], false)
  {
    if j > 0 {
      var p := t[..j];
      assert p[1..] == t[1..][..j - 1];
      if signLen == 0 {
        assert t[signLen..] == t;
        assert Step(BeforeSign, p[0]) == Step(Start, p[0]);
      }
    }
  }

  lemma UnsignedLongest(t: string)
    ensures ScanDecimal(t, false).Some? ==>
              IsDecimalLiteral(t[..ScanDecimal(t, false).value.len], false)
              && forall j :: ScanDecimal(t, false).value.len < j <= |t| ==> !IsDecimalLiteral(t[..j], false)
    ensures ScanDecimal(t, false).None? ==> forall j :: 0 <= j <= |t| ==> !IsDecimalLiteral(t[..j], false)
  {
    ScanSpansParts(t);
    if UnsignedParts(t).None? {
      UnsignedNone(t);
    } else {
      var len := UnsignedSpan(t);
      LongestFromStuck(Start, t, len);
    }
  }

  /** The unsigned scan spans exactly its parts. */
  lemma ScanSpansParts(t: string)
    ensures ScanDecimal(t, false).None? <==> UnsignedParts(t).None?
    ensures ScanDecimal(t, false).Some? ==> ScanDecimal(t, false).value.len == UnsignedParts(t).value.len
  {
  }

  lemma UnsignedNone(t: string)
    requires UnsignedParts(t).None?
    ensures forall j :: 0 <= j <= |t| ==> !IsDecimalLiteral(t[..j], false)
  {
    var intDigits := LeadingDigits(t);
    if |intDigits| < |t| && t[|intDigits|] == '.' {
      assert LeadingDigits(t[1..]) == [];
    }
    NothingToRead(t);
  }

  /** The span of a successful unsigned scan ends in an accepting state of the recogniser,
      with nothing acceptable after it. */
  lemma UnsignedSpan(t: string) returns (len: nat)
    requires UnsignedParts(t).Some?
    ensures len == UnsignedParts(t).value.len <= |t|
    ensures Accepting(Run(Start, t[..len])) && Stuck(Run(Start, t[..len]), t[len..])
  {
    var n, hasDot, f, m := PartsShape(t);
    PartsFacts(t, n, hasDot, f, m);
    MantissaRun(t, n, hasDot, f, m);
    ExponentTail(t, m, if hasDot then FracPart else IntPart);
    len := UnsignedParts(t).value.len;
  }

  /** The pieces of a successful unsigned scan, named. */
  lemma PartsShape(t: string) returns (n: nat, hasDot: bool, f: string, m: nat)
    requires UnsignedParts(t).Some?
    ensures n == |LeadingDigits(t)| <= |t|
    ensures hasDot == (n < |t| && t[n] == '.')
    ensures hasDot ==> f == LeadingDigits(t[n + 1..])
    ensures !hasDot ==> f == []
    ensures n > 0 || f != []
    ensures m == n + (if hasDot then 1 + |f| else 0)
    ensures m <= |t| && UnsignedParts(t).value.len == m + (if ScanExponent(t[m..]).Some? then ScanExponent(t[m..]).value.1 else 0)
  {
    var i := LeadingDigits(t);
    n := |i|;
    hasDot := n < |t| && t[n] == '.';
    f := if hasDot then LeadingDigits(t[n + 1..]) else [];
    m := n + (if hasDot then 1 + |f| else 0);
    assert UnsignedParts(t) == MantissaParts(t, i, hasDot, f);
    MantissaSpan(t, i, hasDot, f, m);
  }

  /** The length of the literal once its mantissa is known. */
  lemma MantissaSpan(t: string, i: string, hasDot: bool, f: string, m: nat)
    requires hasDot || f == []
    requires m == |i| + (if hasDot then 1 + |f| else 0) <= |t|
    requires MantissaParts(t, i, hasDot, f).Some?
    ensures MantissaParts(t, i, hasDot, f).value.len
            == m + (if ScanExponent(t[m..]).Some? then ScanExponent(t[m..]).value.1 else 0)
  {
  }

  /** The integer digits, the dot and the fraction of a literal, as facts about positions
      in t. */
  lemma PartsFacts(t: string, n: nat, hasDot: bool, f: string, m: nat)
    requires n == |LeadingDigits(t)| <= |t|
    requires hasDot == (n < |t| && t[n] == '.')
    requires hasDot ==> f == LeadingDigits(t[n + 1..])
    requires !hasDot ==> f == []
    requires m == n + (if hasDot then 1 + |f| else 0)
    ensures AllDigits(t[..n]) && (n < |t| ==> !IsDigit(t[n]))
    ensures hasDot ==> n + 1 + |f| <= |t| && f == t[n + 1..n + 1 + |f|] && AllDigits(f)
                       && (n + 1 + |f| < |t| ==> !IsDigit(t[n + 1 + |f|]))
  {
    LeadingDigitsFacts(t);
    if hasDot {
      LeadingDigitsFacts(t[n + 1..]);
      SliceFacts(t, n + 1, m);
      if m < |t| {
        assert t[m] == t[n + 1..][|f|];
      }
    }
  }

  /** Slices of slices, stated once. */
  lemma SliceFacts(t: string, a: nat, b: nat)
    requires a <= b <= |t|
    ensures t[..b][..a] == t[..a] && t[..b][a..] == t[a..b]
    ensures t[a..][..b - a] == t[a..b] && t[a..][b - a..] == t[b..]
  {
  }

  /** When t starts with neither a digit nor a dot followed by a digit, no prefix of it is a
      literal. */
  lemma NothingToRead(t: string)
    requires t == [] || !IsDigit(t[0])
    requires |t| >= 2 && t[0] == '.' ==> !IsDigit(t[1])
    ensures forall j :: 0 <= j <= |t| ==> !IsDecimalLiteral(t[..j], false)
  {
    if t != [] {
      if t[0] == '.' {
        var rest := t[1..];
        if rest == [] {
          assert Stuck(DotOnly, rest);
        } else {
          StuckAtDead(DotOnly, rest);
        }
        StuckCons(Start, t);
      } else {
        StuckAtDead(Start, t);
      }
    }
  }

  /** After a mantissa that leaves the recogniser in q, the scan with its optional exponent
      ends in an accepting state with nothing acceptable after it. */
  lemma ExponentTail(t: string, m: nat, q: LitState)
    requires q == IntPart || q == FracPart
    requires m <= |t| && Run(Start, t[..m]) == q
    requires m == |t| || (!IsDigit(t[m]) && (q == IntPart ==> t[m] != '.'))
    ensures var len := m + (if ScanExponent(t[m..]).Some? then ScanExponent(t[m..]).value.1 else 0);
            len <= |t| && Accepting(Run(Start, t[..len])) && Stuck(Run(Start, t[..len]), t[len..])
  {
    var e := t[m..];
    ScanExponentRun(q, e);
    if ScanExponent(e).Some? {
      var el := ScanExponent(e).value.1;
      var len := m + el;
      SliceFacts(t, m, len);
      SliceFacts(t[m..], 0, el);
      RunSplit(Start, t[..len], m);
      assert t[len..] == e[el..];
    }
  }

  /** The recogniser's state after the integer digits t[..n] and the optional dot and
      fraction f. */
  lemma MantissaRun(t: string, n: nat, hasDot: bool, f: string, m: nat)
    requires n <= |t| && AllDigits(t[..n]) && (n < |t| ==> !IsDigit(t[n]))
    requires hasDot == (n < |t| && t[n] == '.')
    requires hasDot ==> n + 1 + |f| <= |t| && f == t[n + 1..n + 1 + |f|] && AllDigits(f)
                        && (n + 1 + |f| < |t| ==> !IsDigit(t[n + 1 + |f|]))
    requires !hasDot ==> f == []
    requires n > 0 || f != []
    requires m == n + (if hasDot then 1 + |f| else 0)
    ensures m <= |t| && Run(Start, t[..m]) == (if hasDot then FracPart else IntPart)
    ensures m == |t| || (!IsDigit(t[m]) && (!hasDot ==> t[m] != '.'))
  {
    if !hasDot {
      RunDigits(Start, t[..n]);
    } else {
      DottedRun(t, n, f);
    }
  }

  /** What `LeadingDigits` gives, as facts about indices. */
  lemma LeadingDigitsFacts(s: string)
    ensures LeadingDigits(s) == s[..|LeadingDigits(s)|]
  {
  }

  lemma PrefixOf(d: string, t: string)
    requires d <= t
    ensures d == t[..|d|]
  {
  }

  /** Digits, a dot and more digits lead the recogniser into the fraction. */
  lemma DottedRun(t: string, n: nat, f: string)
    requires n < |t| && t[n] == '.' && AllDigits(t[..n]) && AllDigits(f)
    requires n + 1 + |f| <= |t| && f == t[n + 1..n + 1 + |f|]
    requires n > 0 || f != []
    ensures Run(Start, t[..n + 1 + |f|]) == FracPart
  {
    var m := n + 1 + |f|;
    var u := t[..m];
    RunSplit(Start, u, n);
    assert u[..n] == t[..n];
    var afterInt := if n == 0 then Start else IntPart;
    if n > 0 {
      RunDigits(Start, t[..n]);
    }
    var tail := u[n..];
    assert tail == ['.'] + f;
    RunSplit(afterInt, tail, 1);
    assert tail[..1] == ['.'] && tail[1..] == f;
    RunOne(afterInt, '.');
    if f != [] {
      RunDigits(Step(afterInt, '.'), f);
    }
  }

  /** `parseFloat(s)`: the longest decimal-literal prefix after leading white space; None is NaN. */
  function ParseFloat(s: string): Option<real>
    decreases |s|
  {
    if s != [] && IsWhiteSpace(s[0]) then ParseFloat(s[1..])
    else match ScanDecimal(s, true)
      case None => None
      case Some(sc) => Some(sc.value)
  }

  /** `parseFloat` is the scan of the text after its leading white space. */
  lemma {:induction false} ParseFloatTrim(s: string)
    ensures ParseFloat(s) == match ScanDecimal(TrimStart(s), true)
                             case None => None
                             case Some(sc) => Some(sc.value)
    decreases |s|
  {
    if s != [] && IsWhiteSpace(s[0]) {
      ParseFloatTrim(s[1..]);
    }
  }

  /** `parseFloat` is NaN exactly when no prefix of the text after its leading white space is
      a StrDecimalLiteral; otherwise it is the value of the longest such prefix. */
  lemma ParseFloatLongest(s: string, t: string)
    requires t == TrimStart(s)
    ensures ParseFloat(s).None? <==> forall j :: 0 <= j <= |t| ==> !IsDecimalLiteral(t[..j], true)
    ensures ParseFloat(s).Some? ==>
              exists len :: 0 < len <= |t| && IsDecimalLiteral(t[..len], true)
                            && (forall j :: len < j <= |t| ==> !IsDecimalLiteral(t[..j], true))
                            && ScanDecimal(t, true) == Some(Scan(ParseFloat(s).value, len))
  {
    ParseFloatTrim(s);
    ScanDecimalLongest(t, true);
    if ScanDecimal(t, true).Some? {
      var len := ScanDecimal(t, true).value.len;
      assert IsDecimalLiteral(t[..len], true);
    }
  }

  /** Leading white space does not change what `parseFloat` reads. */
  lemma {:induction false} ParseFloatSkipsWhiteSpace(w: string, s: string)
    requires forall i :: 0 <= i < |w| ==> IsWhiteSpace(w[i])
    ensures ParseFloat(w + s) == ParseFloat(s)
    decreases |w|
  {
    if w != [] {
      assert (w + s)[0] == w[0] && (w + s)[1..] == w[1..] + s;
      ParseFloatSkipsWhiteSpace(w[1..], s);
    } else {
      assert w + s == s;
    }
  }

  /** The digit prefix of digits followed by a non-digit is those digits. */
  lemma {:induction false} LeadingDigitsPrefix(d: string, rest: string)
    requires AllDigits(d) && (rest == [] || !IsDigit(rest[0]))
    ensures LeadingDigits(d + rest) == d
    decreases |d|
  {
    if d != [] {
      assert (d + rest)[1..] == d[1..] + rest;
      LeadingDigitsPrefix(d[1..], rest);
    } else {
      assert d + rest == rest;
    }
  }

  /** `parseFloat` of an integer followed by text that cannot continue a number (such as
      "12 oz") is that integer: the rest is ignored. */
  lemma ParseFloatLeadingInteger(d: string, rest: string)
    requires d != [] && AllDigits(d)
    requires (rest == [] || (!IsDigit(rest[0]) && rest[0] != '.')) && ScanExponent(rest).None?
    ensures AllInBase(d, 10) && ParseFloat(d + rest) == Some(ValueInBase(d, 10) as real)
  {
    var t := d + rest;
    assert t[0] == d[0];
    ParseFloatUnsigned(t);
    ScanInteger(d, rest);
  }

  /** The unsigned scan of such an integer spans exactly its digits. */
  lemma ScanInteger(d: string, rest: string)
    requires d != [] && AllDigits(d)
    requires (rest == [] || (!IsDigit(rest[0]) && rest[0] != '.')) && ScanExponent(rest).None?
    ensures AllInBase(d, 10) && ScanDecimal(d + rest, false) == Some(Scan(ValueInBase(d, 10) as real, |d|))
  {
    DigitsInBase(d);
    var t := d + rest;
    LeadingDigitsPrefix(d, rest);
    assert t[|d|..] == rest;
    assert d + [] == d;
  }

  /** Moving the decimal point k places left divides by 10^k. */
  lemma {:induction false} ShiftDown(m: real, k: nat)
    ensures ShiftDecimal(m, -(k as int)) == m / Pow10(k)
    decreases k
  {
    if k > 0 {
      ShiftDown(m / 10.0, k - 1);
      assert ShiftDecimal(m, -(k as int)) == ShiftDecimal(m / 10.0, -((k - 1) as int));
      DivideTwice(m, Pow10(k - 1));
    }
  }

  /** Dividing by 10 and then by p is dividing by 10 p. */
  lemma DivideTwice(m: real, p: real)
    requires p > 0.0
    ensures (m / 10.0) / p == m / (10.0 * p)
  {
    var q := m / (10.0 * p);
    DivMulCancel(m, 10.0 * p);
    assert m == q * (10.0 * p);
    assert m / 10.0 == q * p;
    DivMulCancel(q, p);
  }

  /** `parseFloat` of digits, a dot and digits (as in "11.5" or ".25"), followed by text that
      neither starts with a digit nor begins an exponent, is the numeral of all the digits
      divided by 10 to the number of fraction digits. */
  lemma ParseFloatDecimal(i: string, f: string, rest: string)
    requires AllDigits(i) && AllDigits(f) && (i != [] || f != [])
    requires (rest == [] || !IsDigit(rest[0])) && ScanExponent(rest).None?
    ensures AllInBase(i + f, 10)
    ensures ParseFloat(i + "." + f + rest) == Some(ValueInBase(i + f, 10) as real / Pow10(|f|))
  {
    assert AllDigits(i + f);
    DottedValue(i + "." + f + rest, i, f, rest);
    DecimalShiftValue(i + f, |f|);
  }

  /** Digits with the decimal point moved k places left are their numeral over 10^k. */
  lemma DecimalShiftValue(d: string, k: nat)
    requires AllDigits(d)
    ensures AllInBase(d, 10) && DecimalValue(d, 0 - k) == ValueInBase(d, 10) as real / Pow10(k)
  {
    DigitsInBase(d);
    ShiftDown(ValueInBase(d, 10) as real, k);
  }

  lemma DottedValue(t: string, i: string, f: string, rest: string)
    requires t == i + "." + f + rest
    requires AllDigits(i) && AllDigits(f) && (i != [] || f != [])
    requires (rest == [] || !IsDigit(rest[0])) && ScanExponent(rest).None?
    ensures AllDigits(i + f)
    ensures ParseFloat(t) == Some(DecimalValue(i + f, 0 - |f|))
  {
    var p := Parts(i, f, 0, |i| + 1 + |f|);
    DottedParts(i, f, rest);
    assert t[0] == '.' || IsDigit(t[0]) by {
      if i == [] { assert t[0] == '.'; } else { assert t[0] == i[0]; }
    }
    ParseFloatFromParts(t, p);
  }

  /** What `parseFloat` reads from text that starts with a digit or a dot, in terms of the
      pieces of its unsigned literal. */
  lemma ParseFloatFromParts(t: string, p: Parts)
    requires t != [] && (t[0] == '.' || IsDigit(t[0]))
    requires UnsignedParts(t) == Some(p)
    ensures AllDigits(p.intDigits + p.fracDigits)
    ensures ParseFloat(t) == Some(DecimalValue(p.intDigits + p.fracDigits, p.expValue - |p.fracDigits|))
  {
    ParseFloatUnsigned(t);
    ScanFromParts(t, p);
  }

  /** Text that starts with a digit or a dot is read by `parseFloat` as an unsigned literal. */
  lemma ParseFloatUnsigned(t: string)
    requires t != [] && (t[0] == '.' || IsDigit(t[0]))
    ensures ParseFloat(t).Some? == ScanDecimal(t, false).Some?
    ensures ParseFloat(t).Some? ==> ParseFloat(t).value == ScanDecimal(t, false).value.value
  {
    assert !IsWhiteSpace(t[0]) && t[0] != '+' && t[0] != '-';
  }

  /** The unsigned scan in terms of the pieces of its literal. */
  lemma ScanFromParts(t: string, p: Parts)
    requires UnsignedParts(t) == Some(p)
    ensures AllDigits(p.intDigits + p.fracDigits)
    ensures ScanDecimal(t, false) == Some(Scan(DecimalValue(p.intDigits + p.fracDigits, p.expValue - |p.fracDigits|), p.len))
  {
  }

  /** The pieces of digits, a dot, digits and text that starts with no digit and no exponent. */
  lemma DottedParts(i: string, f: string, rest: string)
    requires AllDigits(i) && AllDigits(f) && (i != [] || f != [])
    requires (rest == [] || !IsDigit(rest[0])) && ScanExponent(rest).None?
    ensures UnsignedParts(i + "." + f + rest) == Some(Parts(i, f, 0, |i| + 1 + |f|))
  {
    var t := i + "." + f + rest;
    DottedSlices(t, i, f, rest);
    LeadingDigitsPrefix(i, "." + f + rest);
    LeadingDigitsPrefix(f, rest);
    DottedMantissa(t, i, f);
    MantissaWithoutExponent(t, i, f, rest);
  }

  /** Where the pieces of digits, a dot, digits and more text sit in their concatenation. */
  lemma DottedSlices(t: string, i: string, f: string, rest: string)
    requires t == i + "." + f + rest
    ensures t == i + ("." + f + rest) && |i| < |t| && t[|i|] == '.'
    ensures t[|i| + 1..] == f + rest && t[|i| + 1 + |f|..] == rest
  {
    assert t == i + ("." + f + rest);
  }

  /** A literal whose integer digits are followed by a dot reads its fraction after the dot. */
  lemma DottedMantissa(t: string, i: string, f: string)
    requires LeadingDigits(t) == i && |i| < |t| && t[|i|] == '.'
    requires LeadingDigits(t[|i| + 1..]) == f
    ensures UnsignedParts(t) == MantissaParts(t, i, true, f)
  {
  }

  /** A mantissa followed by text that is no exponent is the whole literal. */
  lemma MantissaWithoutExponent(t: string, i: string, f: string, rest: string)
    requires i != [] || f != []
    requires |i| + 1 + |f| <= |t| && t[|i| + 1 + |f|..] == rest
    requires ScanExponent(rest).None?
    ensures MantissaParts(t, i, true, f) == Some(Parts(i, f, 0, |i| + 1 + |f|))
  {
  }

  /** `parseInt` reads back the decimal text of a counter. */
  lemma ParseIntNatToString(n: nat)
    ensures ParseIntDigits(NatToString(n)) == Some(n)
  {
  }

  /** `parseFloat` reads back the decimal text of a counter. */
  lemma ParseFloatNatToString(n: nat)
    ensures ParseFloat(NatToString(n)) == Some(n as real)
  {
    var s := NatToString(n);
    assert s + [] == s;
    ParseFloatLeadingInteger(s, []);
  }

  /** NonDecimalIntegerLiteral: `0b…`, `0o…` or `0x…`, spanning the whole of `t`. */
  function NonDecimalInteger(t: string): (r: Option<nat>)
    ensures r.Some? ==> |t| >= 3 && t[0] == '0'
  {
    if |t| < 3 || t[0] != '0' then None
    else
      var base := if t[1] in "bB" then 2 else if t[1] in "oO" then 8 else if t[1] in "xX" then 16 else 0;
      if base != 0 && AllInBase(t[2..], base) then Some(ValueInBase(t[2..], base)) else None
  }

  /** `parseFloat` reads only the leading "0" of a non-decimal integer ("0x1A" gives 0),
      while `Number` reads all of it. */
  lemma NonDecimalParseFloat(t: string)
    requires NonDecimalInteger(t).Some?
    ensures ParseFloat(t) == Some(0.0)
    ensures StringToNumber(t) == Some(NonDecimalInteger(t).value as real)
  {
    var rest := t[1..];
    assert t == "0" + rest;
    assert rest[0] in "bBoOxX";
    ParseFloatLeadingInteger("0", rest);
    assert ValueInBase("0", 10) == 0 by { assert "0"[..0] == ""; }
    assert !IsWhiteSpace(t[0]) && !IsWhiteSpace(t[|t| - 1]) by {
      assert InBase(t[|t| - 1], 2) || InBase(t[|t| - 1], 8) || InBase(t[|t| - 1], 16) by {
        assert t[|t| - 1] == t[2..][|t| - 3];
      }
    }
    TrimsNothing(t);
  }

  /** `Number(s)` for a string (StringToNumber, ECMA-262 section 7.1.4.1.1): white space only
      gives 0, otherwise the whole trimmed text must be one numeric literal; None is NaN. */
  function StringToNumber(s: string): (r: Option<real>)
    ensures TrimEnd(TrimStart(s)) == [] ==> r == Some(0.0)
  {
    TrimmedNumber(TrimEnd(TrimStart(s)))
  }

  /** StringToNumber of text without white space at either end. */
  function TrimmedNumber(t: string): Option<real>
  {
    if t == [] then Some(0.0)
    else if NonDecimalInteger(t).Some? then Some(NonDecimalInteger(t).value as real)
    else match ScanDecimal(t, true)
      case Some(sc) => if sc.len == |t| then Some(sc.value) else None
      case None => None
  }

  /** Trimmed text is a number exactly when it is empty, a non-decimal integer or, as a whole,
      one StrDecimalLiteral; the literal's value is then the number. */
  lemma StringToNumberLiteral(s: string, t: string)
    requires t == TrimEnd(TrimStart(s))
    ensures StringToNumber(s).Some? <==> t == [] || NonDecimalInteger(t).Some? || IsDecimalLiteral(t, true)
    ensures NonDecimalInteger(t).None? && IsDecimalLiteral(t, true) ==>
              ScanDecimal(t, true) == Some(Scan(StringToNumber(s).value, |t|))
  {
    if t != [] && NonDecimalInteger(t).None? {
      WholeLiteral(t);
    }
  }

  /** Text is one StrDecimalLiteral exactly when the scan of its longest literal prefix
      spans all of it. */
  lemma WholeLiteral(t: string)
    ensures IsDecimalLiteral(t, true) <==> ScanDecimal(t, true).Some? && ScanDecimal(t, true).value.len == |t|
  {
    ScanDecimalLongest(t, true);
    assert t[..|t|] == t;
  }

  /** Unlike `parseFloat`, `Number` rejects a number followed by other text ("12 oz"). */
  lemma NumberRejectsTrailingText(d: string, rest: string)
    requires d != [] && AllDigits(d)
    requires rest != [] && !IsDigit(rest[0]) && rest[0] != '.' && rest[0] != 'e' && rest[0] != 'E'
    requires !(rest[0] in "bBoOxX") && !IsWhiteSpace(rest[|rest| - 1])
    ensures AllInBase(d, 10) && ParseFloat(d + rest) == Some(ValueInBase(d, 10) as real)
    ensures StringToNumber(d + rest).None?
  {
    ParseFloatLeadingInteger(d, rest);
    var t := d + rest;
    assert t[..|d|] == d && t[|d|..] == rest;
    TrailingText(t, |d|);
  }

  /** Text that starts with n digits and goes on with something other than a number. */
  lemma TrailingText(t: string, n: nat)
    requires 0 < n < |t| && AllDigits(t[..n])
    requires !IsDigit(t[n]) && t[n] != '.' && t[n] != 'e' && t[n] != 'E' && !(t[n] in "bBoOxX")
    requires !IsWhiteSpace(t[|t| - 1])
    ensures StringToNumber(t).None?
  {
    assert IsDigit(t[..n][0]);
    TrimsNothing(t);
    NotNonDecimal(t, n);
    DigitsThenStop(t, n);
    PartialLiteral(t);
  }

  /** Text that starts and ends with other characters than white space is its own trim. */
  lemma TrimsNothing(t: string)
    requires t != [] && !IsWhiteSpace(t[0]) && !IsWhiteSpace(t[|t| - 1])
    ensures TrimEnd(TrimStart(t)) == t
  {
    assert TrimStart(t) == t;
  }

  lemma NotNonDecimal(t: string, n: nat)
    requires 0 < n < |t| && AllDigits(t[..n]) && !(t[n] in "bBoOxX")
    ensures NonDecimalInteger(t).None?
  {
    if n > 1 { assert IsDigit(t[..n][1]); }
  }

  lemma DigitsThenStop(t: string, n: nat)
    requires 0 < n < |t| && AllDigits(t[..n])
    requires !IsDigit(t[n]) && t[n] != '.' && t[n] != 'e' && t[n] != 'E'
    ensures ScanDecimal(t, true).Some? && ScanDecimal(t, true).value.len == n
  {
    ScanInteger(t[..n], t[n..]);
    assert t[..n] + t[n..] == t;
    assert IsDigit(t[..n][0]);
  }

  /** Text that is not a non-decimal integer and whose literal prefix stops short of its end
      is not a number. */
  lemma PartialLiteral(t: string)
    requires NonDecimalInteger(t).None?
    requires ScanDecimal(t, true).Some? && ScanDecimal(t, true).value.len < |t|
    ensures TrimmedNumber(t).None?
  {
  }

  // ----- Rounding -----

  function Abs(x: real): real { if x < 0.0 then -x else x }

  /** 10^21: from this magnitude on, `toFixed` prints the number unrounded. */
  const FIXED_LIMIT: real := 1_000_000_000_000_000_000_000.0

  /** `Math.round(x)`: the integer closest to x, ties towards +infinity. */
  function MathRound(x: real): (n: int)
    ensures x - 0.5 < n as real <= x + 0.5
  {
    (x + 0.5).Floor
  }

  /** `Number(x.toFixed(f))`: x rounded to f fractional digits, halves away from zero;
      a magnitude of 10^21 or more is returned as it is. */
  function ToFixed(x: real, f: nat): (r: real)
    ensures (r < 0.0 ==> x < 0.0) && (x >= 0.0 ==> r >= 0.0)
  {
    if x < 0.0 then -FixedMagnitude(-x, f) else FixedMagnitude(x, f)
  }

  function FixedMagnitude(x: real, f: nat): (r: real)
    requires x >= 0.0
    ensures r >= 0.0
  {
    if x >= FIXED_LIMIT then x else HalfUpAtScale(x, Pow10(f))
  }

  /** x rounded to the nearest multiple of 1/p, halves upwards. */
  function HalfUpAtScale(x: real, p: real): (r: real)
    requires x >= 0.0 && p > 0.0
    ensures r >= 0.0
  {
    ((x * p + 0.5).Floor as real) / p
  }

  /** `toFixed(2)`, the currency precision of the sheet: within half a cent, in whole cents
      below 10^21, and never reversing the order of two amounts. */
  function Round2(x: real): (r: real)
    ensures Abs(r - x) <= 0.005
    ensures Abs(x) < FIXED_LIMIT ==> WholeUnits(r, 100.0)
    ensures forall y :: x <= y ==> r <= ToFixed(y, 2)
  {
    ToFixedNearest(x, 2);
    assert Pow10(2) == 100.0;
    forall y | x <= y ensures ToFixed(x, 2) <= ToFixed(y, 2) { ToFixedMonotone(x, y, 2); }
    ToFixed(x, 2)
  }

  /** `toFixed(1)`, the precision of a percentage: within 0.05, in whole tenths below 10^21,
      and never reversing the order of two percentages. */
  function Round1(x: real): (r: real)
    ensures Abs(r - x) <= 0.05
    ensures Abs(x) < FIXED_LIMIT ==> WholeUnits(r, 10.0)
    ensures forall y :: x <= y ==> r <= ToFixed(y, 1)
  {
    ToFixedNearest(x, 1);
    assert Pow10(1) == 10.0;
    forall y | x <= y ensures ToFixed(x, 1) <= ToFixed(y, 1) { ToFixedMonotone(x, y, 1); }
    ToFixed(x, 1)
  }

  /** True when y is a whole number. */
  predicate IsIntegral(y: real) { (y.Floor as real) == y }

  /** True when r is a whole number of units 1/p (for p = 100: r has at most two decimals). */
  predicate WholeUnits(r: real, p: real) { IsIntegral(r * p) }

  // Small facts of real arithmetic, stated once so that the proofs below stay linear.

  lemma DivMulCancel(a: real, p: real)
    requires p > 0.0
    ensures (a / p) * p == a && (a * p) / p == a
  {
  }

  lemma DivSub(a: real, b: real, p: real)
    requires p > 0.0
    ensures a / p - b == (a - b * p) / p
  {
  }

  lemma DivRange(a: real, p: real)
    requires p > 0.0 && -0.5 < a <= 0.5
    ensures -0.5 / p < a / p <= 0.5 / p
  {
    assert (a / p) * p == a;
  }

  lemma MulMonotone(x: real, y: real, p: real)
    requires p > 0.0 && x <= y
    ensures x * p <= y * p
  {
  }

  lemma DivMonotone(x: real, y: real, p: real)
    requires p > 0.0 && x <= y
    ensures x / p <= y / p
  {
    DivMulCancel(x, p);
    DivMulCancel(y, p);
    if x / p > y / p {
      MulMonotone(y / p, x / p, p);
    }
  }

  lemma WholeUnitsNegate(r: real, p: real)
    requires WholeUnits(r, p)
    ensures WholeUnits(-r, p)
  {
    var k := (r * p).Floor;
    assert (-r) * p == -(k as real);
    assert (-(k as real)).Floor == -k;
  }

  lemma FloorBelow(a: real, m: int)
    requires a < m as real + 1.0
    ensures a.Floor <= m
  {
  }

  lemma FloorMonotone(a: real, b: real)
    requires a <= b
    ensures a.Floor <= b.Floor
  {
    FloorBelow(a, b.Floor);
  }

  lemma IntegralMul(a: int, b: int)
    ensures (a as real) * (b as real) == (a * b) as real
  {
  }

  lemma {:induction false} Pow10Integral(f: nat)
    ensures IsIntegral(Pow10(f)) && WholeUnits(FIXED_LIMIT, Pow10(f))
  {
    if f > 0 {
      Pow10Integral(f - 1);
      var k := Pow10(f - 1).Floor;
      assert Pow10(f) == (10 * k) as real;
      IntegralMul(1_000_000_000_000_000_000_000, 10 * k);
    } else {
      assert FIXED_LIMIT * Pow10(f) == FIXED_LIMIT;
    }
  }

  lemma HalfUpAtScaleNearest(x: real, p: real)
    requires x >= 0.0 && p > 0.0
    ensures Abs(HalfUpAtScale(x, p) - x) <= 0.5 / p
    ensures WholeUnits(HalfUpAtScale(x, p), p)
    ensures Abs(HalfUpAtScale(x, p) - x) == 0.5 / p ==> HalfUpAtScale(x, p) > x
  {
    var k := (x * p + 0.5).Floor;
    var n := k as real;
    DivMulCancel(n, p);
    DivSub(n, x, p);
    DivRange(n - x * p, p);
    assert HalfUpAtScale(x, p) * p == n;
    assert n.Floor == k;
  }

  lemma FixedMagnitudeNearest(x: real, f: nat)
    requires x >= 0.0
    ensures Abs(FixedMagnitude(x, f) - x) <= 0.5 / Pow10(f)
    ensures x < FIXED_LIMIT ==> WholeUnits(FixedMagnitude(x, f), Pow10(f))
    ensures x < FIXED_LIMIT && Abs(FixedMagnitude(x, f) - x) == 0.5 / Pow10(f)
            ==> FixedMagnitude(x, f) > x
  {
    if x < FIXED_LIMIT {
      HalfUpAtScaleNearest(x, Pow10(f));
    }
  }

  /** `toFixed` picks the nearest multiple of 10^-f, and of two equally near ones the one of
      larger magnitude (section 21.1.3.3 of ECMA-262, applied to |x| with the sign put back);
      from 10^21 on the number is left as it is. */
  lemma ToFixedNearest(x: real, f: nat)
    ensures Abs(ToFixed(x, f) - x) <= 0.5 / Pow10(f)
    ensures Abs(x) < FIXED_LIMIT ==> WholeUnits(ToFixed(x, f), Pow10(f))
    ensures Abs(x) < FIXED_LIMIT && Abs(ToFixed(x, f) - x) == 0.5 / Pow10(f)
            ==> Abs(ToFixed(x, f)) > Abs(x)
    ensures Abs(x) >= FIXED_LIMIT ==> ToFixed(x, f) == x
  {
    if x < 0.0 {
      FixedMagnitudeNearest(-x, f);
      if -x < FIXED_LIMIT {
        WholeUnitsNegate(FixedMagnitude(-x, f), Pow10(f));
      }
    } else {
      FixedMagnitudeNearest(x, f);
    }
  }

  lemma HalfUpAtScaleMonotone(x: real, y: real, p: real)
    requires 0.0 <= x <= y && p > 0.0
    ensures HalfUpAtScale(x, p) <= HalfUpAtScale(y, p)
  {
    MulMonotone(x, y, p);
    var a, b := x * p + 0.5, y * p + 0.5;
    FloorMonotone(a, b);
    DivMonotone(a.Floor as real, b.Floor as real, p);
  }

  /** Below a multiple m of 1/p, rounding to a multiple of 1/p never passes m. */
  lemma HalfUpAtScaleBelow(x: real, m: real, p: real)
    requires 0.0 <= x <= m && p > 0.0 && WholeUnits(m, p)
    ensures HalfUpAtScale(x, p) <= m
  {
    MulMonotone(x, m, p);
    var a := x * p + 0.5;
    FloorBelow(a, (m * p).Floor);
    DivMonotone(a.Floor as real, m * p, p);
    DivMulCancel(m, p);
  }

  lemma FixedMagnitudeMonotone(x: real, y: real, f: nat)
    requires 0.0 <= x <= y
    ensures FixedMagnitude(x, f) <= FixedMagnitude(y, f)
  {
    if y < FIXED_LIMIT {
      HalfUpAtScaleMonotone(x, y, Pow10(f));
    } else if x < FIXED_LIMIT {
      // x rounds to at most 10^21, itself a multiple of 10^-f
      Pow10Integral(f);
      HalfUpAtScaleBelow(x, FIXED_LIMIT, Pow10(f));
    }
  }

  /** `toFixed` never puts two numbers in the opposite order. */
  lemma ToFixedMonotone(x: real, y: real, f: nat)
    requires x <= y
    ensures ToFixed(x, f) <= ToFixed(y, f)
  {
    if 0.0 <= x {
      FixedMagnitudeMonotone(x, y, f);
    } else if y < 0.0 {
      FixedMagnitudeMonotone(-y, -x, f);
    }
  }

  // ----- Decimal text of a natural number -----

  function DigitChar(d: nat): (c: char)
    requires d < 10
    ensures IsDigit(c) && HexDigitValue(c) == d
  {
    ('0' as int + d) as char
  }

  /** The decimal text of n, without leading zeros (`String(n)` for an integer). */
  function NatToString(n: nat): (s: string)
    ensures s != [] && AllDigits(s)
    ensures |s| == 1 <==> n < 10
    ensures AllInBase(s, 10) && ValueInBase(s, 10) == n
  {
    if n < 10 then [DigitChar(n)]
    else
      var s := NatToString(n / 10) + [DigitChar(n % 10)];
      assert s[..|s| - 1] == NatToString(n / 10);
      s
  }
}
