/**
  The JavaScript values the spreadsheet pipeline sees, and the few built-in
  string operations it relies on: `String.prototype.trim`, the `/[$,%]/g`
  replacement and the decimal rendering of a non-negative integer.
  JavaScript's `Number(text)` and `String(number)` are kept abstract, as the
  two functions of a `JsRuntime` value passed in by the caller.
*/
module JsValues {

  /** An IEEE double as far as the pipeline cares: finite, NaN or infinite. */
  datatype JsNumber = Finite(value: real) | NaN | PositiveInfinity | NegativeInfinity

  /** The result of `typeof` on a non-null cell value. */
  datatype JsType = NumberType | StringType | BooleanType | ObjectType

  /** Cells that are neither numbers nor strings: booleans and object-typed values (dates). */
  datatype OtherKind = BooleanValue | ObjectValue

  /**
    One spreadsheet cell as the grid reader delivers it, or as coercion leaves it.
    JavaScript `null` and `undefined` are always tested together, so both are `Null`.
    `shown` is the value's `String(...)` rendering.
  */
  datatype Cell = Null | Num(n: JsNumber) | Str(s: string) | Other(kind: OtherKind, shown: string)

  /** A record: header name to value, as a plain JavaScript object keyed by string. */
  type Record = map<string, Cell>

  /** A raw grid: rows of cells, row 0 being the prospective header row. */
  type Grid = seq<seq<Cell>>

  /**
    The parts of the JavaScript engine the pipeline calls but whose exact
    behaviour is not modelled: `Number(text)` and `String(number)`.
  */
  datatype JsRuntime = JsRuntime(toNumber: string -> JsNumber, numberToString: JsNumber -> string)

  /** The one fact about `Number` the coercion code depends on: `Number("")` is 0. */
  predicate ParsesEmptyAsZero(rt: JsRuntime) {
    rt.toNumber("") == Finite(0.0)
  }

  /** `typeof` of a non-null value. */
  function TypeOf(c: Cell): (t: JsType)
    requires !c.Null?
    ensures t == NumberType <==> c.Num?
    ensures t == StringType <==> c.Str?
  {
    match c
    case Num(_) => NumberType
    case Str(_) => StringType
    case Other(kind, _) => if kind == BooleanValue then BooleanType else ObjectType
  }

  /** The test `v === null || v === undefined || v === ""` the pipeline applies to raw cells. */
  predicate IsBlank(c: Cell) {
    c.Null? || c == Str("")
  }

  /** `row[i]`: an index beyond the end of a row reads as `undefined`. */
  function At(row: seq<Cell>, i: nat): (c: Cell)
    ensures i >= |row| ==> c.Null?
    ensures i < |row| ==> c == row[i]
  {
    if i < |row| then row[i] else Null
  }

  /** `String(value)` for a non-null cell. */
  function Display(rt: JsRuntime, c: Cell): string
    requires !c.Null?
  {
    match c
    case Num(n) => rt.numberToString(n)
    case Str(s) => s
    case Other(_, shown) => shown
  }

  /**
    The characters `String.prototype.trim` removes: ECMAScript WhiteSpace
    (tab, vertical tab, form feed, space, no-break space, byte order mark and
    the Unicode space separators) and LineTerminator.
  */
  predicate IsJsWhitespace(c: char) {
    || c == '\t' || c == '\n' || c == '\U{000B}' || c == '\U{000C}' || c == '\r'
    || c == ' ' || c == '\U{00A0}' || c == '\U{1680}'
    || ('\U{2000}' <= c <= '\U{200A}')
    || c == '\U{2028}' || c == '\U{2029}' || c == '\U{202F}' || c == '\U{205F}'
    || c == '\U{3000}' || c == '\U{FEFF}'
  }

  predicate AllWhitespace(s: string) {
    forall i :: 0 <= i < |s| ==> IsJsWhitespace(s[i])
  }

  /** Neither the first nor the last character of `s` is whitespace. */
  predicate HasCleanEnds(s: string) {
    s == [] || (!IsJsWhitespace(s[0]) && !IsJsWhitespace(s[|s| - 1]))
  }

  /** Leading whitespace removed: the longest suffix of `s` not starting with whitespace. */
  function TrimStart(s: string): (r: string)
    ensures |r| <= |s| && r == s[|s| - |r|..]
    ensures r == [] || !IsJsWhitespace(r[0])
    ensures forall i :: 0 <= i < |s| - |r| ==> IsJsWhitespace(s[i])
  {
    if s == [] || !IsJsWhitespace(s[0]) then s else TrimStart(s[1..])
  }

  /** Trailing whitespace removed: the longest prefix of `s` not ending with whitespace. */
  function TrimEnd(s: string): (r: string)
    ensures |r| <= |s| && r == s[..|r|]
    ensures r == [] || !IsJsWhitespace(r[|r| - 1])
    ensures forall i :: |r| <= i < |s| ==> IsJsWhitespace(s[i])
  {
    if s == [] || !IsJsWhitespace(s[|s| - 1]) then s else TrimEnd(s[..|s| - 1])
  }

  /** `s.trim()`. */
  function Trim(s: string): (r: string)
    ensures |r| <= |s|
    ensures r == [] || (!IsJsWhitespace(r[0]) && !IsJsWhitespace(r[|r| - 1]))
    ensures r == [] <==> AllWhitespace(s)
  {
    var t := TrimStart(s);
    var r := TrimEnd(t);
    TrimEndKeepsFirst(t);
    TrimEmptyIffAllWhitespace(s, t);
    r
  }

  /**
    Trim removes surrounding whitespace and nothing else: its result is the
    slice of `s` starting at `i`, and everything before and after that slice
    is whitespace. With the clean ends `Trim` ensures, this fixes the result.
  */
  lemma TrimRemovesOnlySurroundingWhitespace(s: string) returns (i: nat)
    ensures i + |Trim(s)| <= |s| && Trim(s) == s[i..i + |Trim(s)|]
    ensures forall k :: 0 <= k < i ==> IsJsWhitespace(s[k])
    ensures forall k :: i + |Trim(s)| <= k < |s| ==> IsJsWhitespace(s[k])
  {
    var t := TrimStart(s);
    i := |s| - |t|;
    assert t == s[i..];
    assert Trim(s) == TrimEnd(s[i..]);
    TrimEndOfSuffix(s, i);
  }

  /** Trimming the end of the suffix `s[i..]` keeps a slice of `s` and drops only whitespace. */
  lemma TrimEndOfSuffix(s: string, i: nat)
    requires i <= |s|
    ensures var r := TrimEnd(s[i..]); i + |r| <= |s| && r == s[i..i + |r|]
    ensures forall k :: i + |TrimEnd(s[i..])| <= k < |s| ==> IsJsWhitespace(s[k])
  {
    var t := s[i..];
    var r := TrimEnd(t);
    forall k | i + |r| <= k < |s|
      ensures IsJsWhitespace(s[k])
    {
      assert s[k] == t[k - i];
    }
  }

  lemma TrimEndKeepsFirst(t: string)
    requires t == [] || !IsJsWhitespace(t[0])
    ensures var r := TrimEnd(t); r == [] || (!IsJsWhitespace(r[0]) && !IsJsWhitespace(r[|r| - 1]))
  {
    var r := TrimEnd(t);
    if r != [] { assert r[0] == t[0]; }
  }

  lemma TrimEmptyIffAllWhitespace(s: string, t: string)
    requires t == TrimStart(s)
    ensures TrimEnd(t) == [] <==> AllWhitespace(s)
  {
    var k := |s| - |t|;
    var r := TrimEnd(t);
    if r == [] {
      assert t[|r|..] == t;
      assert s[..k] == s;
    }
  }

  /** Text that neither starts nor ends with whitespace is left alone by trim. */
  lemma TrimKeepsTrimmed(s: string)
    requires HasCleanEnds(s)
    ensures Trim(s) == s
  {
    assert TrimStart(s) == s;
    assert TrimEnd(s) == s;
  }

  /** A trimmed text is its own trim. */
  lemma TrimIdempotent(s: string)
    ensures Trim(Trim(s)) == Trim(s)
  {
    TrimKeepsTrimmed(Trim(s));
  }

  /** The characters `/[$,%]/g` matches. */
  predicate IsFormattingChar(c: char) {
    c == '$' || c == ',' || c == '%'
  }

  /** `s.replace(/[$,%]/g, "")`: every dollar sign, comma and percent sign removed. */
  function StripFormatting(s: string): (r: string)
    ensures |r| <= |s|
    ensures forall i :: 0 <= i < |r| ==> !IsFormattingChar(r[i])
    ensures r == [] <==> forall i :: 0 <= i < |s| ==> IsFormattingChar(s[i])
    ensures (forall i :: 0 <= i < |s| ==> !IsFormattingChar(s[i])) ==> r == s
  {
    if s == [] then []
    else
      var rest := StripFormatting(s[1..]);
      assert forall i :: 1 <= i < |s| ==> s[i] == s[1..][i - 1];
      if IsFormattingChar(s[0]) then rest else [s[0]] + rest
  }

  /** Stripping works character by character, so it keeps the order of what it keeps. */
  lemma {:induction false} StripFormattingConcat(a: string, b: string)
    ensures StripFormatting(a + b) == StripFormatting(a) + StripFormatting(b)
  {
    if a == [] {
      assert a + b == b;
    } else {
      assert (a + b)[1..] == a[1..] + b;
      StripFormattingConcat(a[1..], b);
    }
  }

  function DigitChar(d: nat): (c: char)
    requires d < 10
    ensures '0' <= c <= '9' && c as int - '0' as int == d
  {
    ('0' as int + d) as char
  }

  /** `n.toString()` for a non-negative integer: its decimal digits, no leading zero. */
  function DecimalString(n: nat): (r: string)
    ensures |r| >= 1
    ensures forall i :: 0 <= i < |r| ==> '0' <= r[i] <= '9'
    ensures r[0] == '0' ==> n == 0
  {
    if n < 10 then [DigitChar(n)] else DecimalString(n / 10) + [DigitChar(n % 10)]
  }

  /** The value of a string of decimal digits. */
  function DecimalValue(s: string): nat
    requires forall i :: 0 <= i < |s| ==> '0' <= s[i] <= '9'
  {
    if s == [] then 0 else 10 * DecimalValue(s[..|s| - 1]) + ((s[|s| - 1] as int - '0' as int) as nat)
  }

  /** The rendering is faithful: reading the digits back gives the number. */
  lemma {:induction false} DecimalStringRoundTrip(n: nat)
    ensures DecimalValue(DecimalString(n)) == n
  {
    var r := DecimalString(n);
    if n >= 10 {
      var q, d := n / 10, n % 10;
      assert r == DecimalString(q) + [DigitChar(d)];
      DecimalStringRoundTrip(q);
      assert r[..|r| - 1] == DecimalString(q);
      assert DecimalValue(r) == 10 * q + d;
    }
  }

  /** Distinct numbers render as distinct strings (stated positively). */
  lemma DecimalStringDistinct(m: nat, n: nat)
    requires m != n
    ensures DecimalString(m) != DecimalString(n)
  {
    DecimalStringRoundTrip(m);
    DecimalStringRoundTrip(n);
  }

  /** A larger number never has a shorter rendering. */
  lemma {:induction false} DecimalStringLengthMonotone(m: nat, n: nat)
    requires m <= n
    ensures |DecimalString(m)| <= |DecimalString(n)|
  {
    if m >= 10 {
      DecimalStringLengthMonotone(m / 10, n / 10);
    }
  }

}
