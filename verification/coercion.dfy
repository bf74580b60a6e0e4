/**
  Cell coercion: the per-cell conversion that record construction applies
  (app/dashboard/page.tsx, inside processExcelFile).
*/
module Coercion {
  import opened JsValues

  /** `!isNaN(x) && isFinite(x)`. */
  predicate IsUsableNumber(x: JsNumber) {
    x.Finite?
  }

  /**
    The value stored for one raw cell. Blank cells become null, numbers stay,
    text is trimmed and read as a number directly, then with `$`, `,` and `%`
    removed, and is otherwise kept as trimmed text; other values pass through.
  */
  function Coerce(rt: JsRuntime, c: Cell): (r: Cell)
    ensures r.Null? <==> IsBlank(c)
    ensures r.Str? ==> c.Str? && r.s == Trim(c.s)
    ensures r.Num? ==> c.Num? || IsUsableNumber(r.n)
    ensures !c.Str? ==> r == c || r.Null?
    ensures c.Str? && c.s != "" && IsUsableNumber(rt.toNumber(Trim(c.s))) ==> r == Num(rt.toNumber(Trim(c.s)))
    ensures r.Str? ==> !IsUsableNumber(rt.toNumber(r.s)) && !IsUsableNumber(rt.toNumber(StripFormatting(r.s)))
    ensures c.Str? && c.s != "" ==> r.Num? || r.Str?
    ensures c.Str? && c.s != "" && !IsUsableNumber(rt.toNumber(Trim(c.s))) ==>
      var cleaned := rt.toNumber(StripFormatting(Trim(c.s)));
      (IsUsableNumber(cleaned) ==> r == Num(cleaned)) && (!IsUsableNumber(cleaned) ==> r == Str(Trim(c.s)))
  {
    match c
    case Null => Null
    case Num(_) => c
    case Other(_, _) => c
    case Str(s) =>
      if s == "" then Null
      else
        var trimmed := Trim(s);
        var direct := rt.toNumber(trimmed);
        if IsUsableNumber(direct) then Num(direct)
        else
          var cleaned := rt.toNumber(StripFormatting(trimmed));
          if IsUsableNumber(cleaned) then Num(cleaned)
          else Str(trimmed)
  }

  /**
    Coercion never produces empty text: whitespace-only text reads as 0,
    because `Number("")` is 0.
  */
  lemma CoerceNeverEmptyText(rt: JsRuntime, c: Cell)
    requires ParsesEmptyAsZero(rt)
    ensures Coerce(rt, c) != Str("")
    ensures c.Str? && c.s != "" && AllWhitespace(c.s) ==> Coerce(rt, c) == Num(Finite(0.0))
  {
    if c.Str? && c.s != "" && Trim(c.s) == "" {
      assert StripFormatting("") == "";
    }
  }

  /**
    Text whose trimmed form holds only `$`, `,` and `%` becomes a number: the
    direct parse when that is finite, and otherwise 0, since stripping the
    trimmed text leaves "".
  */
  lemma CoerceFormattingOnlyIsNumber(rt: JsRuntime, s: string)
    requires ParsesEmptyAsZero(rt)
    requires s != ""
    requires forall i :: 0 <= i < |Trim(s)| ==> IsFormattingChar(Trim(s)[i])
    ensures var t := Trim(s);
      Coerce(rt, Str(s)) == Num(if rt.toNumber(t).Finite? then rt.toNumber(t) else Finite(0.0))
  {
    assert StripFormatting(Trim(s)) == "";
  }

  /** Coercing an already coerced value changes nothing; in particular a number stays that number. */
  lemma CoerceIdempotent(rt: JsRuntime, c: Cell)
    requires ParsesEmptyAsZero(rt)
    ensures Coerce(rt, Coerce(rt, c)) == Coerce(rt, c)
  {
    var r := Coerce(rt, c);
    if r.Str? {
      CoerceNeverEmptyText(rt, c);
      TrimIdempotent(c.s);
    }
  }

  /** Currency text reads as its amount once `$` and `,` are stripped (given how `Number` reads both strings). */
  lemma CurrencyTextIsNumber(rt: JsRuntime)
    requires rt.toNumber("$1,250") == NaN && rt.toNumber("1250") == Finite(1250.0)
    ensures Coerce(rt, Str("$1,250")) == Num(Finite(1250.0))
  {
    TrimKeepsTrimmed("$1,250");
    StripCurrency();
  }

  /** Removing `$` and `,` from "$1,250" leaves "1250". */
  lemma StripCurrency()
    ensures StripFormatting("$1,250") == "1250"
  {
  }

  /** Text that neither parse accepts is kept as text. */
  lemma UnparsableTextIsKept(rt: JsRuntime)
    requires rt.toNumber("N/A") == NaN
    ensures Coerce(rt, Str("N/A")) == Str("N/A")
  {
    TrimKeepsTrimmed("N/A");
    assert StripFormatting("N/A") == "N/A";
  }
}
