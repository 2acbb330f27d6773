/** Decoded JSON as the exporter sees it (after `json.loads`), and Python's
    `str()` of such values, which is how sensor labels become strings. */
module Json {

  /** A decoded JSON scalar or compound. Floats and compounds are opaque: a
      float is carried by its Python `repr` text (what `str()` prints), a
      JSON array or object by its Python `str()` text. They are only stored
      and copied, never computed with. A Python float's repr and the `str()`
      of a list or dict are never the text "None"; the model does not
      constrain the carried text, so `Float("None")` and `Compound("None")`
      exist as values but cannot come from `json.loads`. */
  datatype Value =
    | Null                    // JSON null, Python None
    | Bool(b: bool)
    | Int(i: int)
    | Float(repr: string)
    | Text(s: string)
    | Compound(repr: string)

  /** A decoded JSON object: field name to value. */
  type Record = map<string, Value>

  /** What `json.loads` makes of one line. */
  datatype Decoded =
    | Malformed               // json.loads raised ValueError
    | Object(fields: Record)  // the line held a JSON object
    | NotAnObject(v: Value)   // valid JSON, but not an object
    | Raised                  // json.loads raised something other than ValueError
                              // (RecursionError on deeply nested input, MemoryError)

  predicate IsDigit(c: char) { '0' <= c <= '9' }

  function DigitChar(d: nat): (c: char)
    requires d < 10
    ensures IsDigit(c) && c as int - '0' as int == d
  {
    ('0' as int + d) as char
  }

  /** Decimal digits of `n`, without leading zeros: Python's `str(n)` for n >= 0. */
  function NatToString(n: nat): (s: string)
    ensures |s| >= 1
    ensures forall i :: 0 <= i < |s| ==> IsDigit(s[i])
    ensures |s| > 1 ==> s[0] != '0'
    decreases n
  {
    if n < 10 then [DigitChar(n)] else NatToString(n / 10) + [DigitChar(n % 10)]
  }

  /** Python's `str(i)` for an int: a minus sign exactly for a negative
      number, then decimal digits. */
  function IntToString(i: int): (s: string)
    ensures |s| >= 1
    ensures s[0] == '-' <==> i < 0
    ensures forall k :: (if i < 0 then 1 else 0) <= k < |s| ==> IsDigit(s[k])
  {
    if i < 0 then "-" + NatToString(-i) else NatToString(i)
  }

  /** The number a string of decimal digits denotes. */
  function DigitsValue(s: string): nat
    requires forall i :: 0 <= i < |s| ==> IsDigit(s[i])
  {
    if s == [] then 0
    else
      assert IsDigit(s[|s| - 1]);
      DigitsValue(s[..|s| - 1]) * 10 + (s[|s| - 1] as int - '0' as int)
  }

  /** Reading back the digits `str(n)` prints gives `n`. */
  lemma {:induction false} NatToStringRoundTrip(n: nat)
    ensures DigitsValue(NatToString(n)) == n
    decreases n
  {
    var s := NatToString(n);
    if n >= 10 {
      NatToStringRoundTrip(n / 10);
      assert s[..|s| - 1] == NatToString(n / 10);
    }
  }

  /** Distinct integers print differently, so two integer labels share a key
      only when they are equal. */
  lemma IntToStringInjective(a: int, b: int)
    ensures IntToString(a) == IntToString(b) ==> a == b
  {
    if IntToString(a) == IntToString(b) {
      if a < 0 && b < 0 {
        assert NatToString(-a) == IntToString(a)[1..];
        assert NatToString(-b) == IntToString(b)[1..];
        NatToStringRoundTrip(-a);
        NatToStringRoundTrip(-b);
      } else if a >= 0 && b >= 0 {
        NatToStringRoundTrip(a);
        NatToStringRoundTrip(b);
      }
    }
  }

  /** Python's `str()` of a decoded JSON value. A string prints as itself,
      and only null and values whose text is already "None" print as "None"
      (no integer or boolean does; the `Float` and `Compound` cases of the
      "None" clause cannot arise from real input, see `Value`). */
  function Str(v: Value): (s: string)
    ensures v.Text? ==> s == v.s
    ensures s == "None" <==> v == Null || v == Text("None") || v == Float("None") || v == Compound("None")
  {
    match v
    case Null => "None"
    case Bool(b) => if b then "True" else "False"
    case Int(i) => IntToString(i)
    case Float(repr) => repr
    case Text(s) => s
    case Compound(repr) => repr
  }
}
