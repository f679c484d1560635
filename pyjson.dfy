/** The JSON values a request body can hold and Python's `int()` applied
    to them, as the config endpoint uses it. */
module PyJson {
  import opened Wrappers

  /** A decoded JSON value; numbers with a fraction or an exponent decode
      to Python floats (`JFloat`), others to ints. */
  datatype Json =
    | JNull
    | JBool(b: bool)
    | JInt(i: int)
    | JFloat(r: real)
    | JString(s: string)
    | JArray(items: seq<Json>)
    | JObject(members: map<string, Json>)

  /** Python truthiness of the decoded value. */
  predicate Truthy(v: Json) {
    match v
    case JNull => false
    case JBool(b) => b
    case JInt(i) => i != 0
    case JFloat(r) => r != 0.0
    case JString(s) => |s| > 0
    case JArray(items) => |items| > 0
    case JObject(m) => |m| > 0
  }

  /** The characters `int()` strips around its digits: ASCII tab, line
      feed, vertical tab, form feed, carriage return and space, and the
      non-ASCII white space of `str.isspace()` (which `int()` first maps
      to a space). The ASCII separators U+001C..U+001F, which
      `str.isspace()` also accepts, are not stripped. */
  predicate IsSpace(c: char) {
    var n := c as int;
    (9 <= n <= 13) || n == 32 || n == 0x85 || n == 0xA0 || n == 0x1680
    || (0x2000 <= n <= 0x200A) || n == 0x2028 || n == 0x2029 || n == 0x202F
    || n == 0x205F || n == 0x3000
  }

  function StripLeft(s: string): (t: string)
    ensures |t| <= |s|
    ensures t == s[|s| - |t|..]
    ensures |t| > 0 ==> !IsSpace(t[0])
  {
    if |s| > 0 && IsSpace(s[0]) then StripLeft(s[1..]) else s
  }

  function StripRight(s: string): (t: string)
    ensures |t| <= |s|
    ensures t == s[..|t|]
    ensures |t| > 0 ==> !IsSpace(t[|t| - 1])
  {
    if |s| > 0 && IsSpace(s[|s| - 1]) then StripRight(s[..|s| - 1]) else s
  }

  /** The white space `int()` ignores, removed from both ends. */
  function Strip(s: string): string {
    StripRight(StripLeft(s))
  }

  predicate IsDigit(c: char) { '0' <= c <= '9' }

  /** Decimal digits with single underscores between them, as `int()`
      accepts in base 10 ("1_000" but not "1__000", "_1" or "1_"). */
  predicate DigitGroups(t: string) {
    && |t| > 0 && IsDigit(t[0]) && IsDigit(t[|t| - 1])
    && (forall i :: 0 <= i < |t| ==> IsDigit(t[i]) || t[i] == '_')
    && (forall i :: 0 <= i < |t| - 1 && t[i] == '_' ==> t[i + 1] != '_')
  }

  /** The number the digits of `t` spell, underscores skipped. */
  function DigitsValue(t: string): nat {
    if |t| == 0 then 0
    else
      var c := t[|t| - 1];
      var v := DigitsValue(t[..|t| - 1]);
      if IsDigit(c) then 10 * v + (c as int - '0' as int) else v
  }

  /** `int(s)` for a `str`: optional surrounding white space, an optional
      sign, then digit groups; anything else raises ValueError (None). */
  function ParseIntText(s: string): Option<int> {
    var t := Strip(s);
    if |t| > 0 && (t[0] == '+' || t[0] == '-') then
      if DigitGroups(t[1..]) then
        Some(if t[0] == '-' then -(DigitsValue(t[1..]) as int) else DigitsValue(t[1..]))
      else None
    else if DigitGroups(t) then Some(DigitsValue(t))
    else None
  }

  /** The ASCII separators U+001C..U+001F are not white space to
      `int()`: a string that starts with one is refused. */
  lemma SeparatorIsNotStripped(s: string)
    requires |s| > 0 && 0x1C <= s[0] as int <= 0x1F
    ensures ParseIntText(s) == None
  {
    assert !IsSpace(s[0]);
    assert StripLeft(s) == s;
    var t := StripRight(s);
    assert t == s[..|t|];
    if |t| > 0 {
      assert t[0] == s[0];
      assert t[0] != '+' && t[0] != '-' && !IsDigit(t[0]);
      assert !DigitGroups(t);
    }
  }

  /** `int(x)` for a float: truncation toward zero. */
  function Truncate(r: real): (t: int)
    ensures 0.0 <= r ==> 0 <= t && t as real <= r < t as real + 1.0
    ensures r < 0.0 ==> t <= 0 && t as real - 1.0 < r <= t as real
  {
    if r >= 0.0 then r.Floor else -((-r).Floor)
  }

  /** `int(v)`; None where Python raises (TypeError for None, lists and
      dicts, ValueError for a malformed string). `int(True)` is 1. */
  function PyInt(v: Json): Option<int> {
    match v
    case JBool(b) => Some(if b then 1 else 0)
    case JInt(i) => Some(i)
    case JFloat(r) => Some(Truncate(r))
    case JString(s) => ParseIntText(s)
    case _ => None
  }

  function DigitChar(d: nat): (c: char)
    requires d < 10
    ensures IsDigit(c) && c as int - '0' as int == d
  {
    ('0' as int + d) as char
  }

  /** `str(n)` for a natural number. */
  function Decimal(n: nat): string {
    if n < 10 then [DigitChar(n)] else Decimal(n / 10) + [DigitChar(n % 10)]
  }

  /** `str(i)`. */
  function PyStr(i: int): string {
    if i < 0 then "-" + Decimal(-i) else Decimal(i)
  }

  lemma {:induction false} DecimalDigits(n: nat)
    ensures |Decimal(n)| > 0
    ensures forall k :: 0 <= k < |Decimal(n)| ==> IsDigit(Decimal(n)[k])
    ensures DigitsValue(Decimal(n)) == n
  {
    if n >= 10 {
      DecimalDigits(n / 10);
      var d := Decimal(n);
      assert d[..|d| - 1] == Decimal(n / 10);
    }
  }

  lemma StripUnpadded(s: string)
    requires |s| > 0 && !IsSpace(s[0]) && !IsSpace(s[|s| - 1])
    ensures Strip(s) == s
  {
    assert StripLeft(s) == s;
  }

  lemma AllDigitsAreGroups(t: string)
    requires |t| > 0 && forall k :: 0 <= k < |t| ==> IsDigit(t[k])
    ensures DigitGroups(t)
  {
  }

  /** Digit groups parse to their value. */
  lemma ParseDigitGroups(t: string)
    requires DigitGroups(t)
    ensures ParseIntText(t) == Some(DigitsValue(t))
  {
    assert !IsSpace(t[0]) && !IsSpace(t[|t| - 1]);
    StripUnpadded(t);
    assert !(t[0] == '+' || t[0] == '-');
  }

  /** A minus sign followed by digit groups parses to the negated value. */
  lemma ParseNegated(t: string)
    requires DigitGroups(t)
    ensures ParseIntText("-" + t) == Some(-(DigitsValue(t) as int))
  {
    var s := "-" + t;
    assert s[0] == '-' && s[1..] == t && s[|s| - 1] == t[|t| - 1];
    assert !IsSpace(s[0]) && !IsSpace(s[|s| - 1]);
    StripUnpadded(s);
  }

  /** `int(str(i)) == i` for every integer. */
  lemma IntOfStr(i: int)
    ensures ParseIntText(PyStr(i)) == Some(i)
  {
    var n := if i < 0 then -i else i;
    DecimalDigits(n);
    AllDigitsAreGroups(Decimal(n));
    if i < 0 {
      ParseNegated(Decimal(n));
    } else {
      ParseDigitGroups(Decimal(n));
    }
  }
}
