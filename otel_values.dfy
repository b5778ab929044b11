/**
 * Attribute values of the OpenTelemetry trace reader in the end-to-end tests.
 *
 * An exported attribute carries its value as a JSON object with one of the
 * members `stringValue`, `intValue` (a decimal string, as OTLP/JSON writes
 * 64-bit integers) or `boolValue`. The reader turns it into a Python value and
 * reports the value's type; Python's `bool` is a subclass of `int`, so the
 * order of the type tests matters.
 */
module OtelValues {
  import opened Wrappers

  /** A JSON scalar as the JSON decoder hands it over. */
  datatype JsonScalar = JStr(s: string) | JNum(n: int) | JBool(b: bool) | JNull

  /** The Python values an attribute can end up holding. */
  datatype PyValue = PyStr(s: string) | PyInt(i: int) | PyBool(b: bool) | PyNone

  /** The three type names the reader reports. */
  datatype ValType = StringType | IntType | BoolType

  datatype AttrError =
    | MissingValue          // the attribute has no "value" member
    | UnsupportedValue      // none of the three known members is present
    | NotAnInteger          // int() rejects the "intValue" member

  /** A decoded attribute value. */
  datatype AttributeValue = AttributeValue(value: PyValue)

  // ---------------------------------------------------------------------------
  // Python's view of values
  // ---------------------------------------------------------------------------

  /** `isinstance(v, int)`: true for booleans as well. */
  predicate IsInstanceInt(v: PyValue) {
    v.PyInt? || v.PyBool?
  }

  /** `isinstance(v, bool)`. */
  predicate IsInstanceBool(v: PyValue) {
    v.PyBool?
  }

  /** The numeric value of an `int` or `bool` (True is 1, False is 0). */
  function NumericValue(v: PyValue): int
    requires IsInstanceInt(v)
  {
    if v.PyBool? then (if v.b then 1 else 0) else v.i
  }

  /** Python's `==` on these values: `True == 1` and `False == 0` hold. */
  predicate PyEq(a: PyValue, b: PyValue) {
    if IsInstanceInt(a) && IsInstanceInt(b) then NumericValue(a) == NumericValue(b)
    else a == b
  }

  /** The value a dictionary key is identified by: equal Python values give one key. */
  function DictKey(v: PyValue): (r: PyValue)
    ensures !r.PyBool?
    ensures PyEq(v, r)
  {
    if v.PyBool? then PyInt(if v.b then 1 else 0) else v
  }

  /** Two values are the same dictionary key exactly when Python finds them equal. */
  lemma DictKeyMatchesEquality(a: PyValue, b: PyValue)
    ensures DictKey(a) == DictKey(b) <==> PyEq(a, b)
  {
  }

  /** `AttributeValue.get_type`: the bool test comes first. */
  function GetType(a: AttributeValue): (r: ValType)
    ensures r == BoolType <==> a.value.PyBool?
    ensures r == IntType <==> a.value.PyInt?
    ensures r == StringType <==> (a.value.PyStr? || a.value.PyNone?)
  {
    if IsInstanceBool(a.value) then BoolType
    else if IsInstanceInt(a.value) then IntType
    else StringType
  }

  /** With the test order reversed a boolean would be reported as an integer. */
  function GetTypeIntFirst(a: AttributeValue): ValType {
    if IsInstanceInt(a.value) then IntType
    else if IsInstanceBool(a.value) then BoolType
    else StringType
  }

  lemma IntFirstMisreportsBooleans(b: bool)
    ensures GetTypeIntFirst(AttributeValue(PyBool(b))) == IntType
    ensures GetType(AttributeValue(PyBool(b))) == BoolType
  {
  }

  // ---------------------------------------------------------------------------
  // int() on strings
  // ---------------------------------------------------------------------------

  /** The characters for which Python's `str.isspace` holds. */
  predicate PySpace(c: char) {
    c == ' ' || '\t' <= c <= '\r' || '\U{1C}' <= c <= '\U{1F}' || c == '\U{85}' || c == '\U{A0}'
    || c == '\U{1680}' || '\U{2000}' <= c <= '\U{200A}' || c == '\U{2028}' || c == '\U{2029}'
    || c == '\U{202F}' || c == '\U{205F}' || c == '\U{3000}'
  }

  /** `s` with leading and trailing whitespace removed, as `int()` does first. */
  function Strip(s: string): (r: string)
    ensures |r| > 0 ==> !PySpace(r[0]) && !PySpace(r[|r| - 1])
    ensures |r| <= |s|
    decreases |s|
  {
    if |s| > 0 && PySpace(s[0]) then Strip(s[1..])
    else if |s| > 0 && PySpace(s[|s| - 1]) then Strip(s[..|s| - 1])
    else s
  }

  /** Every character of `s` before `a` or from `b` on is whitespace. */
  predicate SpaceOutside(s: string, a: nat, b: nat) {
    forall k :: 0 <= k < |s| && (k < a || b <= k) ==> PySpace(s[k])
  }

  /** Strip removes whitespace at the two ends and nothing else: its result is one slice of `s`. */
  lemma StripSlice(s: string)
    ensures exists a: nat, b: nat :: a <= b <= |s| && Strip(s) == s[a..b] && SpaceOutside(s, a, b)
  {
    var a, b := StripBounds(s);
  }

  /** The bounds of the slice Strip keeps. */
  lemma {:induction false} StripBounds(s: string) returns (a: nat, b: nat)
    ensures a <= b <= |s| && Strip(s) == s[a..b] && SpaceOutside(s, a, b)
    decreases |s|
  {
    if |s| > 0 && PySpace(s[0]) {
      var a', b' := StripBounds(s[1..]);
      a, b := a' + 1, b' + 1;
      SpaceOutsideTail(s, a', b');
    } else if |s| > 0 && PySpace(s[|s| - 1]) {
      a, b := StripBounds(s[..|s| - 1]);
      SpaceOutsideInit(s, a, b);
    } else {
      a, b := 0, |s|;
    }
  }

  lemma SpaceOutsideTail(s: string, a: nat, b: nat)
    requires |s| > 0 && PySpace(s[0]) && a <= b <= |s| - 1 && SpaceOutside(s[1..], a, b)
    ensures s[1..][a..b] == s[a + 1..b + 1] && SpaceOutside(s, a + 1, b + 1)
  {
    forall k | 0 <= k < |s| && (k < a + 1 || b + 1 <= k) ensures PySpace(s[k]) {
      if k > 0 { assert s[k] == s[1..][k - 1]; }
    }
  }

  lemma SpaceOutsideInit(s: string, a: nat, b: nat)
    requires |s| > 0 && PySpace(s[|s| - 1]) && a <= b <= |s| - 1 && SpaceOutside(s[..|s| - 1], a, b)
    ensures s[..|s| - 1][a..b] == s[a..b] && SpaceOutside(s, a, b)
  {
    forall k | 0 <= k < |s| && (k < a || b <= k) ensures PySpace(s[k]) {
      if k < |s| - 1 { assert s[k] == s[..|s| - 1][k]; }
    }
  }

  lemma StripNoSpaceAtEnds(s: string)
    requires |s| > 0 && !PySpace(s[0]) && !PySpace(s[|s| - 1])
    ensures Strip(s) == s
  {
  }

  predicate IsDigit(c: char) {
    '0' <= c <= '9'
  }

  predicate AllDigits(ds: string) {
    forall i :: 0 <= i < |ds| ==> IsDigit(ds[i])
  }

  /** The value of a string of decimal digits, most significant first. */
  function DigitsValue(ds: string): nat
    requires AllDigits(ds)
    decreases |ds|
  {
    if ds == [] then 0
    else DigitsValue(ds[..|ds| - 1]) * 10 + (ds[|ds| - 1] as int - '0' as int)
  }

  /** A non-empty run of digits, read as a natural number. */
  function ParseDigits(ds: string): (r: Option<nat>)
    ensures r.Some? <==> |ds| > 0 && AllDigits(ds)
  {
    if |ds| > 0 && AllDigits(ds) then Some(DigitsValue(ds)) else None
  }

  /**
   * Python's `int(s)` on a string: surrounding whitespace, an optional sign and
   * at least one decimal digit; anything else raises ValueError (None here).
   */
  function ParseInt(s: string): Option<int> {
    var t := Strip(s);
    if |t| > 0 && (t[0] == '-' || t[0] == '+') then
      match ParseDigits(t[1..])
      case None => None
      case Some(n) => var v: int := if t[0] == '-' then -(n as int) else n as int; Some(v)
    else
      match ParseDigits(t)
      case None => None
      case Some(n) => var v: int := n; Some(v)
  }

  /** The decimal digits of `n`, most significant first, no leading zeros. */
  function NatToString(n: nat): (r: string)
    ensures |r| > 0 && AllDigits(r)
    decreases n
  {
    if n < 10 then [(n + '0' as int) as char]
    else NatToString(n / 10) + [((n % 10) + '0' as int) as char]
  }

  /** The decimal form of `n` that OTLP/JSON writes and `str(n)` gives. */
  function IntToString(n: int): string {
    if n < 0 then "-" + NatToString(-n) else NatToString(n)
  }

  lemma {:induction false} DigitsOfNatToString(n: nat)
    ensures DigitsValue(NatToString(n)) == n
    decreases n
  {
    var r := NatToString(n);
    if n >= 10 {
      DigitsOfNatToString(n / 10);
      assert r[..|r| - 1] == NatToString(n / 10);
    }
  }

  /** `int(str(n)) == n` for every integer `n`. */
  lemma ParseIntRoundTrip(n: int)
    ensures ParseInt(IntToString(n)) == Some(n)
  {
    var s := IntToString(n);
    var d := NatToString(if n < 0 then -n else n);
    DigitsOfNatToString(if n < 0 then -n else n);
    assert !PySpace(d[0]) && !PySpace(d[|d| - 1]);
    if n < 0 {
      assert s[0] == '-' && s[|s| - 1] == d[|d| - 1];
      StripNoSpaceAtEnds(s);
      assert s[1..] == d;
    } else {
      StripNoSpaceAtEnds(s);
    }
  }

  /** Text with no digit at all is never an integer. */
  lemma ParseIntNeedsDigit(s: string)
    requires forall c :: c in s ==> !IsDigit(c)
    ensures ParseInt(s) == None
  {
    var t := Strip(s);
    StripKeepsCharacters(s);
    if |t| > 1 {
      assert t[1] in t;
    } else if |t| == 1 {
      assert t[0] in t;
    }
  }

  /** Stripping only removes characters. */
  lemma {:induction false} StripKeepsCharacters(s: string)
    ensures forall c :: c in Strip(s) ==> c in s
    decreases |s|
  {
    if |s| > 0 && PySpace(s[0]) {
      StripKeepsCharacters(s[1..]);
      forall c | c in s[1..] ensures c in s {
        var i :| 0 <= i < |s[1..]| && s[1..][i] == c;
        assert s[i + 1] == c;
      }
    } else if |s| > 0 && PySpace(s[|s| - 1]) {
      StripKeepsCharacters(s[..|s| - 1]);
      forall c | c in s[..|s| - 1] ensures c in s {
        var i :| 0 <= i < |s[..|s| - 1]| && s[..|s| - 1][i] == c;
        assert s[i] == c;
      }
    }
  }

  // ---------------------------------------------------------------------------
  // Decoding
  // ---------------------------------------------------------------------------

  /** The Python value the JSON decoder gives for a JSON scalar. */
  function FromJson(j: JsonScalar): PyValue {
    match j
    case JStr(s) => PyStr(s)
    case JNum(n) => PyInt(n)
    case JBool(b) => PyBool(b)
    case JNull => PyNone
  }

  /** `int(x)` on a decoded JSON scalar; None stands for the exception int() raises. */
  function IntOf(j: JsonScalar): Option<int> {
    match j
    case JStr(s) => ParseInt(s)
    case JNum(n) => Some(n)
    case JBool(b) => Some(if b then 1 else 0)
    case JNull => None
  }

  /**
   * The `AttributeValue` constructor. `value` is the attribute's "value" member,
   * None when it is missing or null.
   */
  function DecodeAttribute(value: Option<map<string, JsonScalar>>): (r: Result<AttributeValue, AttrError>)
    ensures value.None? <==> r == Failure(MissingValue)
    ensures value.Some? && "stringValue" in value.value ==>
      r == Success(AttributeValue(FromJson(value.value["stringValue"])))
    ensures value.Some? && "stringValue" !in value.value && "intValue" in value.value ==>
      (r.Success? <==> IntOf(value.value["intValue"]).Some?) &&
      (r.Success? ==> r.value.value == PyInt(IntOf(value.value["intValue"]).value))
    ensures value.Some? && "stringValue" !in value.value && "intValue" !in value.value && "boolValue" in value.value ==>
      r == Success(AttributeValue(FromJson(value.value["boolValue"])))
    ensures r == Failure(NotAnInteger) <==>
      value.Some? && "stringValue" !in value.value && "intValue" in value.value
      && IntOf(value.value["intValue"]).None?
    ensures r == Failure(UnsupportedValue) <==>
      value.Some? && "stringValue" !in value.value && "intValue" !in value.value
      && "boolValue" !in value.value
  {
    match value
    case None => Failure(MissingValue)
    case Some(v) =>
      if "stringValue" in v then Success(AttributeValue(FromJson(v["stringValue"])))
      else if "intValue" in v then
        match IntOf(v["intValue"])
        case None => Failure(NotAnInteger)
        case Some(n) => Success(AttributeValue(PyInt(n)))
      else if "boolValue" in v then Success(AttributeValue(FromJson(v["boolValue"])))
      else Failure(UnsupportedValue)
  }

  /** How the exporter writes a value: one member named after its type. */
  function EncodeAttribute(v: PyValue): map<string, JsonScalar>
    requires !v.PyNone?
  {
    match v
    case PyStr(s) => map["stringValue" := JStr(s)]
    case PyInt(i) => map["intValue" := JStr(IntToString(i))]
    case PyBool(b) => map["boolValue" := JBool(b)]
  }

  /** Decoding what the exporter wrote gives back the value, with its type. */
  lemma DecodeEncode(v: PyValue)
    requires !v.PyNone?
    ensures DecodeAttribute(Some(EncodeAttribute(v))) == Success(AttributeValue(v))
  {
    if v.PyInt? {
      ParseIntRoundTrip(v.i);
    }
  }
}
