/**
 * The Python values a value holder sees, with the parts of Python's `==`,
 * `str()`, `int()` and `bool()` that the holders' coercions rely on.
 * Floats and user-defined objects are outside this universe.
 */
module PyValues {
  import opened Wrappers
  import Decimal

  datatype PyValue =
    | PyNone
    | PyBool(b: bool)
    | PyInt(i: int)
    | PyStr(s: string)
    | PyTuple(items: seq<PyValue>)

  /** `bool` is a subclass of `int` in Python: `True == 1` and `False == 0`. */
  predicate IsNumber(v: PyValue) {
    v.PyBool? || v.PyInt?
  }

  function NumberOf(v: PyValue): int
    requires IsNumber(v)
  {
    if v.PyBool? then (if v.b then 1 else 0) else v.i
  }

  /** Python's `a == b` on this universe; `!=` is its negation. */
  predicate Eq(a: PyValue, b: PyValue)
    ensures Eq(a, b) ==> (IsNumber(a) <==> IsNumber(b)) && (a.PyTuple? <==> b.PyTuple?)
    decreases a
  {
    if IsNumber(a) || IsNumber(b) then
      IsNumber(a) && IsNumber(b) && NumberOf(a) == NumberOf(b)
    else
      match a
      case PyNone => b.PyNone?
      case PyStr(s) => b.PyStr? && b.s == s
      case PyTuple(xs) =>
        b.PyTuple? && |xs| == |b.items|
        && forall k | 0 <= k < |xs| :: Eq(xs[k], b.items[k])
      case _ => false
  }

  lemma {:induction false} EqReflexive(a: PyValue)
    ensures Eq(a, a)
    decreases a
  {
    if a.PyTuple? {
      forall k | 0 <= k < |a.items| ensures Eq(a.items[k], a.items[k]) {
        EqReflexive(a.items[k]);
      }
    }
  }

  lemma {:induction false} EqSymmetric(a: PyValue, b: PyValue)
    ensures Eq(a, b) == Eq(b, a)
    decreases a
  {
    if a.PyTuple? && b.PyTuple? && |a.items| == |b.items| {
      forall k | 0 <= k < |a.items| ensures Eq(a.items[k], b.items[k]) == Eq(b.items[k], a.items[k]) {
        EqSymmetric(a.items[k], b.items[k]);
      }
    }
  }

  /** A 1-tuple is never equal to a value that is not a tuple. */
  lemma SingletonNeverEqualsScalar(x: PyValue, v: PyValue)
    requires !v.PyTuple?
    ensures !Eq(PyTuple([x]), v) && !Eq(v, PyTuple([x]))
  {
  }

  /** A value never equals the one-element tuple that holds it. */
  lemma {:induction false} NeverEqualsOwnSingleton(d: PyValue)
    ensures !Eq(PyTuple([d]), d)
    decreases d
  {
    if d.PyTuple? && |d.items| == 1 {
      var e := d.items[0];
      assert d == PyTuple([e]);
      NeverEqualsOwnSingleton(e);
    } else if !d.PyTuple? {
      SingletonNeverEqualsScalar(d, d);
    }
  }

  /** Python's `repr()`; string escaping is simplified to single quotes. */
  function Repr(v: PyValue): string
    decreases v, 2
  {
    if v.PyStr? then "'" + v.s + "'" else Str(v)
  }

  /** `repr` of the items of a tuple, separated by ", ". */
  function ReprItems(owner: PyValue, xs: seq<PyValue>): string
    requires forall k | 0 <= k < |xs| :: xs[k] < owner
    decreases owner, 0, |xs|
  {
    if xs == [] then ""
    else if |xs| == 1 then Repr(xs[0])
    else Repr(xs[0]) + ", " + ReprItems(owner, xs[1..])
  }

  /** The text Python's `str()` writes, before the digit limit is applied. */
  function Str(v: PyValue): (r: string)
    ensures v.PyInt? ==> Decimal.ParseInt(r) == Some(v.i)
    ensures v.PyTuple? ==> |r| >= 2 && r[0] == '(' && r[|r| - 1] == ')'
    decreases v, 1
  {
    match v
    case PyNone => "None"
    case PyBool(b) => if b then "True" else "False"
    case PyInt(i) => Decimal.IntRoundTrip(i); Decimal.IntToString(i)
    case PyStr(s) => s
    case PyTuple(xs) =>
      assert forall k | 0 <= k < |xs| :: xs[k] < v;
      "(" + ReprItems(v, xs) + (if |xs| == 1 then "," else "") + ")"
  }

  /** Python's `bool()`: the truth value of a value. */
  function Truth(v: PyValue): (r: bool)
    ensures !r <==> v.PyNone? || Eq(v, PyInt(0)) || v == PyStr("") || v == PyTuple([])
  {
    match v
    case PyNone => false
    case PyBool(b) => b
    case PyInt(i) => i != 0
    case PyStr(s) => s != ""
    case PyTuple(xs) => xs != []
  }

  /** What calling a type on a value does: a result, a ValueError or a TypeError. */
  datatype Conversion = Converted(value: PyValue) | ValueErr | TypeErr

  /**
   * CPython's default limit on the digits of an int that `str()` writes and
   * `int()` reads (`sys.int_info.default_max_str_digits`).
   */
  const MaxStrDigits := 4300

  /** `str(v)` can be written: no int inside `v` has more digits than the limit. */
  predicate StrFits(v: PyValue)
    decreases v
  {
    match v
    case PyInt(i) => Decimal.IntDigits(i) <= MaxStrDigits
    case PyTuple(xs) => forall k | 0 <= k < |xs| :: StrFits(xs[k])
    case _ => true
  }

  /**
   * Python's `str(v)`: a string, or a ValueError when an int in `v` has more
   * digits than the limit; never a TypeError.
   */
  function ToStr(v: PyValue): (r: Conversion)
    ensures !r.TypeErr?
    ensures r.Converted? <==> StrFits(v)
    ensures r.Converted? ==> r.value.PyStr?
    ensures v.PyStr? ==> r == Converted(v)
  {
    if StrFits(v) then Converted(PyStr(Str(v))) else ValueErr
  }

  /** Python's `bool(v)`: never fails and always gives a bool. */
  function ToBool(v: PyValue): (r: Conversion)
    ensures r.Converted? && r.value.PyBool?
    ensures v.PyBool? ==> r.value == v
  {
    Converted(PyBool(Truth(v)))
  }

  /**
   * Python's `int(v)`: numbers convert to their value, strings are parsed
   * (a malformed numeral, or one with more digits than the limit, is a
   * ValueError) and `None` or a tuple is a TypeError.
   */
  function ToInt(v: PyValue): (r: Conversion)
    ensures r.Converted? ==> r.value.PyInt? && (v.PyStr? || Eq(r.value, v))
    ensures r.TypeErr? <==> v.PyNone? || v.PyTuple?
    ensures r.ValueErr? ==> v.PyStr?
    ensures v.PyStr? && Decimal.DigitsIn(v.s) > MaxStrDigits ==> r.ValueErr?
  {
    match v
    case PyNone => TypeErr
    case PyTuple(_) => TypeErr
    case PyStr(s) =>
      (match Decimal.ParseInt(s)
       case Some(i) => if Decimal.DigitsIn(s) > MaxStrDigits then ValueErr else Converted(PyInt(i))
       case None => ValueErr)
    case _ => Converted(PyInt(NumberOf(v)))
  }

  /** `int(str(n)) == n`: an integer within the digit limit survives a trip through its text. */
  lemma IntStrRoundTrip(n: int)
    requires Decimal.IntDigits(n) <= MaxStrDigits
    ensures ToStr(PyInt(n)) == Converted(PyStr(Decimal.IntToString(n)))
    ensures ToInt(ToStr(PyInt(n)).value) == Converted(PyInt(n))
  {
    Decimal.IntRoundTrip(n);
    Decimal.NumeralDigitCount(n);
  }

  /** Past the digit limit `str(n)` raises ValueError, and so does `int()` of `n`'s numeral. */
  lemma LongIntConversionsFail(n: int)
    requires Decimal.IntDigits(n) > MaxStrDigits
    ensures ToStr(PyInt(n)) == ValueErr
    ensures ToInt(PyStr(Decimal.IntToString(n))) == ValueErr
  {
    Decimal.NumeralDigitCount(n);
  }
}
