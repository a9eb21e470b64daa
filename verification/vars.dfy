/**
 * Typed value holders (`Var`, `StringVar`, `IntVar`, `BooleanVar`): a stored
 * value, a coercing type, and the "change" events the holder triggers on itself.
 */
module Vars {
  import opened PyValues
  import Decimal

  /**
   * The type a holder coerces with: the outcome of calling it on a value, and
   * the value it returns when called with no argument.
   */
  datatype ValueType = ValueType(name: string, convert: PyValue -> Conversion, zero: PyValue)

  const StrType := ValueType("str", ToStr, PyStr(""))
  const IntType := ValueType("int", ToInt, PyInt(0))
  const BoolType := ValueType("bool", ToBool, PyBool(false))

  /** An event triggered on the holder itself: its type and its `value` payload. */
  datatype Event = Event(eventType: string, value: PyValue)

  /** What one assignment to `value` does. */
  datatype Assignment =
    | Unchanged              // the input compares equal to the stored value
    | Swallowed              // the coercion raised ValueError, which is ignored
    | Stored(coerced: PyValue)
    | Raised                 // the coercion raised another exception, which escapes

  /** The effect of `holder.value = raw` on a holder storing `held`. */
  function Assign(held: PyValue, vt: ValueType, raw: PyValue): (r: Assignment)
    ensures r.Unchanged? <==> Eq(held, raw)
    ensures r.Stored? ==> vt.convert(raw) == Converted(r.coerced)
    ensures r.Swallowed? ==> vt.convert(raw).ValueErr?
    ensures r.Raised? ==> vt.convert(raw).TypeErr?
  {
    if Eq(held, raw) then Unchanged
    else match vt.convert(raw)
      case Converted(c) => Stored(c)
      case ValueErr => Swallowed
      case TypeErr => Raised
  }

  /** The value a holder starts with: a one-element tuple, because of a trailing comma. */
  function InitialValue(default: PyValue, vt: ValueType): (v: PyValue)
    ensures v.PyTuple? && |v.items| == 1
    ensures !default.PyNone? ==> v.items[0] == default
    ensures default.PyNone? ==> v.items[0] == vt.zero
  {
    PyTuple([if default.PyNone? then vt.zero else default])
  }

  class Var {
    var held: PyValue
    const valueType: ValueType
    /** The events this holder has triggered, oldest first. */
    var events: seq<Event>

    constructor (default: PyValue, valueType: ValueType)
      ensures held == InitialValue(default, valueType) && !Eq(held, default)
      ensures this.valueType == valueType && events == []
    {
      DefaultNotStored(default, valueType);
      held := InitialValue(default, valueType);
      this.valueType := valueType;
      events := [];
    }

    constructor StringVar(default: PyValue := PyStr(""))
      ensures held == InitialValue(default, StrType) && valueType == StrType && events == []
    {
      held := InitialValue(default, StrType);
      valueType := StrType;
      events := [];
    }

    constructor IntVar(default: PyValue := PyInt(0))
      ensures held == InitialValue(default, IntType) && valueType == IntType && events == []
    {
      held := InitialValue(default, IntType);
      valueType := IntType;
      events := [];
    }

    constructor BooleanVar(default: PyValue := PyBool(false))
      ensures held == InitialValue(default, BoolType) && valueType == BoolType && events == []
    {
      held := InitialValue(default, BoolType);
      valueType := BoolType;
      events := [];
    }

    /** The `value` getter: the stored value, which assigning back is ignored. */
    function Value(): (v: PyValue)
      reads this
      ensures v == held
      ensures Assign(v, valueType, v) == Unchanged
    {
      ReassignSuppressed(held, valueType);
      held
    }

    /**
     * The `value` setter. `raised` is true when the coercion's exception
     * escapes to the caller.
     */
    method SetValue(raw: PyValue) returns (raised: bool)
      modifies this
      ensures var a := Assign(old(held), valueType, raw);
        && raised == a.Raised?
        && held == (if a.Stored? then a.coerced else old(held))
        && events == old(events) + (if a.Stored? then [Event("change", raw)] else [])
    {
      raised := false;
      if !Eq(held, raw) {
        match valueType.convert(raw)
        case Converted(c) =>
          held := c;
          events := events + [Event("change", raw)];
        case ValueErr =>
        case TypeErr =>
          raised := true;
      }
    }
  }

  /** The start value never compares equal to the default it was built from. */
  lemma DefaultNotStored(default: PyValue, vt: ValueType)
    ensures !Eq(InitialValue(default, vt), default)
  {
    if !default.PyNone? {
      NeverEqualsOwnSingleton(default);
    }
  }

  /**
   * Suppression compares the raw input: giving an `IntVar` that holds `n` the
   * text of `n` stores `n` again and still fires "change".
   */
  lemma TextOfStoredIntStillFires(n: int)
    requires Decimal.IntDigits(n) <= MaxStrDigits
    ensures Assign(PyInt(n), IntType, PyStr(Decimal.IntToString(n))) == Stored(PyInt(n))
  {
    IntStrRoundTrip(n);
  }

  /** Past the digit limit the text of `n` is a ValueError for `int()`, which the holder ignores. */
  lemma TextOfLongIntIgnored(n: int)
    requires Decimal.IntDigits(n) > MaxStrDigits
    ensures Assign(PyInt(n), IntType, PyStr(Decimal.IntToString(n))) == Swallowed
  {
    LongIntConversionsFail(n);
  }

  /** Right after construction no assignment of a non-tuple value is suppressed. */
  lemma FirstAssignmentNotSuppressed(default: PyValue, vt: ValueType, raw: PyValue)
    requires !raw.PyTuple?
    ensures !Assign(InitialValue(default, vt), vt, raw).Unchanged?
  {
    SingletonNeverEqualsScalar(InitialValue(default, vt).items[0], raw);
  }

  /** Assigning the stored value again is always suppressed. */
  lemma ReassignSuppressed(held: PyValue, vt: ValueType)
    ensures Assign(held, vt, held) == Unchanged
  {
    EqReflexive(held);
  }

  /** The three typed holders store values of their own type only. */
  lemma TypedHoldersStoreTheirType(held: PyValue, raw: PyValue)
    ensures Assign(held, StrType, raw).Stored? ==> Assign(held, StrType, raw).coerced.PyStr?
    ensures Assign(held, IntType, raw).Stored? ==> Assign(held, IntType, raw).coerced.PyInt?
    ensures Assign(held, BoolType, raw).Stored? ==> Assign(held, BoolType, raw).coerced.PyBool?
  {
  }

  /**
   * `bool` never fails, and `str` fails only with a ValueError on an int past
   * the digit limit: neither holder ever raises, and only a string holder
   * ignores an input, exactly when that input cannot be written.
   */
  lemma StringAndBoolHolderErrors(held: PyValue, raw: PyValue)
    ensures !Assign(held, StrType, raw).Raised?
    ensures Assign(held, StrType, raw).Swallowed? <==> !Eq(held, raw) && !StrFits(raw)
    ensures !Assign(held, BoolType, raw).Swallowed? && !Assign(held, BoolType, raw).Raised?
  {
  }

  /** An `IntVar` swallows only malformed text and raises only on `None` or a tuple. */
  lemma IntHolderErrors(held: PyValue, raw: PyValue)
    ensures Assign(held, IntType, raw).Swallowed? ==> raw.PyStr?
    ensures Assign(held, IntType, raw).Raised? ==> raw.PyNone? || raw.PyTuple?
  {
  }
}
