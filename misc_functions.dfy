/**
 * Two sheet functions: `TYPE`, which names the Python type of each cell,
 * and `GETPREVIOUSVALUE`, which carries the last value that met a condition
 * forward through a column.
 */
module MiscFunctions {
  import opened Wrappers

  // ---------------------------------------------------------------------
  // Cell values and their Python classes
  // ---------------------------------------------------------------------

  /** The Python objects a column holds once pandas hands its cells to a function. */
  datatype Value =
    | BoolValue(b: bool)
    | IntValue(i: int)
    | FloatValue(f: real)
    | NaN
    | StrValue(s: string)
    | DatetimeValue(micros: int)
    | TimestampValue(nanos: int)
    | NaT
    | TimedeltaValue(micros: int)
    | PdTimedeltaValue(nanos: int)
    | NoneValue
    | OtherValue(repr: string)

  /** The classes `get_element_type` tests against. */
  datatype PyClass = Bool | Int | Float | Str | Datetime | Timestamp | Timedelta | PdTimedelta

  /**
   * Python `isinstance`, with the subclass relations that matter here: `bool`
   * is a subclass of `int`, `pd.Timestamp` and the type of `pd.NaT` of
   * `datetime`, `pd.Timedelta` of `timedelta`, and NaN is a `float`.
   */
  predicate IsInstance(v: Value, c: PyClass) {
    match c
    case Bool => v.BoolValue?
    case Int => v.BoolValue? || v.IntValue?
    case Float => v.FloatValue? || v.NaN?
    case Str => v.StrValue?
    case Datetime => v.DatetimeValue? || v.TimestampValue? || v.NaT?
    case Timestamp => v.TimestampValue?
    case Timedelta => v.TimedeltaValue? || v.PdTimedeltaValue?
    case PdTimedelta => v.PdTimedeltaValue?
  }

  /**
   * `get_element_type`. Its first test, `np.isnan(element)`, always raises
   * because `np` is never imported, and the bare `except` swallows that; so
   * the chain starts at the `bool` test and no cell is ever named 'NaN'.
   */
  function GetElementType(v: Value): (t: string)
    ensures t in {"bool", "number", "string", "datetime", "timedelta", "object"}
  {
    if IsInstance(v, Bool) then "bool"
    else if IsInstance(v, Int) then "number"
    else if IsInstance(v, Float) then "number"
    else if IsInstance(v, Str) then "string"
    else if IsInstance(v, Datetime) || IsInstance(v, Timestamp) then "datetime"
    else if IsInstance(v, Timedelta) || IsInstance(v, PdTimedelta) then "timedelta"
    else "object"
  }

  /** What each kind of value is named; booleans are 'bool' even though they are also `int`s. */
  lemma ElementTypes(v: Value)
    ensures v.BoolValue? <==> GetElementType(v) == "bool"
    ensures GetElementType(v) == "number" <==> v.IntValue? || v.FloatValue? || v.NaN?
    ensures GetElementType(v) == "string" <==> v.StrValue?
    ensures GetElementType(v) == "datetime" <==> v.DatetimeValue? || v.TimestampValue? || v.NaT?
    ensures GetElementType(v) == "timedelta" <==> v.TimedeltaValue? || v.PdTimedeltaValue?
    ensures GetElementType(v) == "object" <==> v.NoneValue? || v.OtherValue?
    ensures GetElementType(v) != "NaN"
  {
  }

  /** A boolean passes the `int` test too, so the order of the tests decides. */
  lemma BoolTestedBeforeInt(b: bool)
    ensures IsInstance(BoolValue(b), Int) && GetElementType(BoolValue(b)) == "bool"
  {
  }

  /** `TYPE(series)`: the element type of every cell, in order. */
  function TypeOf(series: seq<Value>): (r: seq<string>)
    ensures |r| == |series|
    ensures forall i :: 0 <= i < |series| ==> r[i] == GetElementType(series[i])
  {
    seq(|series|, i requires 0 <= i < |series| => GetElementType(series[i]))
  }

  // ---------------------------------------------------------------------
  // GETPREVIOUSVALUE
  // ---------------------------------------------------------------------

  /** The dtype families the default value depends on. */
  datatype Dtype = Int64 | Float64 | StringDtype | BoolDtype | Datetime64 | OtherDtype

  /** The value carried before the condition first holds. */
  function DefaultFor(d: Dtype): (v: Value)
    ensures d in {Int64, Float64, OtherDtype} <==> v == IntValue(-1)
    ensures d == StringDtype <==> v == StrValue("")
    ensures d == BoolDtype <==> v == BoolValue(false)
    ensures d == Datetime64 <==> v == NaT
  {
    match d
    case Int64 => IntValue(-1)
    case Float64 => IntValue(-1)
    case StringDtype => StrValue("")
    case BoolDtype => BoolValue(false)
    case Datetime64 => NaT
    case OtherDtype => IntValue(-1)
  }

  /** The condition argument: absent, a single boolean, or a boolean column. */
  datatype Condition = NoCondition | Scalar(b: bool) | Column(bs: seq<bool>)

  /**
   * The condition as a column over the series' rows: a single boolean is
   * repeated on every row.
   */
  function ConditionColumn(c: Condition, rows: nat): (m: seq<bool>)
    requires !c.NoCondition?
    ensures c.Scalar? ==> |m| == rows && forall i :: 0 <= i < rows ==> m[i] == c.b
    ensures c.Column? ==> m == c.bs
  {
    match c
    case Scalar(b) => seq(rows, i => b)
    case Column(bs) => bs
  }

  /** A condition column that does not line up with the series. */
  datatype SheetError = LengthMismatch

  /** The last row at or before `i` where the condition holds, or -1. */
  function LastTrueAtOrBefore(mask: seq<bool>, i: int): (j: int)
    requires -1 <= i < |mask|
    ensures -1 <= j <= i
    ensures j >= 0 ==> mask[j]
    ensures forall k :: j < k <= i ==> !mask[k]
  {
    if i < 0 then -1
    else if mask[i] then i
    else LastTrueAtOrBefore(mask, i - 1)
  }

  /** The forward-filled value at row `i`: the value at the last row where the condition held. */
  function FilledAt(series: seq<Value>, mask: seq<bool>, default: Value, i: int): Value
    requires |series| == |mask| && 0 <= i < |mask|
  {
    var j := LastTrueAtOrBefore(mask, i);
    if j < 0 then default else series[j]
  }

  /** The whole forward-filled column. */
  function ForwardFill(series: seq<Value>, mask: seq<bool>, default: Value): (r: seq<Value>)
    requires |series| == |mask|
    ensures |r| == |mask|
    ensures forall i :: 0 <= i < |mask| ==> r[i] == FilledAt(series, mask, default, i)
  {
    seq(|mask|, i requires 0 <= i < |mask| => FilledAt(series, mask, default, i))
  }

  /**
   * The recurrence the source's loop follows: a row that meets the condition
   * takes its own value, any other row the previous row's result (the
   * default on the first row).
   */
  lemma FilledAtStep(series: seq<Value>, mask: seq<bool>, default: Value, i: int)
    requires |series| == |mask| && 0 <= i < |mask|
    ensures mask[i] ==> FilledAt(series, mask, default, i) == series[i]
    ensures !mask[i] && i == 0 ==> FilledAt(series, mask, default, i) == default
    ensures !mask[i] && i > 0 ==> FilledAt(series, mask, default, i) == FilledAt(series, mask, default, i - 1)
  {
  }

  /** Forward fill as a search: the result at row `i` is the value at the largest `j <= i` where the condition holds. */
  lemma ForwardFillIsLastTrue(series: seq<Value>, mask: seq<bool>, default: Value, i: int, j: int)
    requires |series| == |mask| && 0 <= j <= i < |mask|
    requires mask[j] && forall k :: j < k <= i ==> !mask[k]
    ensures ForwardFill(series, mask, default)[i] == series[j]
  {
    var l := LastTrueAtOrBefore(mask, i);
    assert j <= l;
  }

  /** With no row meeting the condition so far, the result is the default. */
  lemma ForwardFillBeforeFirstTrue(series: seq<Value>, mask: seq<bool>, default: Value, i: int)
    requires |series| == |mask| && 0 <= i < |mask|
    requires forall k :: 0 <= k <= i ==> !mask[k]
    ensures ForwardFill(series, mask, default)[i] == default
  {
  }

  /**
   * `GETPREVIOUSVALUE(series, condition)`. A condition column of another
   * length makes the source fail (a missing row label, or a result that does
   * not fit the index); the model reports that as an error.
   */
  method GetPreviousValue(series: seq<Value>, dtype: Dtype, condition: Condition)
    returns (r: Result<seq<Value>, SheetError>)
    ensures condition.NoCondition? ==> r == Ok(series)
    ensures !condition.NoCondition? && |ConditionColumn(condition, |series|)| != |series| ==> r == Err(LengthMismatch)
    ensures !condition.NoCondition? && |ConditionColumn(condition, |series|)| == |series| ==>
      r == Ok(ForwardFill(series, ConditionColumn(condition, |series|), DefaultFor(dtype)))
  {
    if condition.NoCondition? {
      return Ok(series);
    }
    var lastOccurrence := DefaultFor(dtype);
    var mask := ConditionColumn(condition, |series|);
    if |mask| != |series| {
      return Err(LengthMismatch);
    }
    var result: seq<Value> := [];
    var i := 0;
    while i < |mask|
      invariant 0 <= i <= |mask|
      invariant |result| == i
      invariant forall k :: 0 <= k < i ==> result[k] == FilledAt(series, mask, DefaultFor(dtype), k)
      invariant i == 0 ==> lastOccurrence == DefaultFor(dtype)
      invariant i > 0 ==> lastOccurrence == FilledAt(series, mask, DefaultFor(dtype), i - 1)
    {
      FilledAtStep(series, mask, DefaultFor(dtype), i);
      if mask[i] {
        lastOccurrence := series[i];
      }
      result := result + [lastOccurrence];
      i := i + 1;
    }
    assert result == ForwardFill(series, mask, DefaultFor(dtype));
    r := Ok(result);
  }
}
