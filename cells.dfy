/** Values that Google Apps Script reads from and writes to spreadsheet
    cells, with the JavaScript conversions the sources apply to them:
    truthiness (`if (value)`, `Boolean(value)`), `String(value)` and the
    `Date` time value. */
module Cells {
  import opened Wrappers

  /** The largest magnitude of a valid ECMAScript time value (section 21.4.1.1
      of ECMA-262): 8.64e15 milliseconds either side of the epoch. */
  const MaxTime: int := 8_640_000_000_000_000

  /** The time value of a valid `Date`, in milliseconds since the epoch. */
  type TimeValue = t: int | -MaxTime <= t <= MaxTime

  /** A JavaScript value as it comes out of `getValue`/`getValues` or goes
      into `setValue`.  Numbers are exact reals apart from the two non-finite
      cases; a `Date` whose time value is `NaN` is `DateObject(None)`. */
  datatype CellValue =
    | Text(s: string)
    | Number(x: real)
    | NaN
    | Infinity(negative: bool)
    | Boolean(b: bool)
    | DateObject(time: Option<TimeValue>)
    | Null
    | Undefined

  /** ECMAScript ToBoolean (section 7.1.2 of ECMA-262): the falsy values are
      `""`, `0`, `NaN`, `false`, `null` and `undefined`; every object,
      including an invalid `Date`, is truthy. */
  predicate Truthy(v: CellValue) {
    match v
    case Text(s) => s != ""
    case Number(x) => x != 0.0
    case NaN => false
    case Infinity(_) => true
    case Boolean(b) => b
    case DateObject(_) => true
    case Null => false
    case Undefined => false
  }

  /** How the host renders a finite number and a valid `Date` as text.  The
      exact digits and the time-zone dependent date format are not modelled;
      both are non-empty in every JavaScript engine. */
  datatype Renderer = Renderer(number: real -> string, date: TimeValue -> string)

  ghost predicate ValidRenderer(render: Renderer) {
    && (forall x :: render.number(x) != "")
    && (forall t :: render.date(t) != "")
  }

  /** `String(value)` (ECMAScript ToString, section 7.1.17 of ECMA-262). */
  function ToJsString(v: CellValue, render: Renderer): (r: string)
    ensures ValidRenderer(render) ==> (r == "" <==> v == Text(""))
    ensures v.Text? ==> r == v.s
  {
    match v
    case Text(s) => s
    case Number(x) => render.number(x)
    case NaN => "NaN"
    case Infinity(negative) => if negative then "-Infinity" else "Infinity"
    case Boolean(b) => if b then "true" else "false"
    case DateObject(t) => if t.Some? then render.date(t.value) else "Invalid Date"
    case Null => "null"
    case Undefined => "undefined"
  }

  /** Rounds toward zero, as ECMAScript ToIntegerOrInfinity does. */
  function Truncate(x: real): (n: int)
    ensures x >= 0.0 ==> n as real <= x < n as real + 1.0
    ensures x < 0.0 ==> n as real - 1.0 < x <= n as real
  {
    if x >= 0.0 then x.Floor else -((-x).Floor)
  }

  /** TimeClip (section 21.4.1.31 of ECMA-262): the time value `new Date(x)`
      gets for a finite number `x`, or `None` (an invalid date) when `x` is
      out of range. */
  function TimeClip(x: real): (r: Option<TimeValue>)
    ensures r.Some? <==> -MaxTime as real <= x <= MaxTime as real
    ensures r.Some? && x >= 0.0 ==> r.value as real <= x < r.value as real + 1.0
    ensures r.Some? && x < 0.0 ==> r.value as real - 1.0 < x <= r.value as real
  {
    if -MaxTime as real <= x <= MaxTime as real then Some(Truncate(x)) else None
  }
}
