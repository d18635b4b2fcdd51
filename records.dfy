/**
 * The log entry, the one record every part of the monitor reads or writes:
 * `{ timestamp, data: { status, responseTimeMs, ... } }`, with the optional
 * fields the three producers add (the server's probe timestamp, the
 * generator's timezone label, the mock data's status code).
 */
module Records {
  import opened Wrappers
  import opened Dates

  /** An hour of the day, 0..23. */
  type Hour = h: int | 0 <= h < 24

  /** A value of `Math.random()`. */
  type Unit = r: real | 0.0 <= r < 1.0

  /** The JSON value of `data.status`, as far as the renderer tells values apart. */
  datatype StatusValue =
    | Flag(b: bool)              // true or false
    | Absent                     // undefined or null: falsy
    | OtherValue(truthy: bool)   // any other JSON value, with its truthiness

  /** `status === true`. */
  predicate IsUp(v: StatusValue) {
    v == Flag(true)
  }

  /** `status === false`. */
  predicate IsDown(v: StatusValue) {
    v == Flag(false)
  }

  /** JavaScript truthiness of a status slot; None is the `null` an empty slot holds. */
  predicate Truthy(v: Option<StatusValue>) {
    match v
    case None => false
    case Some(Flag(b)) => b
    case Some(Absent) => false
    case Some(OtherValue(t)) => t
  }

  datatype Data = Data(
    status: StatusValue,
    timestamp: Option<Time>,
    responseTimeMs: int,
    statusCode: Option<int>)

  datatype Entry = Entry(timestamp: Time, timezone: Option<string>, data: Data)

  /** Number of entries whose status is exactly `true`. */
  function CountUp(s: seq<Entry>): nat {
    if |s| == 0 then 0 else CountUp(s[..|s| - 1]) + (if IsUp(s[|s| - 1].data.status) then 1 else 0)
  }

  /** Number of entries whose status is exactly `false`. */
  function CountDown(s: seq<Entry>): nat {
    if |s| == 0 then 0 else CountDown(s[..|s| - 1]) + (if IsDown(s[|s| - 1].data.status) then 1 else 0)
  }

  /**
   * No entry is both up and down, so the two counts never exceed the
   * number of entries; they fall short by the entries whose status is
   * neither `true` nor `false`.
   */
  lemma {:induction false} UpDownBounded(s: seq<Entry>)
    ensures CountUp(s) + CountDown(s) <= |s|
    ensures CountUp(s) + CountDown(s) == |s| <==> forall i :: 0 <= i < |s| ==> s[i].data.status.Flag?
  {
    if |s| > 0 {
      var p := s[..|s| - 1];
      UpDownBounded(p);
      assert forall i :: 0 <= i < |p| ==> p[i] == s[i];
    }
  }
}
