/** Values shared by every part of the pipeline: optional values, sums of
    counts, and the way the JavaScript code compares nullable timestamps. */
module Basics {

  datatype Option<+T> = None | Some(value: T)

  /** The outcome of a step that either returns a value or throws. */
  datatype Result<+T> = Ok(value: T) | Thrown

  /** The items of one page of a paged read, put in front of what the later
      pages yield; a later page that throws makes the whole read throw. */
  function Prepend<T>(read: seq<T>, rest: Result<seq<T>>): (r: Result<seq<T>>)
    ensures r.Thrown? <==> rest.Thrown?
    ensures r.Ok? ==> |r.value| == |read| + |rest.value|
  {
    match rest
    case Thrown => Thrown
    case Ok(items) => Ok(read + items)
  }

  lemma PrependNothing<T>(rest: Result<seq<T>>)
    ensures Prepend([], rest) == rest
  {
    if rest.Ok? {
      assert [] + rest.value == rest.value;
    }
  }

  lemma PrependTwice<T>(a: seq<T>, b: seq<T>, rest: Result<seq<T>>)
    ensures Prepend(a, Prepend(b, rest)) == Prepend(a + b, rest)
  {
    if rest.Ok? {
      assert a + (b + rest.value) == (a + b) + rest.value;
    }
  }

  /** A day, as an index on an abstract calendar (day n + 1 follows day n). */
  type Day = int

  /** A timestamp, in milliseconds since the Unix epoch (what `new Date(t)`
      and `getTime()` give). The stored ISO-8601 strings share one format,
      so comparing them as strings orders them as these numbers. */
  type Instant = int

  /** JavaScript `x || 0` on an optional count: a missing or falsy count is 0. */
  function OrZero(x: Option<nat>): nat
  {
    match x
    case None => 0
    case Some(n) => n
  }

  /** JavaScript `s || null` on an optional string: the empty string is falsy. */
  function OrNull(s: Option<string>): (r: Option<string>)
    ensures r.Some? <==> s.Some? && s.value != ""
    ensures r.Some? ==> r == s
  {
    if s.Some? && s.value != "" then s else None
  }

  /** The sum of a sequence of counts, from the left. */
  function Sum(s: seq<nat>): nat
  {
    if s == [] then 0 else s[0] + Sum(s[1..])
  }

  lemma {:induction false} SumAppend(a: seq<nat>, b: seq<nat>)
    ensures Sum(a + b) == Sum(a) + Sum(b)
  {
    if a != [] {
      assert (a + b)[1..] == a[1..] + b;
      SumAppend(a[1..], b);
    } else {
      assert a + b == b;
    }
  }

  /** A sum of counts is 0 exactly when every count is 0. */
  lemma {:induction false} SumZeroIff(s: seq<nat>)
    ensures Sum(s) == 0 <==> forall i :: 0 <= i < |s| ==> s[i] == 0
  {
    if s != [] {
      SumZeroIff(s[1..]);
      assert forall i :: 1 <= i < |s| ==> s[i] == s[1..][i - 1];
    }
  }

  /** Every count is at most the sum. */
  lemma {:induction false} SumBoundsEach(s: seq<nat>, i: int)
    requires 0 <= i < |s|
    ensures s[i] <= Sum(s)
  {
    if i > 0 {
      SumBoundsEach(s[1..], i - 1);
    }
  }

  /** JavaScript `a > b` where either side may be null: a string compared
      with null is converted to NaN, so only two real instants compare. */
  predicate Later(a: Option<Instant>, b: Option<Instant>)
    ensures a.None? || b.None? ==> !Later(a, b)
    ensures a.Some? && b.Some? ==> (Later(a, b) <==> a.value > b.value)
  {
    a.Some? && b.Some? && a.value > b.value
  }

  /** One step of "replace the running value only by a strictly later one". */
  function Bump(current: Option<Instant>, candidate: Option<Instant>): (r: Option<Instant>)
    ensures r == current || r == candidate
    ensures current.None? ==> r == None
    ensures current.Some? ==> r.Some? && r.value >= current.value
    ensures current.Some? && candidate.Some? ==> r.value >= candidate.value
  {
    if Later(candidate, current) then candidate else current
  }

  /** The running `last_detected` after a species' rows have been seen in
      order: the first row's timestamp, bumped by every later row. */
  function LastDetected(ts: seq<Option<Instant>>): Option<Instant>
    requires |ts| > 0
  {
    if |ts| == 1 then ts[0] else Bump(LastDetected(ts[..|ts| - 1]), ts[|ts| - 1])
  }

  lemma LastDetectedSnoc(ts: seq<Option<Instant>>, t: Option<Instant>)
    requires |ts| > 0
    ensures LastDetected(ts + [t]) == Bump(LastDetected(ts), t)
  {
    assert (ts + [t])[..|ts|] == ts;
  }

  /** What the comparison rule amounts to: a null first timestamp stays null
      for good; otherwise the result is the latest non-null timestamp. */
  lemma {:induction false} LastDetectedIsLatest(ts: seq<Option<Instant>>)
    requires |ts| > 0
    ensures ts[0].None? ==> LastDetected(ts) == None
    ensures ts[0].Some? ==> LastDetected(ts).Some?
    ensures ts[0].Some? ==> exists i :: 0 <= i < |ts| && ts[i] == LastDetected(ts)
    ensures ts[0].Some? ==> forall i :: 0 <= i < |ts| && ts[i].Some? ==> ts[i].value <= LastDetected(ts).value
  {
    if |ts| > 1 {
      var init := ts[..|ts| - 1];
      LastDetectedIsLatest(init);
      assert forall i :: 0 <= i < |init| ==> init[i] == ts[i];
      if ts[0].Some? {
        var j :| 0 <= j < |init| && init[j] == LastDetected(init);
        if Later(ts[|ts| - 1], LastDetected(init)) {
          assert ts[|ts| - 1] == LastDetected(ts);
        } else {
          assert ts[j] == LastDetected(ts);
        }
      }
    }
  }
}
