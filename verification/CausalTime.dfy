/** The monotonic clock and causal timestamp floors; times are microseconds. */
module CausalTime {
  import opened Wrappers

  /** A timestamp without a zone, or one with its offset from UTC. */
  datatype Stamp = Naive(local: int) | Aware(local: int, offset: int)

  /** A naive timestamp is taken as UTC. */
  function EnsureUtc(value: Stamp): int {
    match value
    case Naive(local) => local
    case Aware(local, offset) => local - offset
  }

  /** Whatever zone an instant is written in, it is the same instant. */
  lemma SameInstant(utc: int, offset: int)
    ensures EnsureUtc(Aware(utc + offset, offset)) == utc && EnsureUtc(Naive(utc)) == utc
  { }

  /** The values a clock without memory would have to reach: the largest of reading i plus the number of
      calls since. */
  ghost predicate IsMaxLead(value: int, readings: seq<int>) {
    && (forall i | 0 <= i < |readings| :: value >= readings[i] + (|readings| - 1 - i))
    && (exists i | 0 <= i < |readings| :: value == readings[i] + (|readings| - 1 - i))
  }

  ghost predicate Bounded(readings: seq<int>, top: int) { forall i | 0 <= i < |readings| :: readings[i] <= top }

  class MonotonicUtcClock {
    var last: Option<int>
    // The wall clock readings so far, in UTC, and the values returned for them.
    ghost var readings: seq<int>
    ghost var values: seq<int>

    /** Every value so far has the closed form of the readings up to it. */
    ghost predicate Valid()
      reads this
    {
      && |values| == |readings|
      && (last == if values == [] then None else Some(values[|values| - 1]))
      && forall n | 0 <= n < |values| :: IsMaxLead(values[n], readings[..n + 1])
    }

    constructor ()
      ensures Valid() && readings == [] && values == []
    {
      last, readings, values := None, [], [];
    }

    method Now(reading: Stamp) returns (now: int)
      requires Valid()
      modifies this
      ensures Valid() && readings == old(readings) + [EnsureUtc(reading)] && values == old(values) + [now]
      ensures IsMaxLead(now, readings) && now >= EnsureUtc(reading)
    {
      var candidate := EnsureUtc(reading);
      if last.Some? && candidate <= last.value {
        candidate := last.value + 1;
      }
      LeadNext(readings, if last.Some? then last.value else 0, EnsureUtc(reading));
      last := Some(candidate);
      ghost var before := readings;
      readings, values := readings + [EnsureUtc(reading)], values + [candidate];
      assert before[..|before|] == before && readings[..|readings|] == readings;
      forall n | 0 <= n < |before| ensures IsMaxLead(values[n], readings[..n + 1]) {
        assert readings[..n + 1] == before[..n + 1];
      }
      return candidate;
    }
  }

  lemma LeadNext(readings: seq<int>, last: int, reading: int)
    requires readings != [] ==> IsMaxLead(last, readings[..|readings|])
    ensures IsMaxLead(if readings != [] && reading <= last then last + 1 else reading, readings + [reading])
  {
    var now, after := if readings != [] && reading <= last then last + 1 else reading, readings + [reading];
    assert readings[..|readings|] == readings;
    if readings != [] && reading <= last {
      var i :| 0 <= i < |readings| && last == readings[i] + (|readings| - 1 - i);
      assert after[i] == readings[i] && now == after[i] + (|after| - 1 - i);
    } else {
      assert now == after[|after| - 1] + (|after| - 1 - (|after| - 1));
    }
    forall i | 0 <= i < |after| ensures now >= after[i] + (|after| - 1 - i) {
      assert i < |readings| ==> after[i] == readings[i];
    }
  }

  /** The closed form fixes the value, makes successive values grow, and keeps the lead over the largest
      reading below the number of calls. */
  lemma LeadIsUnique(a: int, b: int, readings: seq<int>)
    requires IsMaxLead(a, readings) && IsMaxLead(b, readings)
    ensures a == b
  { }

  lemma StrictlyIncreasing(readings: seq<int>, m: nat, n: nat, a: int, b: int)
    requires m < n < |readings| && IsMaxLead(a, readings[..m + 1]) && IsMaxLead(b, readings[..n + 1])
    ensures a + (n - m) <= b
  {
    var i :| 0 <= i < m + 1 && a == readings[..m + 1][i] + (m - i);
    assert readings[..m + 1][i] == readings[..n + 1][i];
  }

  lemma LeadBound(readings: seq<int>, value: int, top: int)
    requires IsMaxLead(value, readings) && Bounded(readings, top)
    ensures readings[|readings| - 1] <= value <= top + |readings| - 1
  {
    assert value >= readings[|readings| - 1] + (|readings| - 1 - (|readings| - 1));
  }

  // ---------------------------------------------------------------- causal floors

  /** max() of the predecessors that are given. */
  method Floor(predecessors: seq<Option<Stamp>>) returns (floor: Option<int>)
    ensures floor.None? <==> forall i | 0 <= i < |predecessors| :: predecessors[i].None?
    ensures floor.Some? ==>
              && (forall i | 0 <= i < |predecessors| && predecessors[i].Some? ::
                    EnsureUtc(predecessors[i].value) <= floor.value)
              && (exists i | 0 <= i < |predecessors| ::
                    predecessors[i].Some? && EnsureUtc(predecessors[i].value) == floor.value)
  {
    floor := None;
    for i := 0 to |predecessors|
      invariant floor.None? <==> forall j | 0 <= j < i :: predecessors[j].None?
      invariant floor.Some? ==>
                  && (forall j | 0 <= j < i && predecessors[j].Some? :: EnsureUtc(predecessors[j].value) <= floor.value)
                  && (exists j | 0 <= j < i :: predecessors[j].Some? && EnsureUtc(predecessors[j].value) == floor.value)
    {
      if predecessors[i].Some? {
        var utc := EnsureUtc(predecessors[i].value);
        if floor.None? || floor.value < utc { floor := Some(utc); }
      }
    }
  }

  /** The least time not before the candidate and strictly after every predecessor. */
  ghost predicate IsCausallyAfter(t: int, predecessors: seq<Option<Stamp>>, candidate: int) {
    && t >= candidate
    && (forall i | 0 <= i < |predecessors| && predecessors[i].Some? :: t > EnsureUtc(predecessors[i].value))
    && (t == candidate ||
        exists i | 0 <= i < |predecessors| :: predecessors[i].Some? && t == EnsureUtc(predecessors[i].value) + 1)
  }

  method CausallyAfter(predecessors: seq<Option<Stamp>>, candidate: Stamp) returns (t: int)
    ensures IsCausallyAfter(t, predecessors, EnsureUtc(candidate))
  {
    var current := EnsureUtc(candidate);
    var floor := Floor(predecessors);
    if floor.None? { return current; }
    return if current > floor.value then current else floor.value + 1;
  }

  lemma CausallyAfterIsLeast(t: int, predecessors: seq<Option<Stamp>>, candidate: int, other: int)
    requires IsCausallyAfter(t, predecessors, candidate) && other >= candidate
    requires forall i | 0 <= i < |predecessors| && predecessors[i].Some? :: other > EnsureUtc(predecessors[i].value)
    ensures t <= other
  { }

  /** The check a run record makes when it is built. */
  predicate ValidRun(startedAt: Stamp, finishedAt: Option<Stamp>) {
    finishedAt.None? || EnsureUtc(finishedAt.value) >= EnsureUtc(startedAt)
  }

  /** A finish stamped after the start passes it, whatever the wall clock did in between; a raw reading
      passes exactly when the clock did not fall behind the start. */
  lemma FinishPassesValidator(startedAt: Stamp, others: seq<Option<Stamp>>, candidate: Stamp, t: int)
    requires IsCausallyAfter(t, [Some(startedAt)] + others, EnsureUtc(candidate))
    ensures ValidRun(startedAt, Some(Naive(t))) && t > EnsureUtc(startedAt)
    ensures ValidRun(startedAt, Some(candidate)) <==> EnsureUtc(startedAt) <= EnsureUtc(candidate)
  {
    assert ([Some(startedAt)] + others)[0] == Some(startedAt);
  }
}
