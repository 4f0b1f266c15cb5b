/** The rate limiter under concurrent requests for one key, if each increment were serialised: the increment
    and the reset of a stale window are two transactions, and other requests may come between them. */
module RateLimitRace {
  import opened Wrappers
  import opened RateLimit

  /** The row, the clock readings of the requests that saw a stale window and have still to reset it, and
      how many requests were accepted so far. */
  datatype State = State(row: Option<Row>, pending: seq<int>, accepted: nat)

  datatype Action =
    | Count(now: int)   // the first transaction, and the answer unless the window is stale
    | Reset(i: nat)     // the second transaction of the i-th waiting request: it counts one and is accepted

  predicate Enabled(s: State, a: Action) { a.Reset? ==> a.i < |s.pending| }

  function Effect(s: State, a: Action, max: nat): State
    requires Enabled(s, a)
  {
    match a
    case Count(now) =>
      var row := if s.row.None? then Row(now, 1) else Row(s.row.value.windowStartedAt, s.row.value.count + 1);
      if now - row.windowStartedAt >= MINUTE then s.(row := Some(row), pending := s.pending + [now])
      else s.(row := Some(row), accepted := s.accepted + if row.count <= max then 1 else 0)
    case Reset(i) =>
      State(Some(Row(s.pending[i], 1)), s.pending[..i] + s.pending[i + 1..], s.accepted + if 1 <= max then 1 else 0)
  }

  function Step(s: State, a: Action, max: nat): State { if Enabled(s, a) then Effect(s, a, max) else s }

  function Exec(s: State, actions: seq<Action>, max: nat): State {
    if actions == [] then s
    else Step(Exec(s, actions[..|actions| - 1], max), actions[|actions| - 1], max)
  }

  /** Undisturbed, the two transactions are one request of the sequential limiter. */
  lemma Undisturbed(before: seq<int>, now: int, max: nat, accepted: nat)
    requires max > 0
    ensures var s := State(if before == [] then None else Some(RowAfter(before)), [], accepted);
            var t := Exec(s, [Count(now)] + [Reset(0)], max);
            && t.row == Some(RowAfter(before + [now])) && t.pending == []
            && t.accepted == accepted + if Accepts(before + [now], max, |before|) then 1 else 0
  {
    hide RowAfter, Accepts;
    var s := State(if before == [] then None else Some(RowAfter(before)), [], accepted);
    var one := [Count(now)];
    assert one[..|one| - 1] == [] && (one + [Reset(0)])[..|one + [Reset(0)]| - 1] == one;
    assert Exec(s, one, max) == Effect(s, Count(now), max);
    NextRow(before, now);
    AcceptsByCount(before + [now], max);
  }

  // ---------------------------------------------------------------- the bound

  /** All clock readings of a stretch lie in one half-open minute from t. */
  predicate Within(now: int, t: int) { t <= now < t + MINUTE }

  ghost predicate ReadingsWithin(s: State, actions: seq<Action>, t: int) {
    && (forall i | 0 <= i < |s.pending| :: Within(s.pending[i], t))
    && (forall i | 0 <= i < |actions| && actions[i].Count? :: Within(actions[i].now, t))
  }

  /** Never more than this many requests between their two transactions. */
  ghost predicate AtMostWaiting(s: State, actions: seq<Action>, max: nat, waiting: nat) {
    forall k | 0 <= k <= |actions| :: |Exec(s, actions[..k], max).pending| <= waiting
  }

  function Left(row: Row, max: nat): nat { if row.count < max then max - row.count else 0 }

  /** How many more can be accepted: what the window has left, and a whole window for every request that
      waits, or can come to wait while the window is an old one. */
  function Budget(s: State, max: nat, waiting: nat, t: int): nat {
    if s.row.None? then max
    else Left(s.row.value, max) + max * (if s.row.value.windowStartedAt >= t then |s.pending| else waiting)
  }

  ghost predicate Ok(s: State, t: int) {
    && (s.row.None? ==> s.pending == [])
    && (s.row.Some? ==> s.row.value.count >= 1 && s.row.value.windowStartedAt < t + MINUTE)
    && (forall i | 0 <= i < |s.pending| :: Within(s.pending[i], t))
  }

  lemma StepSpends(s: State, a: Action, max: nat, waiting: nat, t: int)
    requires max > 0 && Ok(s, t) && Enabled(s, a) && (a.Count? ==> Within(a.now, t)) && |s.pending| <= waiting
    ensures var u := Effect(s, a, max);
            Ok(u, t) && u.accepted + Budget(u, max, waiting, t) <= s.accepted + Budget(s, max, waiting, t)
  {
    var u := Effect(s, a, max);
    if a.Reset? {
      assert |u.pending| == |s.pending| - 1;
      assert max * |u.pending| == max * |s.pending| - max;
      assert max * |s.pending| <= max * waiting;
    }
  }

  lemma {:induction false} RunSpends(s: State, actions: seq<Action>, max: nat, waiting: nat, t: int)
    requires max > 0 && Ok(s, t) && ReadingsWithin(s, actions, t) && AtMostWaiting(s, actions, max, waiting)
    ensures var u := Exec(s, actions, max);
            Ok(u, t) && u.accepted + Budget(u, max, waiting, t) <= s.accepted + Budget(s, max, waiting, t)
  {
    hide Ok, Budget, Effect;
    if actions != [] {
      var n := |actions| - 1;
      var front, a := actions[..n], actions[n];
      forall k | 0 <= k <= n ensures |Exec(s, front[..k], max).pending| <= waiting {
        assert front[..k] == actions[..k];
      }
      RunSpends(s, front, max, waiting, t);
      var u := Exec(s, front, max);
      assert actions[..n] == front;
      if Enabled(u, a) { StepSpends(u, a, max, waiting, t); }
    }
  }

  lemma BudgetBound(s: State, max: nat, waiting: nat, t: int)
    requires max > 0 && waiting > 0 && Ok(s, t) && |s.pending| <= waiting
    ensures Budget(s, max, waiting, t) <= (waiting + 1) * max - 1
  {
    var pending := |s.pending|;
    assert max * pending <= max * waiting && max <= max * waiting && (waiting + 1) * max == max * waiting + max;
  }

  /** With at most so many requests between their transactions, a stretch whose clock readings lie in one
      half-open minute accepts at most (waiting + 1) * max - 1; with one, this is the sequential bound. */
  lemma RaceBound(s: State, actions: seq<Action>, max: nat, waiting: nat, t: int)
    requires max > 0 && waiting > 0 && Ok(s, t)
    requires ReadingsWithin(s, actions, t) && AtMostWaiting(s, actions, max, waiting)
    ensures Exec(s, actions, max).accepted - s.accepted <= (waiting + 1) * max - 1
  {
    hide Ok, Budget, ReadingsWithin;
    RunSpends(s, actions, max, waiting, t);
    assert actions[..0] == [] && |Exec(s, actions[..0], max).pending| <= waiting;
    BudgetBound(s, max, waiting, t);
  }

  // ---------------------------------------------------------------- and that it is attained

  function Repeat(a: Action, k: nat): (actions: seq<Action>)
    ensures |actions| == k && forall i | 0 <= i < k :: actions[i] == a
  {
    seq(k, _ => a)
  }

  lemma {:induction false} ExecJoin(s: State, a: seq<Action>, b: seq<Action>, max: nat)
    ensures Exec(s, a + b, max) == Exec(Exec(s, a, max), b, max)
  {
    if b == [] {
      assert a + b == a;
    } else {
      assert (a + b)[..|a + b| - 1] == a + b[..|b| - 1];
      ExecJoin(s, a, b[..|b| - 1], max);
    }
  }

  lemma WaitingJoin(s: State, a: seq<Action>, b: seq<Action>, max: nat, waiting: nat)
    requires AtMostWaiting(s, a, max, waiting) && AtMostWaiting(Exec(s, a, max), b, max, waiting)
    ensures AtMostWaiting(s, a + b, max, waiting)
  {
    forall k | 0 <= k <= |a + b| ensures |Exec(s, (a + b)[..k], max).pending| <= waiting {
      if k <= |a| {
        assert (a + b)[..k] == a[..k];
      } else {
        assert (a + b)[..k] == a + b[..k - |a|];
        ExecJoin(s, a, b[..k - |a|], max);
      }
    }
  }

  lemma RepeatLast(a: Action, k: nat)
    requires k > 0
    ensures Repeat(a, k) == Repeat(a, k - 1) + [a]
  { }

  lemma OneStep(s: State, a: Action, max: nat, waiting: nat)
    requires Enabled(s, a) && |s.pending| <= waiting && |Effect(s, a, max).pending| <= waiting
    ensures Exec(s, [a], max) == Effect(s, a, max) && AtMostWaiting(s, [a], max, waiting)
  {
    assert [a][..0] == [] && [a][..1] == [a];
  }

  lemma NoStep(s: State, max: nat, waiting: nat)
    requires |s.pending| <= waiting
    ensures Exec(s, [], max) == s && AtMostWaiting(s, [], max, waiting)
  { }

  /** The rest of a fresh window is accepted. */
  lemma {:induction false} CountsAccepted(s: State, now: int, k: nat, max: nat, waiting: nat)
    requires s.row.Some? && now - s.row.value.windowStartedAt < MINUTE && s.row.value.count + k <= max
    requires |s.pending| <= waiting
    ensures Exec(s, Repeat(Count(now), k), max) ==
            s.(row := Some(s.row.value.(count := s.row.value.count + k)), accepted := s.accepted + k)
    ensures AtMostWaiting(s, Repeat(Count(now), k), max, waiting)
  {
    hide AtMostWaiting, Exec;
    if k == 0 {
      assert Repeat(Count(now), 0) == [];
      NoStep(s, max, waiting);
    } else {
      CountsAccepted(s, now, k - 1, max, waiting);
      RepeatLast(Count(now), k);
      var front := Repeat(Count(now), k - 1);
      OneStep(Exec(s, front, max), Count(now), max, waiting);
      ExecJoin(s, front, [Count(now)], max);
      WaitingJoin(s, front, [Count(now)], max, waiting);
    }
  }

  /** In a stale window every request comes to wait. */
  lemma {:induction false} CountsWait(s: State, now: int, k: nat, max: nat, waiting: nat)
    requires s.row.Some? && now - s.row.value.windowStartedAt >= MINUTE && |s.pending| + k <= waiting
    ensures Exec(s, Repeat(Count(now), k), max) ==
            State(Some(s.row.value.(count := s.row.value.count + k)), s.pending + seq(k, _ => now), s.accepted)
    ensures AtMostWaiting(s, Repeat(Count(now), k), max, waiting)
  {
    hide AtMostWaiting, Exec;
    if k == 0 {
      assert Repeat(Count(now), 0) == [] && s.pending + seq(0, _ => now) == s.pending;
      NoStep(s, max, waiting);
    } else {
      CountsWait(s, now, k - 1, max, waiting);
      RepeatLast(Count(now), k);
      var front := Repeat(Count(now), k - 1);
      assert s.pending + seq(k - 1, _ => now) + [now] == s.pending + seq(k, _ => now);
      OneStep(Exec(s, front, max), Count(now), max, waiting);
      ExecJoin(s, front, [Count(now)], max);
      WaitingJoin(s, front, [Count(now)], max, waiting);
    }
  }

  /** Every waiting request in turn resets the window, and the rest of that window is used up. */
  function Waves(k: nat, max: nat): seq<Action>
    requires max > 0
  {
    if k == 0 then [] else [Reset(0)] + Repeat(Count(1), max - 1) + Waves(k - 1, max)
  }

  lemma {:induction false} WavesAccept(s: State, k: nat, max: nat, waiting: nat)
    requires max > 0 && k <= waiting && s.pending == seq(k, _ => 1)
    ensures Exec(s, Waves(k, max), max).accepted == s.accepted + k * max
    ensures AtMostWaiting(s, Waves(k, max), max, waiting)
    decreases k
  {
    hide AtMostWaiting, Exec;
    if k == 0 {
      NoStep(s, max, waiting);
    } else {
      var t := State(Some(Row(1, 1)), seq(k - 1, _ => 1), s.accepted + 1);
      assert s.pending[..0] + s.pending[1..] == t.pending;
      OneStep(s, Reset(0), max, waiting);
      var rest := Repeat(Count(1), max - 1);
      CountsAccepted(t, 1, max - 1, max, waiting);
      ExecJoin(s, [Reset(0)], rest, max);
      WaitingJoin(s, [Reset(0)], rest, max, waiting);
      var u := Exec(s, [Reset(0)] + rest, max);
      WavesAccept(u, k - 1, max, waiting);
      ExecJoin(s, [Reset(0)] + rest, Waves(k - 1, max), max);
      WaitingJoin(s, [Reset(0)] + rest, Waves(k - 1, max), max, waiting);
      assert k * max == (k - 1) * max + max;
    }
  }

  /** A window that was opened by a request one microsecond less than a minute ago. */
  function Opened(): State { State(Some(Row(1 - MINUTE, 1)), [], 0) }

  function RaceRun(max: nat, waiting: nat): seq<Action>
    requires max > 0
  {
    Repeat(Count(0), max - 1) + Repeat(Count(1), waiting) + Waves(waiting, max)
  }

  /** The bound is attained for every limit and every number of waiting requests. */
  lemma RaceBoundIsTight(max: nat, waiting: nat)
    requires max > 0
    ensures Ok(Opened(), 0) && ReadingsWithin(Opened(), RaceRun(max, waiting), 0)
    ensures AtMostWaiting(Opened(), RaceRun(max, waiting), max, waiting)
    ensures Exec(Opened(), RaceRun(max, waiting), max).accepted == (waiting + 1) * max - 1
  {
    hide AtMostWaiting, Exec;
    var s, a, b := Opened(), Repeat(Count(0), max - 1), Repeat(Count(1), waiting);
    CountsAccepted(s, 0, max - 1, max, waiting);
    var t := Exec(s, a, max);
    CountsWait(t, 1, waiting, max, waiting);
    ExecJoin(s, a, b, max);
    WaitingJoin(s, a, b, max, waiting);
    var u := Exec(s, a + b, max);
    assert [] + seq(waiting, _ => 1) == seq(waiting, _ => 1);
    WavesAccept(u, waiting, max, waiting);
    ExecJoin(s, a + b, Waves(waiting, max), max);
    WaitingJoin(s, a + b, Waves(waiting, max), max, waiting);
    WavesRead(waiting, max);
    assert (waiting + 1) * max == waiting * max + max;
  }

  lemma {:induction false} WavesRead(k: nat, max: nat)
    requires max > 0
    ensures forall i | 0 <= i < |Waves(k, max)| && Waves(k, max)[i].Count? :: Waves(k, max)[i].now == 1
  {
    if k > 0 { WavesRead(k - 1, max); }
  }
}
