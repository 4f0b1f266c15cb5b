/** The rate limiter as it runs: the increment reads the row, adds one in memory and writes the count back,
    so overlapping requests can write the same count, or an old one. */
module RateLimitOverlap {
  import opened Wrappers
  import opened RateLimit
  import RateLimitRace

  /** One request thread: between requests, between the read and the write of its increment, or with a
      stale window still to reset. now is its clock reading, view the row it read. */
  datatype Slot = Free | Holding(now: int, view: Option<Row>) | Waiting(now: int)

  datatype State = State(row: Option<Row>, slots: seq<Slot>, accepted: nat)

  datatype Action = Read(i: nat, now: int) | Write(i: nat) | Reset(i: nat)

  predicate Enabled(s: State, a: Action) {
    && a.i < |s.slots|
    && match a
       case Read(i, _) => s.slots[i].Free?
       case Write(i) => s.slots[i].Holding? && (s.slots[i].view.Some? ==> s.row.Some?)
       case Reset(i) => s.slots[i].Waiting?
  }

  /** A write sets the count alone, to one more than was read; the window stays what it is by then. The
      second insert of a new row raises. The answer is judged by what was read. */
  function WriteEffect(s: State, i: nat, max: nat): State
    requires Enabled(s, Write(i))
  {
    var slot := s.slots[i];
    if slot.view.None? then
      if s.row.Some? then s.(slots := s.slots[i := Free])
      else State(Some(Row(slot.now, 1)), s.slots[i := Free], s.accepted + if 1 <= max then 1 else 0)
    else
      var count := slot.view.value.count + 1;
      var row := Some(Row(s.row.value.windowStartedAt, count));
      if slot.now - slot.view.value.windowStartedAt >= MINUTE then
        State(row, s.slots[i := Waiting(slot.now)], s.accepted)
      else State(row, s.slots[i := Free], s.accepted + if count <= max then 1 else 0)
  }

  function Effect(s: State, a: Action, max: nat): State
    requires Enabled(s, a)
  {
    match a
    case Read(i, now) => s.(slots := s.slots[i := Holding(now, s.row)])
    case Write(i) => WriteEffect(s, i, max)
    case Reset(i) => State(Some(Row(s.slots[i].now, 1)), s.slots[i := Free], s.accepted + if 1 <= max then 1 else 0)
  }

  function Step(s: State, a: Action, max: nat): State { if Enabled(s, a) then Effect(s, a, max) else s }

  function Exec(s: State, actions: seq<Action>, max: nat): State {
    if actions == [] then s
    else Step(Exec(s, actions[..|actions| - 1], max), actions[|actions| - 1], max)
  }

  /** When nothing comes between the read and the write, the increment is the single transaction of the
      serialised limiter. */
  lemma SerialisedIncrement(s: State, i: nat, now: int, max: nat)
    requires i < |s.slots| && s.slots[i].Free?
    ensures var u := Exec(s, [Read(i, now)] + [Write(i)], max);
            var v := RateLimitRace.Effect(RateLimitRace.State(s.row, [], s.accepted), RateLimitRace.Count(now), max);
            && u.row == v.row && u.accepted == v.accepted
            && u.slots == s.slots[i := if v.pending == [] then Free else Waiting(now)]
  {
    var one := [Read(i, now)];
    assert one[..|one| - 1] == [] && (one + [Write(i)])[..|one + [Write(i)]| - 1] == one;
    var t := Effect(s, Read(i, now), max);
    assert Exec(s, one, max) == t;
    assert t.slots[i := Free] == s.slots && t.slots[i := Waiting(now)] == s.slots[i := Waiting(now)];
    assert s.slots[i := Free] == s.slots;
  }

  /** With its reset, when it has one to make, it is a whole request of that limiter. */
  lemma SerialisedRequest(s: State, i: nat, now: int, max: nat)
    requires i < |s.slots| && s.slots[i].Free?
    ensures var u := Exec(s, [Read(i, now)] + [Write(i)] + [Reset(i)], max);
            var start := RateLimitRace.State(s.row, [], s.accepted);
            var v := RateLimitRace.Exec(start, [RateLimitRace.Count(now)] + [RateLimitRace.Reset(0)], max);
            u.row == v.row && u.accepted == v.accepted && u.slots == s.slots && v.pending == []
  {
    hide WriteEffect;
    SerialisedIncrement(s, i, now, max);
    var first, second := [Read(i, now)] + [Write(i)], [RateLimitRace.Count(now)];
    assert (first + [Reset(i)])[..|first + [Reset(i)]| - 1] == first;
    assert (second + [RateLimitRace.Reset(0)])[..|second + [RateLimitRace.Reset(0)]| - 1] == second;
    assert second[..0] == [];
    var start := RateLimitRace.State(s.row, [], s.accepted);
    var u, v := Exec(s, first, max), RateLimitRace.Effect(start, RateLimitRace.Count(now), max);
    assert RateLimitRace.Exec(start, second, max) == v;
    assert s.slots[i := Waiting(now)][i := Free] == s.slots && s.slots[i := Free] == s.slots;
    assert Exec(s, first + [Reset(i)], max) == Step(u, Reset(i), max);
    if v.pending != [] {
      assert v.pending == [now] && v.pending[..0] + v.pending[1..] == [];
      assert u.slots[i] == Waiting(now);
    } else {
      assert u.slots[i] == Free;
    }
  }

  // ---------------------------------------------------------------- counting

  /** Multisets of size x over m things. */
  function Ways(m: nat, x: nat): nat {
    if x == 0 then 1 else if m == 0 then 0 else Ways(m - 1, x) + Ways(m, x - 1)
  }

  function Choose(n: nat, k: nat): nat {
    if k == 0 then 1 else if n == 0 then 0 else Choose(n - 1, k - 1) + Choose(n - 1, k)
  }

  lemma {:induction false} ChooseAll(n: nat, k: nat)
    requires n <= k
    ensures Choose(n, k) == if n == k then 1 else 0
  {
    if k > 0 && n > 0 {
      ChooseAll(n - 1, k - 1);
      ChooseAll(n - 1, k);
    }
  }

  lemma {:induction false} WaysIsChoose(m: nat, x: nat)
    ensures Ways(m + 1, x) == Choose(m + x, x)
    decreases m + x
  {
    if x > 0 {
      WaysIsChoose(m, x - 1);
      if m > 0 {
        WaysIsChoose(m - 1, x);
      } else {
        ChooseAll(x - 1, x);
      }
    }
  }

  lemma {:induction false} WaysGrow(m: nat, n: nat, x: nat)
    requires m <= n
    ensures Ways(m, x) <= Ways(n, x)
    decreases n
  {
    if m < n && x > 0 { WaysGrow(m, n - 1, x); }
  }

  function AtLeast(values: seq<nat>, x: nat): (n: nat)
    ensures n <= |values|
  {
    if values == [] then 0
    else AtLeast(values[..|values| - 1], x) + if values[|values| - 1] >= x then 1 else 0
  }

  lemma {:induction false} AtLeastLess(values: seq<nat>, others: seq<nat>, x: nat)
    requires |values| == |others| && forall j | 0 <= j < |values| :: others[j] >= x ==> values[j] >= x
    ensures AtLeast(others, x) <= AtLeast(values, x)
    ensures forall i | 0 <= i < |values| && values[i] >= x > others[i] :: AtLeast(others, x) < AtLeast(values, x)
  {
    if values != [] {
      var n := |values| - 1;
      AtLeastLess(values[..n], others[..n], x);
      forall i | 0 <= i < |values| && values[i] >= x > others[i] ensures AtLeast(others, x) < AtLeast(values, x) {
        if i < n { assert values[..n][i] == values[i] && others[..n][i] == others[i]; }
      }
    }
  }

  lemma {:induction false} AtLeastMonotone(values: seq<nat>, x: nat, y: nat)
    requires x <= y
    ensures AtLeast(values, y) <= AtLeast(values, x)
  {
    if values != [] { AtLeastMonotone(values[..|values| - 1], x, y); }
  }

  /** What the level x of these slot values is worth. */
  function Level(values: seq<nat>, x: nat): (n: nat)
    ensures n <= Ways(|values|, x)
  {
    WaysGrow(|values| - AtLeast(values, x), |values|, x);
    Ways(|values|, x) - Ways(|values| - AtLeast(values, x), x)
  }

  function Budget(values: seq<nat>, top: nat): nat {
    if top == 0 then 0 else Budget(values, top - 1) + Level(values, top)
  }

  lemma LevelLess(values: seq<nat>, others: seq<nat>, x: nat)
    requires |values| == |others| && AtLeast(others, x) <= AtLeast(values, x)
    ensures Level(others, x) <= Level(values, x)
  {
    WaysGrow(|values| - AtLeast(values, x), |values| - AtLeast(others, x), x);
  }

  lemma {:induction false} NoGain(values: seq<nat>, others: seq<nat>, top: nat)
    requires |values| == |others| && forall j | 0 <= j < |values| :: others[j] <= values[j]
    ensures Budget(others, top) <= Budget(values, top)
  {
    if top > 0 {
      NoGain(values, others, top - 1);
      AtLeastLess(values, others, top);
      LevelLess(values, others, top);
    }
  }

  /** Below a level that q slots reach, refilling every slot gains less than a slot of that level is worth. */
  lemma {:induction false} Refill(values: seq<nat>, others: seq<nat>, q: nat, k: nat)
    requires |values| == |others| && q <= |values| && forall x | 1 <= x <= k :: q <= AtLeast(values, x)
    ensures Budget(others, k) + 1 <= Budget(values, k) + Ways(|values| - q + 1, k)
  {
    if k > 0 {
      Refill(values, others, q, k - 1);
      WaysGrow(|values| - AtLeast(values, k), |values| - q, k);
    }
  }

  /** Spending a slot of value a pays for one acceptance, whatever the slots below a are worth then. */
  lemma {:induction false} Spend(values: seq<nat>, others: seq<nat>, i: nat, a: nat, top: nat)
    requires |values| == |others| && i < |values| && 1 <= a <= top && others[i] < a <= values[i]
    requires forall j | 0 <= j < |values| :: others[j] < a || others[j] <= values[j]
    ensures Budget(others, top) + 1 <= Budget(values, top)
  {
    AtLeastLess(values, others, top);
    if top > a {
      Spend(values, others, i, a, top - 1);
      LevelLess(values, others, top);
    } else {
      var q := AtLeast(values, a);
      forall x | 1 <= x <= a - 1 ensures q <= AtLeast(values, x) { AtLeastMonotone(values, x, a); }
      Refill(values, others, q, a - 1);
      WaysGrow(|values| - q + 1, |values| - AtLeast(others, a), a);
    }
  }

  lemma {:induction false} AtLeastAll(values: seq<nat>, v: nat, x: nat)
    requires forall j | 0 <= j < |values| :: values[j] == v
    ensures AtLeast(values, x) == if v >= x then |values| else 0
  {
    if values != [] { AtLeastAll(values[..|values| - 1], v, x); }
  }

  /** Slots that are all worth v make the binomial coefficient. */
  lemma {:induction false} BudgetAll(values: seq<nat>, v: nat, top: nat)
    requires forall j | 0 <= j < |values| :: values[j] == v
    ensures Budget(values, top) == Ways(|values| + 1, if top < v then top else v) - 1
  {
    if top > 0 {
      BudgetAll(values, v, top - 1);
      AtLeastAll(values, v, top);
    }
  }

  // ---------------------------------------------------------------- what a state is worth

  predicate Within(now: int, t: int) { RateLimitRace.Within(now, t) }

  function Left(row: Row, max: nat): nat { RateLimitRace.Left(row, max) }

  /** The thread read a window that was over at its own clock reading. */
  predicate Behind(slot: Slot) {
    slot.Holding? && slot.view.Some? && slot.now - slot.view.value.windowStartedAt >= MINUTE
  }

  /** The window was opened at t or later, or there is none. */
  predicate New(row: Option<Row>, t: int) { row.Some? ==> row.value.windowStartedAt >= t }

  function NewWorth(slot: Slot, row: Option<Row>, max: nat): nat {
    if Behind(slot) then max + 1
    else
      match slot
      case Free => if row.Some? then Left(row.value, max) else max
      case Holding(_, view) => if view.Some? then Left(view.value, max) else max
      case Waiting(_) => max
  }

  function OldWorth(slot: Slot, row: Row, max: nat): nat
    requires max > 0
  {
    match slot
    case Free => Left(row, max)
    case Holding(_, view) => if view.Some? then Left(view.value, max) else max - 1
    case Waiting(_) => 0
  }

  function NewValues(s: State, max: nat): (values: seq<nat>)
    ensures |values| == |s.slots| && forall i | 0 <= i < |values| :: values[i] == NewWorth(s.slots[i], s.row, max)
  {
    seq(|s.slots|, i requires 0 <= i < |s.slots| => NewWorth(s.slots[i], s.row, max))
  }

  function OldValues(s: State, max: nat): (values: seq<nat>)
    requires s.row.Some? && max > 0
    ensures |values| == |s.slots| && forall i | 0 <= i < |values| :: values[i] == OldWorth(s.slots[i], s.row.value, max)
  {
    seq(|s.slots|, i requires 0 <= i < |s.slots| => OldWorth(s.slots[i], s.row.value, max))
  }

  function AllOf(n: nat, v: nat): (values: seq<nat>)
    ensures |values| == n && forall i | 0 <= i < n :: values[i] == v
  {
    seq(n, i => v)
  }

  /** What is left in the minute from t once a window of that minute opens. */
  function Rest(threads: nat, max: nat): int { Ways(threads + 1, max + 1) - 2 }

  /** How many requests can still be accepted. */
  function Total(s: State, max: nat, t: int): int
    requires max > 0
  {
    if New(s.row, t) then Budget(NewValues(s, max), max + 1)
    else Budget(OldValues(s, max), max - 1) + Rest(|s.slots|, max)
  }

  // ---------------------------------------------------------------- every step pays

  predicate Sound(slot: Slot, row: Option<Row>) {
    match slot
    case Free => true
    case Holding(_, view) => view.Some? ==> row.Some? && view.value.count >= 1
    case Waiting(_) => row.Some?
  }

  /** Counts are positive, and what a thread saw was a row that is still there. */
  ghost predicate Ok(s: State) {
    && (s.row.Some? ==> s.row.value.count >= 1)
    && forall i | 0 <= i < |s.slots| :: Sound(s.slots[i], s.row)
  }

  /** The readings of the requests in flight lie in the minute from t. */
  ghost predicate InFlightWithin(s: State, t: int) {
    forall i | 0 <= i < |s.slots| && !s.slots[i].Free? :: Within(s.slots[i].now, t)
  }

  lemma StepOk(s: State, a: Action, max: nat, t: int)
    requires Ok(s) && Enabled(s, a)
    ensures Ok(Effect(s, a, max)) && |Effect(s, a, max).slots| == |s.slots|
    ensures InFlightWithin(s, t) && (a.Read? ==> Within(a.now, t)) ==> InFlightWithin(Effect(s, a, max), t)
  { }

  /** In a window that is not reset, a write spends what its view had left. */
  lemma OldSpends(s: State, a: Action, max: nat)
    requires max > 0 && Ok(s) && Enabled(s, a) && s.row.Some? && !a.Reset?
    ensures var u := Effect(s, a, max);
            && u.row.Some?
            && u.accepted + Budget(OldValues(u, max), max - 1) <= s.accepted + Budget(OldValues(s, max), max - 1)
  {
    hide Budget, Ways;
    var u := Effect(s, a, max);
    var values, others := OldValues(s, max), OldValues(u, max);
    assert Sound(s.slots[a.i], s.row);
    if a.Write? && s.slots[a.i].view.Some? && values[a.i] > 0 {
      Spend(values, others, a.i, values[a.i], max - 1);
    } else {
      NoGain(values, others, max - 1);
    }
  }

  lemma NewSpends(s: State, a: Action, max: nat, t: int)
    requires max > 0 && Ok(s) && Enabled(s, a) && New(s.row, t)
    requires InFlightWithin(s, t) && (a.Read? ==> Within(a.now, t))
    ensures var u := Effect(s, a, max);
            && New(u.row, t)
            && u.accepted + Budget(NewValues(u, max), max + 1) <= s.accepted + Budget(NewValues(s, max), max + 1)
  {
    hide Budget, Ways;
    var u := Effect(s, a, max);
    var values, others := NewValues(s, max), NewValues(u, max);
    assert Sound(s.slots[a.i], s.row);
    if a.Read? || values[a.i] == 0 || (s.slots[a.i].Holding? && s.slots[a.i].view.None? && s.row.Some?) {
      NoGain(values, others, max + 1);
    } else {
      Spend(values, others, a.i, values[a.i], max + 1);
    }
  }

  /** The reset that opens the first window of the minute. */
  lemma ResetSpends(s: State, i: nat, max: nat, t: int)
    requires max > 0 && Enabled(s, Reset(i)) && InFlightWithin(s, t)
    ensures var u := Effect(s, Reset(i), max);
            New(u.row, t) && Budget(NewValues(u, max), max + 1) + 1 <= Rest(|s.slots|, max)
  {
    var u := Effect(s, Reset(i), max);
    var all, others := AllOf(|s.slots|, max + 1), NewValues(u, max);
    BudgetAll(all, max + 1, max + 1);
    Spend(all, all[i := max], i, max + 1, max + 1);
    Spend(all[i := max], others, i, max, max + 1);
  }

  lemma StepSpends(s: State, a: Action, max: nat, t: int)
    requires max > 0 && Ok(s) && Enabled(s, a) && InFlightWithin(s, t) && (a.Read? ==> Within(a.now, t))
    ensures var u := Effect(s, a, max); u.accepted + Total(u, max, t) <= s.accepted + Total(s, max, t)
  {
    hide Budget, Ways, Ok, InFlightWithin;
    if New(s.row, t) {
      NewSpends(s, a, max, t);
    } else if a.Reset? {
      ResetSpends(s, a.i, max, t);
    } else {
      OldSpends(s, a, max);
    }
  }

  // ---------------------------------------------------------------- one minute

  lemma RestPositive(threads: nat, max: nat)
    requires threads > 0
    ensures Rest(threads, max) >= 0
  {
    BudgetAll(AllOf(threads, max + 1), max + 1, max + 1);
    Spend(AllOf(threads, max + 1), AllOf(threads, 0), 0, max + 1, max + 1);
  }

  ghost predicate ReadingsWithin(actions: seq<Action>, t: int) {
    forall i | 0 <= i < |actions| && actions[i].Read? :: Within(actions[i].now, t)
  }

  lemma {:induction false} RunSpends(s: State, actions: seq<Action>, max: nat, t: int)
    requires max > 0 && Ok(s) && InFlightWithin(s, t) && ReadingsWithin(actions, t)
    ensures var u := Exec(s, actions, max);
            && Ok(u) && InFlightWithin(u, t) && |u.slots| == |s.slots|
            && u.accepted + Total(u, max, t) <= s.accepted + Total(s, max, t)
  {
    hide Ok, InFlightWithin, Total, Effect;
    if actions != [] {
      var n := |actions| - 1;
      RunSpends(s, actions[..n], max, t);
      var u := Exec(s, actions[..n], max);
      if Enabled(u, actions[n]) {
        StepSpends(u, actions[n], max, t);
        StepOk(u, actions[n], max, t);
      }
    }
  }

  /** The thread that opened a window of the minute has not read an older one since. */
  ghost predicate Settled(s: State, t: int) {
    && s.slots != []
    && (New(s.row, t) ==> exists i | 0 <= i < |s.slots| :: !Behind(s.slots[i]))
  }

  lemma TotalBound(s: State, max: nat, t: int)
    requires max > 0 && Ok(s) && Settled(s, t)
    ensures Total(s, max, t) <= Ways(|s.slots| + 1, max - 1) - 1 + Rest(|s.slots|, max)
  {
    hide Budget, Ways;
    var n := |s.slots|;
    BudgetAll(AllOf(n, max - 1), max - 1, max - 1);
    if New(s.row, t) {
      var i: nat :| i < n && !Behind(s.slots[i]);
      BudgetAll(AllOf(n, max + 1), max + 1, max + 1);
      Spend(AllOf(n, max + 1), NewValues(s, max), i, max + 1, max + 1);
    } else {
      assert forall i | 0 <= i < n :: Sound(s.slots[i], s.row);
      NoGain(AllOf(n, max - 1), OldValues(s, max), max - 1);
    }
  }

  lemma StretchBound(s: State, actions: seq<Action>, max: nat, t: int)
    requires max > 0 && Ok(s) && InFlightWithin(s, t) && Settled(s, t) && ReadingsWithin(actions, t)
    ensures var n := |s.slots|;
            Exec(s, actions, max).accepted - s.accepted
            <= Choose(n + max - 1, max - 1) + Choose(n + max + 1, max + 1) - 3
  {
    hide Ways, Choose, Ok, InFlightWithin, Budget, NewValues, OldValues;
    var n := |s.slots|;
    RunSpends(s, actions, max, t);
    TotalBound(s, max, t);
    RestPositive(n, max);
    WaysIsChoose(n, max - 1);
    WaysIsChoose(n, max + 1);
  }

  function Start(threads: nat): State { State(None, seq(threads, _ => Free), 0) }

  /** The thread that opened the window is still known not to be behind it. */
  predicate Opener(slot: Slot, row: Row) {
    slot.Holding? ==> slot.view.Some? && slot.view.value.windowStartedAt == row.windowStartedAt
  }

  ghost predicate Opened(s: State) {
    s.row.Some? ==> exists i | 0 <= i < |s.slots| :: Opener(s.slots[i], s.row.value)
  }

  lemma StepOpened(s: State, a: Action, max: nat)
    requires Opened(s) && Enabled(s, a)
    ensures Opened(Effect(s, a, max))
  {
    var u := Effect(s, a, max);
    if s.row.Some? {
      var i :| 0 <= i < |s.slots| && Opener(s.slots[i], s.row.value);
      assert u.row.Some? ==> Opener(u.slots[i], u.row.value) || Opener(u.slots[a.i], u.row.value);
    } else {
      assert u.row.Some? ==> Opener(u.slots[a.i], u.row.value);
    }
  }

  lemma {:induction false} RunOpened(threads: nat, actions: seq<Action>, max: nat)
    ensures var u := Exec(Start(threads), actions, max); Ok(u) && Opened(u) && |u.slots| == threads
  {
    hide Effect;
    if actions == [] {
      assert Ok(Start(threads)) && Opened(Start(threads));
    } else {
      hide Ok, Opened;
      var n := |actions| - 1;
      RunOpened(threads, actions[..n], max);
      var u := Exec(Start(threads), actions[..n], max);
      if Enabled(u, actions[n]) {
        StepOk(u, actions[n], max, 0);
        StepOpened(u, actions[n], max);
      }
    }
  }

  lemma OpenedSettles(s: State, t: int)
    requires Ok(s) && Opened(s) && InFlightWithin(s, t) && s.slots != []
    ensures Settled(s, t)
  {
    if New(s.row, t) {
      if s.row.Some? {
        var i :| 0 <= i < |s.slots| && Opener(s.slots[i], s.row.value);
        assert !Behind(s.slots[i]);
      } else {
        assert Sound(s.slots[0], s.row);
        assert !Behind(s.slots[0]);
      }
    }
  }

  /** However the requests of so many threads overlap, a stretch of a run whose clock readings lie in one
      half-open minute accepts no more than this; for one thread it is 2 * max - 1. */
  lemma OverlapBound(threads: nat, earlier: seq<Action>, actions: seq<Action>, max: nat, t: int)
    requires threads > 0 && max > 0
    requires InFlightWithin(Exec(Start(threads), earlier, max), t) && ReadingsWithin(actions, t)
    ensures Exec(Start(threads), earlier + actions, max).accepted
            <= Exec(Start(threads), earlier, max).accepted
               + Choose(threads + max - 1, max - 1) + Choose(threads + max + 1, max + 1) - 3
  {
    hide Choose, Exec, Ok, Opened, Settled, InFlightWithin, ReadingsWithin;
    var s := Exec(Start(threads), earlier, max);
    RunOpened(threads, earlier, max);
    OpenedSettles(s, t);
    StretchBound(s, actions, max, t);
    ExecJoin(Start(threads), earlier, actions, max);
  }

  /** With one thread this is the bound of the limiter that answers one request at a time. */
  lemma OneThread(max: nat)
    requires max > 0
    ensures Choose(1 + max - 1, max - 1) + Choose(1 + max + 1, max + 1) - 3 == 2 * max - 1
  {
    WaysIsChoose(1, max - 1);
    WaysIsChoose(1, max + 1);
    WaysTwo(max - 1);
    WaysTwo(max + 1);
  }

  // ---------------------------------------------------------------- one window

  /** All requests in flight, and those to come, find this window and find it fresh. */
  ghost predicate Fresh(s: State, start: int) {
    && s.row.Some? && s.row.value.windowStartedAt == start && s.row.value.count >= 1
    && forall i | 0 <= i < |s.slots| :: SlotFresh(s.slots[i], start)
  }

  predicate SlotFresh(slot: Slot, start: int) {
    match slot
    case Free => true
    case Holding(now, view) =>
      view.Some? && view.value.windowStartedAt == start && view.value.count >= 1 && now - start < MINUTE
    case Waiting(_) => false
  }

  ghost predicate ReadingsFresh(actions: seq<Action>, start: int) {
    forall i | 0 <= i < |actions| && actions[i].Read? :: actions[i].now - start < MINUTE
  }

  lemma StepFresh(s: State, a: Action, max: nat, start: int)
    requires Fresh(s, start) && Enabled(s, a) && (a.Read? ==> a.now - start < MINUTE)
    ensures !a.Reset? && Ok(s) && Fresh(Effect(s, a, max), start)
  { }

  lemma {:induction false} FreshSpends(s: State, actions: seq<Action>, max: nat, start: int)
    requires max > 0 && Fresh(s, start) && ReadingsFresh(actions, start)
    ensures var u := Exec(s, actions, max);
            && Fresh(u, start)
            && u.accepted + Budget(OldValues(u, max), max - 1) <= s.accepted + Budget(OldValues(s, max), max - 1)
  {
    hide Ok, Budget, Effect, Enabled, OldValues;
    if actions != [] {
      var n := |actions| - 1;
      FreshSpends(s, actions[..n], max, start);
      var u := Exec(s, actions[..n], max);
      if Enabled(u, actions[n]) {
        StepFresh(u, actions[n], max, start);
        OldSpends(u, actions[n], max);
      }
    }
  }

  ghost predicate Quiet(s: State) { forall i | 0 <= i < |s.slots| :: s.slots[i].Free? }

  /** In one window that has counted to max - left, however the requests of so many threads overlap, no
      more than this are accepted; for one thread it is what is left. */
  lemma WindowBound(s: State, actions: seq<Action>, max: nat, left: nat)
    requires Quiet(s) && s.row.Some? && 1 <= s.row.value.count <= max && left == max - s.row.value.count
    requires ReadingsFresh(actions, s.row.value.windowStartedAt)
    ensures Exec(s, actions, max).accepted - s.accepted <= Choose(|s.slots| + left, left) - 1
  {
    FreshSpends(s, actions, max, s.row.value.windowStartedAt);
    BudgetAll(OldValues(s, max), left, max - 1);
    WaysIsChoose(|s.slots|, left);
  }

  /** The last of the first h threads reads, holds on while the others spend all they can, and then takes
      the count back to just above what it read. */
  function Spree(h: nat, left: nat, now: int): seq<Action>
    decreases h + left
  {
    if h == 0 || left == 0 then []
    else [Read(h - 1, now)] + Spree(h - 1, left, now) + [Write(h - 1)] + Spree(h, left - 1, now)
  }

  lemma {:induction false} ExecJoin(s: State, a: seq<Action>, b: seq<Action>, max: nat)
    ensures Exec(s, a + b, max) == Exec(Exec(s, a, max), b, max)
  {
    if b == [] {
      assert a + b == a;
    } else {
      var n := |b| - 1;
      ExecJoin(s, a, b[..n], max);
      assert (a + b)[..|a + b| - 1] == a + b[..n];
    }
  }

  lemma ExecOne(s: State, a: Action, max: nat)
    requires Enabled(s, a)
    ensures Exec(s, [a], max) == Effect(s, a, max)
  {
    assert [a][..0] == [];
  }

  /** The write of a thread that read before the others went on takes the count back to what it saw. */
  lemma WriteBack(s: State, t: State, i: nat, left: nat, now: int, max: nat)
    requires i < |s.slots| && s.slots[i].Free? && 0 < left < max && s.row == Some(Row(now, max - left))
    requires t.slots == s.slots[i := Holding(now, s.row)] && t.row.Some? && t.row.value.windowStartedAt == now
    ensures Enabled(t, Write(i))
    ensures Effect(t, Write(i), max) == State(Some(Row(now, max - left + 1)), s.slots, t.accepted + 1)
  {
    assert t.slots[i := Free] == s.slots;
  }

  lemma {:induction false} SpreeAccepts(s: State, h: nat, left: nat, now: int, max: nat)
    requires h <= |s.slots| && left < max && s.row == Some(Row(now, max - left))
    requires forall i | 0 <= i < h :: s.slots[i].Free?
    ensures var u := Exec(s, Spree(h, left, now), max);
            && u.slots == s.slots && u.row.Some? && u.row.value.windowStartedAt == now
            && u.accepted == s.accepted + Ways(h + 1, left) - 1
    decreases h + left
  {
    if h == 0 || left == 0 {
      WaysOne(left);
    } else {
      hide Exec, WriteEffect;
      var read, write := [Read(h - 1, now)], [Write(h - 1)];
      var s1 := s.(slots := s.slots[h - 1 := Holding(now, s.row)]);
      ExecOne(s, read[0], max);
      SpreeAccepts(s1, h - 1, left, now, max);
      var s2 := Exec(s1, Spree(h - 1, left, now), max);
      ExecJoin(s, read, Spree(h - 1, left, now), max);
      WriteBack(s, s2, h - 1, left, now, max);
      ExecOne(s2, write[0], max);
      ExecJoin(s, read + Spree(h - 1, left, now), write, max);
      SpreeAccepts(State(Some(Row(now, max - left + 1)), s.slots, s2.accepted + 1), h, left - 1, now, max);
      ExecJoin(s, read + Spree(h - 1, left, now) + write, Spree(h, left - 1, now), max);
    }
  }

  lemma {:induction false} WaysOne(x: nat)
    ensures Ways(1, x) == 1
  {
    if x > 0 { WaysOne(x - 1); }
  }

  lemma {:induction false} SpreeReads(h: nat, left: nat, now: int)
    ensures ReadingsFresh(Spree(h, left, now), now)
    decreases h + left
  {
    if h > 0 && left > 0 {
      SpreeReads(h - 1, left, now);
      SpreeReads(h, left - 1, now);
    }
  }

  lemma {:induction false} WaysTwo(x: nat)
    ensures Ways(2, x) == x + 1 && (x > 0 ==> Ways(3, x) > x + 1)
  {
    WaysOne(x);
    if x > 0 {
      WaysTwo(x - 1);
      assert Ways(3, x) == Ways(2, x) + Ways(3, x - 1);
    }
  }

  /** The bound of one window is attained for every number of threads and every count. */
  lemma WindowBoundIsTight(s: State, max: nat, left: nat)
    requires Quiet(s) && s.row.Some? && 1 <= s.row.value.count <= max && left == max - s.row.value.count
    ensures var start := s.row.value.windowStartedAt;
            var actions := Spree(|s.slots|, left, start);
            && ReadingsFresh(actions, start)
            && Exec(s, actions, max).accepted - s.accepted == Choose(|s.slots| + left, left) - 1
  {
    var start := s.row.value.windowStartedAt;
    SpreeAccepts(s, |s.slots|, left, start, max);
    SpreeReads(|s.slots|, left, start);
    WaysIsChoose(|s.slots|, left);
  }

  /** So a window keeps to its limit under every overlap exactly when there is only one thread, or the
      limit is reached already. */
  lemma LimitKeptIff(s: State, max: nat, left: nat)
    requires Quiet(s) && s.row.Some? && 1 <= s.row.value.count <= max && left == max - s.row.value.count
    ensures var start := s.row.value.windowStartedAt;
            (forall actions | ReadingsFresh(actions, start) :: Exec(s, actions, max).accepted - s.accepted <= left)
            <==> |s.slots| <= 1 || left == 0
  {
    hide Exec, Choose, ReadingsFresh;
    var n, start := |s.slots|, s.row.value.windowStartedAt;
    WaysIsChoose(n, left);
    WaysTwo(left);
    if n <= 1 || left == 0 {
      WaysGrow(n + 1, if n <= 1 then 2 else n + 1, left);
      assert Ways(n + 1, 0) == 1;
      forall actions | ReadingsFresh(actions, start)
        ensures Exec(s, actions, max).accepted - s.accepted <= left
      {
        WindowBound(s, actions, max, left);
      }
    } else {
      WaysGrow(3, n + 1, left);
      WindowBoundIsTight(s, max, left);
    }
  }
}
