/** Runtimes that nobody will ever stop: which step leaves one behind, and when none does. */
module ServiceLeaks {
  import opened Wrappers
  import opened ServiceReplacement
  import opened ServiceAvailability

  ghost predicate Routed(s: State, id: nat) { exists k: nat :: Routes(s.records, k, id) }

  predicate Remembers(t: Task, id: nat) { PreviousOf(t).Some? && PreviousOf(t).value.service == id }

  /** Some start in flight read this service as last known good. */
  ghost predicate Remembered(tasks: map<nat, Task>, id: nat) {
    exists t | t in tasks :: Remembers(tasks[t], id)
  }

  /** Its runtime is up, but no pointer leads to it, no start has it in hand and no drain is pending. */
  ghost predicate Orphan(s: State, id: nat) {
    id in s.up && id !in s.retires && !Routed(s, id) && !Candidate(s.tasks, id) && !Remembered(s.tasks, id)
  }

  // ---------------------------------------------------------------- invariant

  /** A drain stops its service's own runtime, which is down once it has done so. */
  ghost predicate DrainsOk(s: State) {
    forall id | id in s.retires ::
      s.retires[id].previous.runtime == Some(id) && (s.retires[id].runtimeStopped ==> id !in s.up)
  }

  ghost predicate MemoriesOk(s: State) {
    forall t | t in s.tasks && PreviousOf(s.tasks[t]).Some? ::
      PreviousOf(s.tasks[t]).value.runtime == Some(PreviousOf(s.tasks[t]).value.service)
  }

  ghost predicate RejectedUp(s: State) {
    forall t | t in s.tasks && s.tasks[t].Rejected? :: s.tasks[t].candidate in s.up
  }

  ghost predicate RuntimesOk(s: State) { DrainsOk(s) && MemoriesOk(s) && RejectedUp(s) }

  ghost predicate Sound(s: State) { Inv(s) && RuntimesOk(s) }

  lemma InitSound(s: State)
    requires Init(s)
    ensures Sound(s)
  {
    InitInv(s);
  }

  lemma StepSound(s: State, a: Action)
    requires Sound(s)
    ensures Sound(Step(s, a))
  {
    hide Inv, RuntimesOk, Effect;
    StepInv(s, a);
    if Enabled(s, a) {
      if Private(a) || Swaps(a) { TaskStepSound(s, a); } else { OtherStepSound(s, a); }
    }
  }

  lemma RetiringIsOld(s: State)
    requires Inv(s)
    ensures forall id | id in s.retires :: id < s.next && !Candidate(s.tasks, id)
  { }

  lemma FoundHasItsRuntime(s: State)
    requires Inv(s)
    ensures var found := LastKnownGood(s, |s.versions|);
            found.Some? ==> found.value.runtime == Some(found.value.service)
  {
    hide RoutedUp, RetiringUp, Anchored, PreviousesOk, RetiresOk, CandidatesOk, RunningOk;
  }

  lemma TaskStepSound(s: State, a: Action)
    requires Sound(s) && Enabled(s, a) && (Private(a) || Swaps(a))
    ensures RuntimesOk(Effect(s, a))
  {
    hide Inv, RejectedUp, LastKnownGood;
    RetiringIsOld(s);
    if a.Request? { FoundHasItsRuntime(s); }
    TaskRejectedUp(s, a);
    var t := Effect(s, a);
    assert DrainsOk(t);
  }

  lemma TaskRejectedUp(s: State, a: Action)
    requires Sound(s) && Enabled(s, a) && (Private(a) || Swaps(a))
    ensures RejectedUp(Effect(s, a))
  {
    hide LastKnownGood, RoutedUp, RetiringUp, Anchored, RecordsOk, PreviousesOk, RetiresOk, Candidate, DrainsOk;
    var t := Effect(s, a);
    forall u | u in t.tasks && t.tasks[u].Rejected? ensures t.tasks[u].candidate in t.up {
      assert u != a.task ==> u in s.tasks;
    }
  }

  lemma OtherStepSound(s: State, a: Action)
    requires Sound(s) && Enabled(s, a) && !Private(a) && !Swaps(a)
    ensures RuntimesOk(Effect(s, a))
  {
    RetiringIsOld(s);
    hide RoutedUp, RetiringUp, Anchored, PreviousOk, PreviousesOk;
    if a.RuntimeStopped? {
      forall u | u in s.tasks && s.tasks[u].Rejected? ensures s.tasks[u].candidate != a.service {
        CandidateOfTask(s.tasks, u);
      }
    }
  }

  lemma CandidateOfTask(tasks: map<nat, Task>, task: nat)
    requires task in tasks && CandidateOf(tasks[task]).Some?
    ensures Candidate(tasks, CandidateOf(tasks[task]).value)
  { }

  lemma {:induction false} RunSound(s: State, actions: seq<Action>)
    requires Sound(s)
    ensures Sound(Exec(s, actions))
  {
    hide Sound, Step;
    if actions != [] {
      RunSound(s, actions[..|actions| - 1]);
      StepSound(Exec(s, actions[..|actions| - 1]), actions[|actions| - 1]);
    }
  }

  // ---------------------------------------------------------------- the step that leaves one behind

  /** This start alone remembers the service, which is up, unrouted and not being retired. */
  ghost predicate Forgotten(s: State, task: nat, id: nat)
    requires task in s.tasks
  {
    && Remembers(s.tasks[task], id) && id in s.up && id !in s.retires && !Routed(s, id)
    && forall t | t in s.tasks && t != task :: !Remembers(s.tasks[t], id)
  }

  /** What an action leaves behind: a request that ends before its swap, the service only it remembered, and
      the runtime it had brought up unless that was stopped; a swap, the running service whose pointer it
      overwrites when no start in flight remembers it (nor this one, which would retire it); a swap cut
      short, also the one it should have retired; a drain whose stop raises, the service nobody routes to
      or remembers. */
  ghost predicate Leaks(s: State, a: Action, id: nat)
    requires Enabled(s, a)
  {
    match a
    case StartFails(task) => Forgotten(s, task, id)
    case StartRaises(task) => id == s.next || Forgotten(s, task, id)
    case ProbeFails(task) => Forgotten(s, task, id)
    case SwapFails(task) => id == s.tasks[task].candidate || Forgotten(s, task, id)
    case SwapCut(task, _) =>
      && id in s.up && id !in s.retires && !OtherRemembers(s.tasks, task, id)
      && (Routes(s.records, s.tasks[task].kind, id) || (Remembers(s.tasks[task], id) && !Routed(s, id)))
    case ProbeRaises(task, _) => id == s.tasks[task].candidate || Forgotten(s, task, id)
    case CandidateStopFails(task) => id == s.tasks[task].candidate
    case Publish(task) =>
      Routes(s.records, s.tasks[task].kind, id) && id in s.up && id !in s.retires && !Remembered(s.tasks, id)
    case RetireFails(service) => id == service && id in s.up && !Routed(s, id) && !Remembered(s.tasks, id)
    case _ => false
  }

  ghost predicate OtherRemembers(tasks: map<nat, Task>, task: nat, id: nat) {
    exists t | t in tasks && t != task :: Remembers(tasks[t], id)
  }

  ghost predicate OtherCandidate(tasks: map<nat, Task>, task: nat, id: nat) {
    exists t | t in tasks && t != task :: CandidateOf(tasks[t]) == Some(id)
  }

  /** Who has a service in hand, before and after one task changes. */
  lemma TaskView(tasks: map<nat, Task>, task: nat, to: Task, id: nat)
    ensures Remembered(tasks, id) <==> (task in tasks && Remembers(tasks[task], id)) || OtherRemembers(tasks, task, id)
    ensures Candidate(tasks, id) <==>
              (task in tasks && CandidateOf(tasks[task]) == Some(id)) || OtherCandidate(tasks, task, id)
    ensures Remembered(tasks[task := to], id) <==> Remembers(to, id) || OtherRemembers(tasks, task, id)
    ensures Candidate(tasks[task := to], id) <==> CandidateOf(to) == Some(id) || OtherCandidate(tasks, task, id)
  {
    var u := tasks[task := to];
    assert u[task] == to && forall t | t in tasks && t != task :: t in u && u[t] == tasks[t];
    if t :| t in tasks && t != task && Remembers(tasks[t], id) { assert Remembers(u[t], id); }
    if t :| t in tasks && t != task && CandidateOf(tasks[t]) == Some(id) { assert CandidateOf(u[t]) == Some(id); }
    if Remembers(to, id) { assert Remembers(u[task], id); }
    if CandidateOf(to) == Some(id) { assert CandidateOf(u[task]) == Some(id); }
  }

  /** A candidate is up, its start's alone, and neither routed, retiring nor remembered. */
  lemma CandidateFacts(s: State, task: nat)
    requires Sound(s) && task in s.tasks && CandidateOf(s.tasks[task]).Some?
    ensures var c := CandidateOf(s.tasks[task]).value;
            && c in s.up && c !in s.retires && !Routed(s, c) && !OtherCandidate(s.tasks, task, c)
            && !Remembered(s.tasks, c) && c < s.next
  {
    hide RoutedUp, RetiringUp, Anchored;
    CandidateOfTask(s.tasks, task);
  }

  lemma NoCandidate(s: State, id: nat)
    requires Sound(s) && (Remembered(s.tasks, id) || Routed(s, id))
    ensures !Candidate(s.tasks, id)
  {
    hide RoutedUp, RetiringUp, Anchored, RunningOk;
  }

  /** What the lookup found is routed. */
  lemma FoundIsRouted(s: State)
    ensures var found := LastKnownGood(s, |s.versions|); found.Some? ==> Routed(s, found.value.service)
  {
    var found := LastKnownGood(s, |s.versions|);
    if found.Some? { assert Routes(s.records, found.value.kind, found.value.service); }
  }

  /** For every action: a service becomes an orphan in this very step exactly when the step leaks it. */
  lemma OrphanMade(s: State, a: Action, id: nat)
    requires Sound(s) && Enabled(s, a)
    ensures !Orphan(s, id) && Orphan(Effect(s, a), id) <==> Leaks(s, a, id)
  {
    hide Sound, Orphan, Leaks, Effect;
    if Swaps(a) {
      SwapMakes(s, a, id);
    } else if Private(a) {
      TaskMakes(s, a, id);
    } else {
      OtherMakes(s, a, id);
    }
  }

  lemma TaskMakes(s: State, a: Action, id: nat)
    requires Sound(s) && Enabled(s, a) && Private(a)
    ensures !Orphan(s, id) && Orphan(Effect(s, a), id) <==> Leaks(s, a, id)
  {
    hide Sound, LastKnownGood, Remembered, Candidate, OtherCandidate, Routed;
    var t := Effect(s, a);
    TaskView(s.tasks, a.task, t.tasks[a.task], id);
    RoutedFrame(s, t, id);
    if Remembered(s.tasks, id) { NoCandidate(s, id); }
    if a.Request? {
      FoundIsRouted(s);
    } else if CandidateOf(s.tasks[a.task]).Some? {
      CandidateFacts(s, a.task);
    } else if a.StartSucceeds? || a.StartRaises? {
      FreshIsNew(s);
    }
  }

  lemma RoutesIsRouted(s: State, k: nat, id: nat)
    requires Routes(s.records, k, id)
    ensures Routed(s, id)
  { }

  lemma RoutedFrame(s: State, t: State, id: nat)
    requires s.records == t.records
    ensures Routed(s, id) <==> Routed(t, id)
  { }

  lemma FreshIsNew(s: State)
    requires Sound(s)
    ensures s.next !in s.up && s.next !in s.retires && !Routed(s, s.next)
    ensures !Candidate(s.tasks, s.next) && !Remembered(s.tasks, s.next)
  {
    hide RetiringUp, Anchored, RunningOk;
  }

  lemma SwapMakes(s: State, a: Action, id: nat)
    requires Sound(s) && Enabled(s, a) && Swaps(a)
    ensures !Orphan(s, id) && Orphan(Effect(s, a), id) <==> Leaks(s, a, id)
  {
    hide Sound, Remembered, OtherRemembers, Candidate, OtherCandidate, Routed;
    TaskView(s.tasks, a.task, Done(true), id);
    CandidateFacts(s, a.task);
    RoutedAfter(s, a, id);
    if Routes(s.records, s.tasks[a.task].kind, id) { RoutesIsRouted(s, s.tasks[a.task].kind, id); }
    if Remembered(s.tasks, id) || Routed(s, id) { NoCandidate(s, id); }
  }

  lemma RoutedAfter(s: State, a: Action, id: nat)
    requires Sound(s) && Enabled(s, a) && Swaps(a)
    ensures var t, kind, c := Effect(s, a), s.tasks[a.task].kind, s.tasks[a.task].candidate;
            && (Routed(t, id) <==> id == c || (Routed(s, id) && !Routes(s.records, kind, id)))
            && (s.tasks[a.task].previous.Some? ==> s.tasks[a.task].previous.value.service != c)
  {
    var t, kind, c := Effect(s, a), s.tasks[a.task].kind, s.tasks[a.task].candidate;
    CandidateFacts(s, a.task);
    RoutesFrame(s.records, kind, Record(Some(c), Some(c)));
    assert t.records == s.records[kind := Record(Some(c), Some(c))];
    assert Routes(t.records, kind, c);
    if k: nat :| Routes(t.records, k, id) && k != kind {
      assert Routes(s.records, k, id);
    }
    if s.tasks[a.task].previous.Some? {
      assert Remembers(s.tasks[a.task], s.tasks[a.task].previous.value.service);
    }
  }

  lemma OtherMakes(s: State, a: Action, id: nat)
    requires Sound(s) && Enabled(s, a) && !Private(a) && !Swaps(a)
    ensures !Orphan(s, id) && Orphan(Effect(s, a), id) <==> Leaks(s, a, id)
  {
    hide Inv, Remembered, Candidate, Routed;
    RetiringIsOld(s);
    RoutedLater(s, a, id);
  }

  /** A checked pointer only loses the service it checked. */
  lemma RoutedLater(s: State, a: Action, id: nat)
    requires Sound(s) && Enabled(s, a) && !Private(a) && !Swaps(a)
    ensures Routed(Effect(s, a), id) <==> Routed(s, id) && (a.PointerChecked? ==> id != a.service)
  {
    var t := Effect(s, a);
    if a.PointerChecked? {
      var kind := s.retires[a.service].previous.kind;
      assert PreviousOk(s.records, s.tasks, s.next, s.retires[a.service].previous);
      RoutesFrame(s.records, kind, Record(None, None));
      if k: nat :| Routes(t.records, k, id) { assert Routes(s.records, k, id); }
      if k: nat :| Routes(s.records, k, id) && id != a.service { assert Routes(t.records, k, id); }
    } else {
      RoutedFrame(s, t, id);
    }
  }

  // ---------------------------------------------------------------- whole runs

  /** An orphan stays one: nothing routes to it, remembers it or stops it again. */
  lemma {:induction false} OrphanStays(s: State, actions: seq<Action>, id: nat)
    requires Sound(s) && Orphan(s, id)
    ensures Orphan(Exec(s, actions), id)
  {
    hide Sound, Orphan, Step;
    if actions != [] {
      RunSound(s, actions[..|actions| - 1]);
      OrphanStays(s, actions[..|actions| - 1], id);
      OrphanStep(Exec(s, actions[..|actions| - 1]), actions[|actions| - 1], id);
    }
  }

  lemma OrphanStep(s: State, a: Action, id: nat)
    requires Sound(s) && Orphan(s, id)
    ensures Orphan(Step(s, a), id)
  {
    hide Sound, Remembered, Candidate, OtherRemembers, OtherCandidate, Routed, LastKnownGood;
    if Enabled(s, a) {
      var t := Effect(s, a);
      if Private(a) || Swaps(a) {
        TaskView(s.tasks, a.task, t.tasks[a.task], id);
        if a.Request? { FoundIsRouted(s); RoutedFrame(s, t, id); }
        else if Swaps(a) { RoutedAfter(s, a, id); CandidateFacts(s, a.task); }
        else if a.StartSucceeds? || a.StartRaises? { FreshIsNew(s); RoutedFrame(s, t, id); }
        else { RoutedFrame(s, t, id); }
      } else {
        RoutedLater(s, a, id);
        RetiringRuntimes(s);
      }
    }
  }

  lemma RetiringRuntimes(s: State)
    requires Sound(s)
    ensures forall id | id in s.retires :: s.retires[id].previous.runtime == Some(id)
  { }

  ghost predicate LeaksAt(s: State, actions: seq<Action>, i: nat, id: nat)
    requires i < |actions|
  {
    Enabled(Exec(s, actions[..i]), actions[i]) && Leaks(Exec(s, actions[..i]), actions[i], id)
  }

  /** A run ends with this orphan exactly when one of its steps leaked it. */
  lemma {:induction false} OrphanIffLeaked(s: State, actions: seq<Action>, id: nat)
    requires Sound(s) && !Orphan(s, id)
    ensures Orphan(Exec(s, actions), id) <==> exists i: nat | i < |actions| :: LeaksAt(s, actions, i, id)
  {
    hide Sound, Orphan, Leaks, Enabled;
    if actions != [] {
      var n := |actions| - 1;
      var front, t, a := actions[..n], Exec(s, actions[..n]), actions[n];
      RunSound(s, front);
      OrphanIffLeaked(s, front, id);
      if Enabled(t, a) { OrphanMade(t, a, id); }
      if Orphan(t, id) { OrphanStep(t, a, id); }
      forall i: nat | i < n ensures LeaksAt(s, front, i, id) <==> LeaksAt(s, actions, i, id) {
        assert front[..i] == actions[..i];
      }
      if i: nat :| i < |front| && LeaksAt(s, front, i, id) { assert LeaksAt(s, actions, i, id); }
      if Orphan(Exec(s, actions), id) && !Orphan(t, id) { assert LeaksAt(s, actions, n, id); }
    }
  }
}
