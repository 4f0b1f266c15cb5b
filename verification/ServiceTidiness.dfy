/** Runs that leave no runtime behind, and runs that do. */
module ServiceTidiness {
  import opened Wrappers
  import opened ServiceReplacement
  import opened ServiceAvailability
  import opened ServiceLeaks

  /** Up, not draining and not a candidate: the entry's one live service. */
  ghost predicate Current(s: State, id: nat) {
    id in s.up && id !in s.retires && !Candidate(s.tasks, id)
  }

  ghost predicate Published(s: State, id: nat) { exists k | k in s.versions :: Routes(s.records, k, id) }

  /** At most one start is under way and at most one service current; that one is ready, published and
      remembered by the start; nothing that drains is ready. */
  ghost predicate Tidy(s: State) {
    && (forall t, u | t in s.tasks && u in s.tasks && !s.tasks[t].Done? && !s.tasks[u].Done? :: t == u)
    && (forall id: nat | Current(s, id) :: Ready(s.services, id) && Published(s, id))
    && (forall i: nat, j: nat | Current(s, i) && Current(s, j) :: i == j)
    && (forall id | id in s.retires :: !Ready(s.services, id))
    && (forall t, id: nat | t in s.tasks && Undecided(s.tasks[t]) && Current(s, id) :: Remembers(s.tasks[t], id))
    && RoutedUp(s.records, s.services, s.up, s.retires)
  }

  predicate Undecided(t: Task) { t.Starting? || t.Probing? || t.Probed? }

  /** No start overlaps another, no request raises once its runtime is up, no drain's stop raises, and
      nobody probes a service that drains. */
  ghost predicate Orderly(s: State, a: Action) {
    && (a.Request? ==> forall t | t in s.tasks :: s.tasks[t].Done?)
    && !a.StartRaises? && !a.ProbeRaises? && !a.CandidateStopFails? && !a.SwapFails? && !a.SwapCut?
    && !a.RetireFails?
    && (a.Reprobed? ==> a.service !in s.retires)
  }

  ghost predicate OrderlyRun(s: State, actions: seq<Action>) {
    actions == [] ||
    (OrderlyRun(s, actions[..|actions| - 1]) && Orderly(Exec(s, actions[..|actions| - 1]), actions[|actions| - 1]))
  }

  /** To begin with at most one runtime is up, and it belongs to a ready published service. */
  ghost predicate TidyInit(s: State) {
    && Init(s) && (forall id | id in s.up :: Ready(s.services, id) && Published(s, id))
    && forall i, j | i in s.up && j in s.up :: i == j
  }

  // ---------------------------------------------------------------- one orderly step

  lemma TidyRouted(s: State, a: Action)
    requires Sound(s) && Tidy(s) && Enabled(s, a)
    ensures var t := Effect(s, a); RoutedUp(t.records, t.services, t.up, t.retires)
  {
    hide Core, RuntimesOk, RoutedUp, Effect;
    RoutedUpStep(s, a);
  }

  /** A start moves on without a swap. */
  lemma TaskTidy(s: State, a: Action)
    requires Sound(s) && Tidy(s) && Enabled(s, a) && Private(a) && Orderly(s, a) && !a.Request?
    ensures Tidy(Effect(s, a))
  {
    hide Sound, Candidate, OtherCandidate, Remembered, OtherRemembers, LastKnownGood, Published, RoutedUp;
    var t := Effect(s, a);
    TidyRouted(s, a);
    if a.StartSucceeds? { FreshIsNew(s); }
    else if CandidateOf(s.tasks[a.task]).Some? { CandidateFacts(s, a.task); CandidateOfTask(s.tasks, a.task); }
    forall id: nat ensures Current(t, id) ==> Current(s, id) && (Published(s, id) <==> Published(t, id)) {
      TaskView(s.tasks, a.task, t.tasks[a.task], id);
      PublishedFrame(s, t, id);
    }
  }

  lemma PublishedFrame(s: State, t: State, id: nat)
    requires s.records == t.records && s.versions == t.versions
    ensures Published(s, id) <==> Published(t, id)
  { }

  lemma RequestTidy(s: State, task: nat, kind: nat)
    requires Sound(s) && Tidy(s) && Enabled(s, Request(task, kind)) && Orderly(s, Request(task, kind))
    ensures Tidy(Effect(s, Request(task, kind)))
  {
    var a := Request(task, kind);
    var t := Effect(s, a);
    TidyRouted(s, a);
    hide Sound, Candidate, OtherCandidate, Remembered, OtherRemembers, LastKnownGood, Published, RoutedUp;
    forall id: nat ensures (Current(t, id) <==> Current(s, id)) && (Published(s, id) <==> Published(t, id)) {
      TaskView(s.tasks, task, t.tasks[task], id);
      PublishedFrame(s, t, id);
    }
    forall id: nat | Current(s, id) ensures Remembers(t.tasks[task], id) { CurrentIsFound(s, id); }
  }

  /** The lookup finds the current service, and nothing else. */
  lemma CurrentIsFound(s: State, id: nat)
    requires Sound(s) && Tidy(s) && Current(s, id)
    ensures var found := LastKnownGood(s, |s.versions|); found.Some? && found.value.service == id
  {
    hide RunningOk, PreviousesOk, RetiresOk, RetiringUp, RuntimesOk, Remembered;
    var k :| k in s.versions && Routes(s.records, k, id);
    assert Anchor(s, id);
    LookupIffAnchored(s);
    var found := LastKnownGood(s, |s.versions|).value;
    assert Routes(s.records, found.kind, found.service);
    assert Current(s, found.service);
  }

  lemma PublishTidy(s: State, task: nat)
    requires Sound(s) && Tidy(s) && Enabled(s, Publish(task))
    ensures Tidy(Effect(s, Publish(task)))
  {
    hide Sound, Candidate, OtherCandidate, Remembered, OtherRemembers, Published, RoutedUp;
    var t, c := Effect(s, Publish(task)), s.tasks[task].candidate;
    TidyRouted(s, Publish(task));
    CandidateFacts(s, task);
    CandidateReady(s, task);
    forall id: nat | Current(t, id) ensures id == c {
      TaskView(s.tasks, task, Done(true), id);
      assert id != c ==> Current(s, id);
    }
    CandidatePublished(s, task);
  }

  lemma CandidateReady(s: State, task: nat)
    requires Sound(s) && Enabled(s, Publish(task))
    ensures Ready(s.services, s.tasks[task].candidate) && s.tasks[task].kind in s.versions
  { }

  lemma CandidatePublished(s: State, task: nat)
    requires Sound(s) && Enabled(s, Publish(task))
    ensures Published(Effect(s, Publish(task)), s.tasks[task].candidate)
  {
    CandidateReady(s, task);
    assert Routes(Effect(s, Publish(task)).records, s.tasks[task].kind, s.tasks[task].candidate);
  }

  lemma OtherTidy(s: State, a: Action)
    requires Sound(s) && Tidy(s) && Enabled(s, a) && !Private(a) && !Swaps(a) && Orderly(s, a)
    ensures Tidy(Effect(s, a))
  {
    TidyRouted(s, a);
    hide Inv, Candidate, Published, RoutedUp;
    var t := Effect(s, a);
    forall id: nat | Current(t, id) ensures Current(s, id) && Published(t, id) {
      if a.PointerChecked? { assert id != a.service; }
      PublishedLater(s, a, id);
    }
  }

  lemma PublishedLater(s: State, a: Action, id: nat)
    requires Sound(s) && Enabled(s, a) && !Private(a) && !Swaps(a) && Published(s, id)
    requires a.PointerChecked? ==> id != a.service
    ensures Published(Effect(s, a), id)
  {
    var k :| k in s.versions && Routes(s.records, k, id);
    var t := Effect(s, a);
    if a.PointerChecked? {
      RoutesFrame(s.records, s.retires[a.service].previous.kind, Record(None, None));
    }
    assert Routes(t.records, k, id);
  }

  lemma TidyStep(s: State, a: Action)
    requires Sound(s) && Tidy(s) && (Enabled(s, a) ==> Orderly(s, a))
    ensures Tidy(Step(s, a))
  {
    hide Sound, Tidy, Effect;
    if Enabled(s, a) {
      if a.Request? { RequestTidy(s, a.task, a.kind); }
      else if a.Publish? { PublishTidy(s, a.task); }
      else if Private(a) { TaskTidy(s, a); }
      else { OtherTidy(s, a); }
    }
  }

  lemma {:induction false} OrderlyIsTidy(s: State, actions: seq<Action>)
    requires Sound(s) && Tidy(s) && OrderlyRun(s, actions)
    ensures Tidy(Exec(s, actions))
  {
    hide Sound, Tidy, Step, Orderly;
    if actions != [] {
      OrderlyIsTidy(s, actions[..|actions| - 1]);
      RunSound(s, actions[..|actions| - 1]);
      TidyStep(Exec(s, actions[..|actions| - 1]), actions[|actions| - 1]);
    }
  }

  /** A run whose starts do not overlap, none of whose requests raises once its runtime is up, whose drains
      can stop their services and in which nobody probes a draining one leaves no runtime behind. */
  lemma NoOrphans(s: State, actions: seq<Action>, id: nat)
    requires TidyInit(s) && OrderlyRun(s, actions)
    ensures !Orphan(Exec(s, actions), id)
  {
    InitSound(s);
    assert Tidy(s);
    OrderlyIsTidy(s, actions);
    var t := Exec(s, actions);
    assert Orphan(t, id) ==> Current(t, id);
    assert Published(t, id) ==> Routed(t, id);
  }
}
