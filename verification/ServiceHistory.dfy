/** What the rows, pointers and tasks of a state say about the run that led to it. */
module ServiceHistory {
  import opened Wrappers
  import opened ServiceReplacement
  import opened ServiceAvailability

  // ---------------------------------------------------------------- rows

  /** This action stores a successful probe of the service. */
  ghost predicate Proves(s: State, a: Action, id: nat)
    requires Enabled(s, a)
  {
    match a
    case ProbeSucceeds(task) => s.tasks[task].candidate == id
    case ProbeRaises(task, Some(row)) => s.tasks[task].candidate == id && row.proven
    case Reprobed(service) => service == id
    case _ => false
  }

  /** This action stores a failed probe of the service. */
  ghost predicate Disproves(s: State, a: Action, id: nat)
    requires Enabled(s, a)
  {
    match a
    case ProbeFails(task) => s.tasks[task].candidate == id
    case ProbeRaises(task, Some(row)) => s.tasks[task].candidate == id && !row.proven
    case _ => false
  }

  /** A swap marks the service it replaces. */
  ghost predicate Replaces(s: State, a: Action, id: nat)
    requires Enabled(s, a)
  {
    && (a.Publish? || (a.SwapCut? && a.marked)) && id in s.services
    && PreviousOf(s.tasks[a.task]).Some? && PreviousOf(s.tasks[a.task]).value.service == id
  }

  ghost predicate Registers(s: State, a: Action, id: nat) { a.StartSucceeds? && id == s.next }

  ghost predicate Purges(s: State, a: Action, id: nat) { a.Purge? && id in a.gone }

  /** Who writes a row and what it then says; every other row stays. */
  lemma RowAfter(s: State, a: Action, id: nat)
    requires Inv(s) && Enabled(s, a)
    ensures var t := Effect(s, a);
            if Proves(s, a, id) then Ready(t.services, id)
            else if Disproves(s, a, id) then id in t.services && t.services[id] == Service(Failed, false)
            else if Replaces(s, a, id) then id in t.services && t.services[id] == Service(Stopped, false)
            else if Registers(s, a, id) then id in t.services && t.services[id] == Service(Registered, false)
            else if Purges(s, a, id) then id !in t.services
            else (id in t.services <==> id in s.services) && (id in s.services ==> t.services[id] == s.services[id])
  {
    hide Inv, LastKnownGood;
    if Swaps(a) { SwapsToReady(s, a); }
  }

  /** A row is ready after a step exactly when the step proves it, or it was ready and the step neither
      disproves nor replaces it. */
  lemma ReadyAfter(s: State, a: Action, id: nat)
    requires Inv(s) && Enabled(s, a)
    ensures Ready(Effect(s, a).services, id) <==>
              Proves(s, a, id) || (Ready(s.services, id) && !Disproves(s, a, id) && !Replaces(s, a, id))
  {
    hide Inv, Proves, Disproves, Replaces, Effect;
    RowAfter(s, a, id);
    FreshHasNoRow(s);
  }

  lemma FreshHasNoRow(s: State)
    requires Inv(s)
    ensures s.next !in s.services
  { }

  // ---------------------------------------------------------------- pointers

  /** Who writes a pointer and where it then leads; every other pointer stays. */
  lemma PointerAfter(s: State, a: Action, kind: nat)
    requires Inv(s) && Enabled(s, a)
    ensures var t := Effect(s, a);
            && (kind in t.records <==> kind in s.records)
            && if Swaps(a) && kind == s.tasks[a.task].kind then
                 Routes(t.records, kind, s.tasks[a.task].candidate)
                 && t.records[kind].runtime == Some(s.tasks[a.task].candidate)
               else if a.PointerChecked? && Routes(s.records, kind, a.service) then
                 t.records[kind].active == None && t.records[kind].runtime == None
               else kind in s.records ==> t.records[kind] == s.records[kind]
  {
    hide LastKnownGood, RoutedUp, RetiringUp, Anchored, PreviousesOk, CandidatesOk, RunningOk, RecordsOk;
    if a.PointerChecked? {
      assert PreviousOk(s.records, s.tasks, s.next, s.retires[a.service].previous);
    }
  }

  // ---------------------------------------------------------------- drains and runtimes

  /** A swap registers the drain of the service it replaces, unless one is pending, which then stays; the
      drain is over when its callback has ended. */
  lemma DrainAfter(s: State, a: Action, id: nat)
    requires Inv(s) && Enabled(s, a)
    ensures var t := Effect(s, a);
            if a.Publish? && PreviousOf(s.tasks[a.task]).Some? && PreviousOf(s.tasks[a.task]).value.service == id then
              && id in t.retires
              && t.retires[id] == if id in s.retires then s.retires[id]
                                  else Retire(PreviousOf(s.tasks[a.task]).value, false)
            else if a.RuntimeStopped? && a.service == id then
              id in t.retires && t.retires[id].runtimeStopped && t.retires[id].previous == s.retires[id].previous
            else if (a.RetireFails? || a.PointerCheckFails? || a.PointerChecked?) && a.service == id then
              id !in t.retires
            else
              (id in t.retires <==> id in s.retires) && (id in s.retires ==> t.retires[id] == s.retires[id])
  {
    hide Inv, LastKnownGood;
    if Swaps(a) { SwapsToReady(s, a); }
  }

  /** A runtime comes up only in a start, under the next id, and goes down only when a rejected candidate or
      a drained service is stopped. */
  lemma RuntimeAfter(s: State, a: Action, id: nat)
    requires Enabled(s, a)
    ensures var t := Effect(s, a);
            id in t.up <==>
              || ((a.StartSucceeds? || a.StartRaises?) && id == s.next)
              || (id in s.up
                  && !(a.CandidateStopped? && s.tasks[a.task].candidate == id)
                  && !(a.RuntimeStopped? && s.retires[a.service].previous.runtime == Some(id)))
  {
    hide LastKnownGood;
  }

  // ---------------------------------------------------------------- runs

  ghost predicate ProvesAt(s: State, actions: seq<Action>, i: nat, id: nat)
    requires i < |actions|
  {
    Enabled(Exec(s, actions[..i]), actions[i]) && Proves(Exec(s, actions[..i]), actions[i], id)
  }

  ghost predicate WasProved(s: State, actions: seq<Action>, id: nat) {
    exists i: nat | i < |actions| :: ProvesAt(s, actions, i, id)
  }

  lemma ProvedOn(s: State, front: seq<Action>, a: Action, id: nat)
    ensures WasProved(s, front, id) ==> WasProved(s, front + [a], id)
    ensures Enabled(Exec(s, front), a) && Proves(Exec(s, front), a, id) ==> WasProved(s, front + [a], id)
  {
    var actions := front + [a];
    forall i: nat | i <= |front| ensures actions[..i] == front[..i] { }
    assert front[..|front|] == front;
    if i: nat :| i < |front| && ProvesAt(s, front, i, id) { assert ProvesAt(s, actions, i, id); }
    if Enabled(Exec(s, front), a) && Proves(Exec(s, front), a, id) { assert ProvesAt(s, actions, |front|, id); }
  }

  /** A service that came up in this run is ready only after a successful probe of it. */
  lemma {:induction false} ReadyWasProved(s: State, actions: seq<Action>, id: nat)
    requires Inv(s) && !Ready(s.services, id) && Ready(Exec(s, actions).services, id)
    ensures WasProved(s, actions, id)
  {
    hide Inv, Enabled, Effect, Proves, WasProved;
    var n := |actions| - 1;
    var front, a := actions[..n], actions[n];
    assert actions == front + [a];
    ProvedOn(s, front, a, id);
    RunInv(s, front);
    if Enabled(Exec(s, front), a) { ReadyAfter(Exec(s, front), a, id); }
    if Ready(Exec(s, front).services, id) { ReadyWasProved(s, front, id); }
  }

  /** No pointer is ever swapped to a service without one. */
  lemma {:induction false} RoutedWasProved(s: State, actions: seq<Action>, kind: nat, id: nat)
    requires Inv(s) && !Ready(s.services, id) && !Routes(s.records, kind, id)
    requires Routes(Exec(s, actions).records, kind, id)
    ensures WasProved(s, actions, id)
  {
    hide Inv, Enabled, WasProved;
    var n := |actions| - 1;
    var front, a := actions[..n], actions[n];
    assert actions == front + [a];
    ProvedOn(s, front, a, id);
    RunInv(s, front);
    var t := Exec(s, front);
    if Routes(t.records, kind, id) {
      RoutedWasProved(s, front, kind, id);
    } else {
      assert Enabled(t, a);
      PointerAfter(t, a, kind);
      SwapsToReady(t, a);
      ReadyWasProved(s, front, id);
    }
  }

  lemma SwapsToReady(s: State, a: Action)
    requires Inv(s) && Enabled(s, a) && Swaps(a)
    ensures Ready(s.services, s.tasks[a.task].candidate)
    ensures s.tasks[a.task].previous.Some? ==> s.tasks[a.task].previous.value.service != s.tasks[a.task].candidate
  {
    CandidateIsReady(s, a);
  }

  // ---------------------------------------------------------------- tasks

  ghost predicate SwappedAt(s: State, actions: seq<Action>, i: nat, task: nat)
    requires i < |actions|
  {
    Enabled(Exec(s, actions[..i]), actions[i]) && Swaps(actions[i]) && actions[i].task == task
  }

  /** A start is recorded as published exactly when it moved its pointer. */
  lemma {:induction false} PublishedIffSwapped(s: State, actions: seq<Action>, task: nat)
    requires task !in s.tasks
    ensures task in Exec(s, actions).tasks && Exec(s, actions).tasks[task] == Done(true)
            <==> exists i: nat | i < |actions| :: SwappedAt(s, actions, i, task)
  {
    hide Enabled, Effect;
    if actions != [] {
      var n := |actions| - 1;
      var front, a := actions[..n], actions[n];
      var t := Exec(s, front);
      PublishedIffSwapped(s, front, task);
      forall i: nat | i < n ensures SwappedAt(s, front, i, task) <==> SwappedAt(s, actions, i, task) {
        assert front[..i] == actions[..i];
      }
      if i: nat :| i < |front| && SwappedAt(s, front, i, task) { assert SwappedAt(s, actions, i, task); }
      if Enabled(t, a) { DoneAfter(t, a, task); }
      assert SwappedAt(s, actions, n, task) <==> Enabled(t, a) && Swaps(a) && a.task == task;
    }
  }

  lemma DoneAfter(s: State, a: Action, task: nat)
    requires Enabled(s, a)
    ensures var t := Effect(s, a);
            task in t.tasks && t.tasks[task] == Done(true)
            <==> (task in s.tasks && s.tasks[task] == Done(true)) || (Swaps(a) && a.task == task)
  {
    hide LastKnownGood;
  }

  function KindOf(t: Task): Option<nat> {
    if t.Starting? || t.Probing? || t.Probed? then Some(t.kind) else None
  }

  ghost predicate AskedAt(s: State, actions: seq<Action>, i: nat, task: nat, kind: nat, previous: Option<Previous>)
    requires i < |actions|
  {
    var t := Exec(s, actions[..i]);
    Enabled(t, actions[i]) && actions[i] == Request(task, kind) && Lookup(t) == previous
  }

  /** Up to its swap a start keeps the kind it was asked for and what the lookup answered then. */
  lemma {:induction false} KeepsItsRequest(s: State, actions: seq<Action>, task: nat)
    requires task !in s.tasks && task in Exec(s, actions).tasks && KindOf(Exec(s, actions).tasks[task]).Some?
    ensures var t := Exec(s, actions).tasks[task];
            exists i: nat | i < |actions| :: AskedAt(s, actions, i, task, t.kind, t.previous)
  {
    hide Enabled, Effect, LastKnownGood;
    var n := |actions| - 1;
    var front, a := actions[..n], actions[n];
    var t, u := Exec(s, front), Exec(s, actions);
    if Enabled(t, a) { RequestAfter(t, a, task); }
    if Enabled(t, a) && a.Request? && a.task == task {
      assert AskedAt(s, actions, n, task, u.tasks[task].kind, u.tasks[task].previous);
    } else {
      KeepsItsRequest(s, front, task);
      var i: nat :| i < |front| && AskedAt(s, front, i, task, t.tasks[task].kind, t.tasks[task].previous);
      assert front[..i] == actions[..i];
      assert AskedAt(s, actions, i, task, u.tasks[task].kind, u.tasks[task].previous);
    }
  }

  lemma RequestAfter(s: State, a: Action, task: nat)
    requires Enabled(s, a)
    ensures var t := Effect(s, a);
            task in t.tasks && KindOf(t.tasks[task]).Some? ==>
              if a.Request? && a.task == task then t.tasks[task] == Starting(a.kind, Lookup(s))
              else
                && task in s.tasks && KindOf(s.tasks[task]) == KindOf(t.tasks[task])
                && PreviousOf(s.tasks[task]) == PreviousOf(t.tasks[task])
  {
    hide LastKnownGood;
  }
}
