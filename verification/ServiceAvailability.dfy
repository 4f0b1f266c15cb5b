/** What rolling replacement guarantees in every interleaving, and the handlers stretch by stretch. */
module ServiceAvailability {
  import opened Wrappers
  import opened ServiceReplacement

  function Lookup(s: State): Option<Previous> { LastKnownGood(s, |s.versions|) }

  lemma {:induction false} RunInv(s: State, actions: seq<Action>)
    requires Inv(s)
    ensures var t := Exec(s, actions); Inv(t) && t.versions == s.versions && (Anchored(s) ==> Anchored(t))
  {
    hide Inv, Anchored, Step;
    if actions != [] {
      RunInv(s, actions[..|actions| - 1]);
      StepInv(Exec(s, actions[..|actions| - 1]), actions[|actions| - 1]);
    }
  }

  /** The lookup finds a service exactly when some routed ready service with a running runtime is not
      about to be retired. */
  lemma LookupIffAnchored(s: State)
    requires Inv(s)
    ensures Lookup(s).Some? <==> Anchored(s)
  {
    if Lookup(s).Some? {
      var p := Lookup(s).value;
      assert Routes(s.records, p.kind, p.service);
      if p.service !in s.retires && p.service in s.up { assert Anchor(s, p.service); }
    }
    if Anchored(s) {
      var id :| Anchor(s, id);
      var k :| k in s.versions && Routes(s.records, k, id);
      var i :| 0 <= i < |s.versions| && s.versions[i] == k;
      assert Routes(s.records, s.versions[i], id);
    }
  }

  /** Once the lookup finds a ready service it finds one after any further steps, however starts, probes,
      swaps, drains and retirements interleave; and some routed ready service keeps its runtime. */
  lemma Availability(s: State, before: seq<Action>, after: seq<Action>)
    requires Init(s) && Lookup(Exec(s, before)).Some?
    ensures Lookup(Exec(Exec(s, before), after)).Some? && Anchored(Exec(Exec(s, before), after))
  {
    InitInv(s);
    RunInv(s, before);
    LookupIffAnchored(Exec(s, before));
    RunInv(Exec(s, before), after);
    LookupIffAnchored(Exec(Exec(s, before), after));
  }

  /** A successful swap makes the lookup succeed from then on, even where it never did before. */
  lemma PublishAnchors(s: State, before: seq<Action>, task: nat, after: seq<Action>)
    requires Init(s) && Enabled(Exec(s, before), Publish(task))
    ensures Lookup(Exec(Step(Exec(s, before), Publish(task)), after)).Some?
  {
    InitInv(s);
    RunInv(s, before);
    var t := Exec(s, before);
    PublishInv(t, Publish(task));
    RunInv(Step(t, Publish(task)), after);
    LookupIffAnchored(Exec(Step(t, Publish(task)), after));
  }

  // ---------------------------------------------------------------- failed candidates

  lemma {:induction false} LookupFrame(s: State, t: State, n: nat)
    requires s.versions == t.versions && s.records == t.records && n <= |s.versions|
    requires forall k: nat, id: nat | Routes(s.records, k, id) :: Ready(s.services, id) <==> Ready(t.services, id)
    ensures LastKnownGood(s, n) == LastKnownGood(t, n)
  {
    if n > 0 {
      var kind := s.versions[n - 1];
      if kind in s.records && s.records[kind].active.Some? {
        assert Routes(s.records, kind, s.records[kind].active.value);
      }
      LookupFrame(s, t, n - 1);
    }
  }

  /** Everything a start does before its swap, failures included, leaves the pointers and the answer of
      the lookup as they were. */
  lemma CandidateIsPrivate(s: State, a: Action)
    requires Inv(s) && Private(a)
    ensures Step(s, a).records == s.records && Lookup(Step(s, a)) == Lookup(s)
  {
    if Enabled(s, a) {
      var t := Effect(s, a);
      if a.ProbeSucceeds? || a.ProbeFails? || a.ProbeRaises? { CandidateApart(s, a.task); }
      LookupFrame(s, t, |s.versions|);
    }
  }

  lemma {:induction false} DoneStays(s: State, actions: seq<Action>, task: nat)
    requires task in s.tasks && s.tasks[task].Done?
    ensures task in Exec(s, actions).tasks && Exec(s, actions).tasks[task] == s.tasks[task]
  {
    hide Step;
    if actions != [] {
      DoneStays(s, actions[..|actions| - 1], task);
      DoneStep(Exec(s, actions[..|actions| - 1]), actions[|actions| - 1], task);
    }
  }

  lemma DoneStep(s: State, a: Action, task: nat)
    requires task in s.tasks && s.tasks[task].Done?
    ensures task in Step(s, a).tasks && Step(s, a).tasks[task] == s.tasks[task]
  {
    hide LastKnownGood;
  }

  /** Bookkeeping: a start that swapped stays recorded as published. */
  lemma {:induction false} FailedNeverPublished(s: State, before: seq<Action>, task: nat, after: seq<Action>)
    requires Enabled(Exec(s, before), Publish(task))
    ensures var t := Exec(Step(Exec(s, before), Publish(task)), after);
            task in t.tasks && t.tasks[task] == Done(true)
  {
    DoneStays(Step(Exec(s, before), Publish(task)), after, task);
  }

  // ---------------------------------------------------------------- retirement

  /** Retiring a drained service touches only a pointer that still leads to it, and leaves none behind. */
  lemma RetireSparesNewer(s: State, service: nat)
    requires Inv(s) && Enabled(s, PointerChecked(service))
    ensures var t := Effect(s, PointerChecked(service));
            && t.records.Keys == s.records.Keys
            && (forall k: nat | k in s.records && t.records[k] != s.records[k] :: s.records[k].active == Some(service))
            && (forall k: nat :: !Routes(t.records, k, service))
            && Lookup(t).Some?
  {
    var t := Effect(s, PointerChecked(service));
    assert PreviousOk(s.records, s.tasks, s.next, s.retires[service].previous);
    forall k: nat ensures !Routes(t.records, k, service) {
      assert Routes(t.records, k, service) ==> Routes(s.records, k, service);
    }
    PointerCheckedInv(s, service);
    LookupIffAnchored(t);
  }

  /** No step takes the lookup's answer away. */
  lemma StepKeepsLookup(s: State, a: Action)
    requires Inv(s)
    ensures Inv(Step(s, a)) && (Lookup(s).Some? ==> Lookup(Step(s, a)).Some?)
  {
    hide Inv, Step, Anchored;
    StepInv(s, a);
    LookupIffAnchored(s);
    LookupIffAnchored(Step(s, a));
  }

  // ---------------------------------------------------------------- the handlers

  /** Where the stretch of the swap can raise: at the pointer's store call, at the status call of the
      previous service, or when its drain is registered. */
  datatype SwapPoint = BeforePointer | AfterPointer | AfterStatus

  function SwapAction(task: nat, cut: Option<SwapPoint>): Action {
    match cut
    case None => Publish(task)
    case Some(BeforePointer) => SwapFails(task)
    case Some(AfterPointer) => SwapCut(task, false)
    case Some(AfterStatus) => SwapCut(task, true)
  }

  class RepositoryServices {
    const versions: seq<nat>
    var records: map<nat, Record>
    var services: map<nat, Service>
    var up: set<nat>
    var tasks: map<nat, Task>
    var retires: map<nat, Retire>
    var next: nat

    function Now(): State
      reads this
    {
      State(versions, records, services, up, tasks, retires, next)
    }

    ghost predicate Valid()
      reads this
    {
      Inv(Now())
    }

    constructor (versions: seq<nat>, records: map<nat, Record>, services: map<nat, Service>, up: set<nat>, next: nat)
      requires Init(State(versions, records, services, up, map[], map[], next))
      ensures Valid() && Now() == State(versions, records, services, up, map[], map[], next)
    {
      this.versions, this.records, this.services, this.up := versions, records, services, up;
      tasks, retires, this.next := map[], map[], next;
      new;
      InitInv(Now());
    }

    /** The search through the published versions, newest first. */
    method LastKnownGoodRepositoryService() returns (found: Option<Previous>)
      ensures found == Lookup(Now())
    {
      var i := |versions|;
      while i > 0
        invariant 0 <= i <= |versions|
        invariant LastKnownGood(Now(), |versions|) == LastKnownGood(Now(), i)
      {
        i := i - 1;
        var kind := versions[i];
        if kind in records && records[kind].active.Some? {
          var id := records[kind].active.value;
          if Ready(services, id) {
            return Some(Previous(kind, id, records[kind].runtime));
          }
        }
      }
      return None;
    }

    /** From the request to the first await: resolve the record, remember the last known good service. */
    method BeginStart(task: nat, kind: nat)
      requires Valid() && Enabled(Now(), Request(task, kind))
      modifies this`tasks
      ensures Valid() && (old(Lookup(Now())).Some? ==> Lookup(Now()).Some?)
      ensures Now() == Step(old(Now()), Request(task, kind))
    {
      hide Inv, LastKnownGood;
      StepKeepsLookup(Now(), Request(task, kind));
      var previous := LastKnownGoodRepositoryService();
      tasks := tasks[task := Starting(kind, previous)];
    }

    /** manager.start raised, leaving its runtime up or not, or returned and the candidate's row is saved as
        registered; a save that raises leaves the runtime as well. */
    method ManagerStarted(task: nat, ok: bool, leaves: bool)
      requires Valid() && Enabled(Now(), StartFails(task))
      modifies this`services, this`up, this`tasks, this`next
      ensures Valid() && (old(Lookup(Now())).Some? ==> Lookup(Now()).Some?)
      ensures Now() == Step(old(Now()), if ok then StartSucceeds(task)
                                        else if leaves then StartRaises(task) else StartFails(task))
      ensures if ok then tasks[task].Probing? && tasks[task].candidate in up && !Ready(services, tasks[task].candidate)
              else tasks[task] == Done(false) && services == old(services) && (!leaves ==> up == old(up))
    {
      hide Inv, LastKnownGood;
      ghost var failure := if leaves then StartRaises(task) else StartFails(task);
      StepKeepsLookup(Now(), if ok then StartSucceeds(task) else failure);
      if !ok {
        if leaves { up, next := up + {next}, next + 1; }
        tasks := tasks[task := Done(false)];
        return;
      }
      var t := tasks[task];
      services, up := services[next := Service(Registered, false)], up + {next};
      tasks := tasks[task := Probing(t.kind, t.previous, next)];
      next := next + 1;
    }

    /** The probe persists its result; a failed one sends the candidate to be stopped, any other exception,
        before or after the result was stored, ends the request. */
    method ProbeReturned(task: nat, raises: bool, stored: bool, statusCode: Option<int>)
      requires Valid() && Enabled(Now(), ProbeFails(task))
      modifies this`services, this`tasks
      ensures Valid() && (old(Lookup(Now())).Some? ==> Lookup(Now()).Some?)
      ensures var good := statusCode.Some? && 200 <= statusCode.value < 300;
              var row := Service(if good then Running else Failed, good);
              Now() == Step(old(Now()), if raises then ProbeRaises(task, if stored then Some(row) else None)
                                        else if good then ProbeSucceeds(task) else ProbeFails(task))
      ensures var good := statusCode.Some? && 200 <= statusCode.value < 300;
              var c := old(tasks)[task].candidate;
              && (raises && !stored ==> services == old(services))
              && (!raises || stored ==>
                    services.Keys == old(services).Keys && (Ready(services, c) <==> good)
                    && (!good ==> services[c] == Service(Failed, false)))
              && if raises then tasks[task] == Done(false)
                 else if good then tasks[task].Probed? else tasks[task].Rejected?
    {
      hide Inv, LastKnownGood;
      var good := statusCode.Some? && 200 <= statusCode.value < 300;
      var row := Service(if good then Running else Failed, good);
      StepKeepsLookup(Now(), if raises then ProbeRaises(task, if stored then Some(row) else None)
                             else if good then ProbeSucceeds(task) else ProbeFails(task));
      var t := tasks[task];
      if raises {
        if stored { services := services[t.candidate := row]; }
        tasks := tasks[task := Done(false)];
      } else if statusCode.Some? && 200 <= statusCode.value < 300 {
        services := services[t.candidate := Service(Running, true)];
        tasks := tasks[task := Probed(t.kind, t.previous, t.candidate)];
      } else {
        services := services[t.candidate := Service(Failed, false)];
        tasks := tasks[task := Rejected(t.candidate)];
      }
    }

    /** stop_by_backend for a rejected candidate returned or raised; either way the request ends. */
    method CandidateStopReturned(task: nat, ok: bool)
      requires Valid() && Enabled(Now(), CandidateStopped(task))
      modifies this`up, this`tasks
      ensures Valid() && (old(Lookup(Now())).Some? ==> Lookup(Now()).Some?)
      ensures Now() == Step(old(Now()), if ok then CandidateStopped(task) else CandidateStopFails(task))
      ensures tasks[task] == Done(false) && (ok ==> old(tasks)[task].candidate !in up)
    {
      hide Inv, LastKnownGood;
      StepKeepsLookup(Now(), if ok then CandidateStopped(task) else CandidateStopFails(task));
      if ok {
        up := up - {tasks[task].candidate};
      }
      tasks := tasks[task := Done(false)];
    }

    /** The swap: point the record at the candidate, stop the previous service's row, register its drain.
        A store call or an await that raises ends the request at that point. */
    method PublishCandidate(task: nat, cut: Option<SwapPoint>)
      requires Valid() && Enabled(Now(), Publish(task))
      modifies this`records, this`services, this`tasks, this`retires
      ensures Valid() && (old(Lookup(Now())).Some? ==> Lookup(Now()).Some?)
      ensures Now() == Step(old(Now()), SwapAction(task, cut))
    {
      hide Inv, LastKnownGood;
      StepKeepsLookup(Now(), SwapAction(task, cut));
      var t := tasks[task];
      if cut == Some(BeforePointer) {
        tasks := tasks[task := Done(false)];
        return;
      }
      records := records[t.kind := Record(Some(t.candidate), Some(t.candidate))];
      tasks := tasks[task := Done(true)];
      if cut == Some(AfterPointer) || t.previous.None? || t.previous.value.service == t.candidate { return; }
      var p := t.previous.value;
      if p.service in services {
        services := services[p.service := Service(Stopped, false)];
      }
      if cut == Some(AfterStatus) { return; }
      if p.service !in retires {
        retires := retires[p.service := Retire(p, false)];
      }
    }

    /** The drain callback's call to stop_by_backend returned, or raised and ended the callback. */
    method RuntimeStopReturned(service: nat, ok: bool)
      requires Valid() && Enabled(Now(), RuntimeStopped(service))
      modifies this`up, this`retires
      ensures Valid() && (old(Lookup(Now())).Some? ==> Lookup(Now()).Some?)
      ensures Now() == Step(old(Now()), if ok then RuntimeStopped(service) else RetireFails(service))
      ensures service in retires <==> ok
    {
      hide Inv, LastKnownGood;
      StepKeepsLookup(Now(), if ok then RuntimeStopped(service) else RetireFails(service));
      if !ok {
        retires := retires - {service};
        return;
      }
      var r := retires[service];
      if r.previous.runtime.Some? {
        up := up - {r.previous.runtime.value};
      }
      retires := retires[service := r.(runtimeStopped := true)];
    }

    /** The end of the drain callback: clear the pointer only if it still names the drained service; a store
        call that raises ends the callback before. */
    method ClearPointer(service: nat, ok: bool)
      requires Valid() && Enabled(Now(), PointerChecked(service))
      modifies this`records, this`retires
      ensures Valid() && (old(Lookup(Now())).Some? ==> Lookup(Now()).Some?)
      ensures Now() == Step(old(Now()), if ok then PointerChecked(service) else PointerCheckFails(service))
      ensures service !in retires && (ok ==> forall kind: nat :: !Routes(records, kind, service))
    {
      hide Inv, LastKnownGood;
      StepKeepsLookup(Now(), if ok then PointerChecked(service) else PointerCheckFails(service));
      RetireSparesNewer(Now(), service);
      var kind := retires[service].previous.kind;
      if ok && kind in records && records[kind].active == Some(service) {
        records := records[kind := Record(None, None)];
      }
      retires := retires - {service};
    }
  }
}
