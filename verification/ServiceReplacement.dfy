/** Rolling replacement of a published repository service, started concurrently with itself.
    Every stretch between two awaits is one step; steps of different requests interleave freely. */
module ServiceReplacement {
  import opened Wrappers

  datatype Status = Registered | Running | Failed | Stopped

  /** A long-service row; proven says that its last persisted probe carries a 2xx status code. */
  datatype Service = Service(status: Status, proven: bool)

  /** A notebook-service row: the routing pointer and the runtime recorded with it. Every service has its
      own runtime, named after it. */
  datatype Record = Record(active: Option<nat>, runtime: Option<nat>)

  /** What a start request read as last known good: the kind, its record's runtime and the service. */
  datatype Previous = Previous(kind: nat, service: nat, runtime: Option<nat>)

  datatype Task =
    | Starting(kind: nat, previous: Option<Previous>)                  // awaiting manager.start
    | Probing(kind: nat, previous: Option<Previous>, candidate: nat)   // row saved, probe running
    | Probed(kind: nat, previous: Option<Previous>, candidate: nat)    // probe result persisted as ready
    | Rejected(candidate: nat)                                         // readiness failed, stop pending
    | Done(published: bool)

  /** A registered drain callback, before and after it has stopped the runtime. */
  datatype Retire = Retire(previous: Previous, runtimeStopped: bool)

  datatype State = State(
    versions: seq<nat>,           // kinds of the published versions, oldest first
    records: map<nat, Record>,
    services: map<nat, Service>,
    up: set<nat>,                 // services whose runtime is running
    tasks: map<nat, Task>,
    retires: map<nat, Retire>,    // keyed by the draining service
    next: nat)                    // every service id in use lies below

  predicate Ready(services: map<nat, Service>, id: nat) {
    id in services && services[id] == Service(Running, true)
  }

  predicate Routes(records: map<nat, Record>, kind: nat, id: nat) {
    kind in records && records[kind].active == Some(id)
  }

  /** No pointer of these versions leads to a ready service. */
  predicate NoneReady(s: State, lo: nat, hi: nat)
    requires hi <= |s.versions|
  {
    forall i | lo <= i < hi ::
      var kind := s.versions[i];
      kind in s.records && s.records[kind].active.Some? ==> !Ready(s.services, s.records[kind].active.value)
  }

  /** The newest of the first n versions whose pointer leads to a ready service. */
  function LastKnownGood(s: State, n: nat): (found: Option<Previous>)
    requires n <= |s.versions|
    ensures found.Some? ==>
              var p := found.value;
              p.kind in s.versions && Routes(s.records, p.kind, p.service) && Ready(s.services, p.service)
              && p.runtime == s.records[p.kind].runtime
    ensures found.Some? ==> exists i | 0 <= i < n :: s.versions[i] == found.value.kind && NoneReady(s, i + 1, n)
    ensures found.None? ==>
              forall i, id | 0 <= i < n && Routes(s.records, s.versions[i], id) :: !Ready(s.services, id)
  {
    if n == 0 then None
    else
      var kind := s.versions[n - 1];
      if kind in s.records && s.records[kind].active.Some? && Ready(s.services, s.records[kind].active.value)
      then
        assert s.versions[n - 1] == kind && NoneReady(s, n, n);
        Some(Previous(kind, s.records[kind].active.value, s.records[kind].runtime))
      else
        var found := LastKnownGood(s, n - 1);
        assert found.Some? ==>
                 exists i | 0 <= i < n - 1 :: s.versions[i] == found.value.kind && NoneReady(s, i + 1, n)
        by {
          if found.Some? {
            var i :| 0 <= i < n - 1 && s.versions[i] == found.value.kind && NoneReady(s, i + 1, n - 1);
            assert NoneReady(s, i + 1, n);
          }
        }
        found
  }

  datatype Action =
    | Request(task: nat, kind: nat)
    | StartFails(task: nat)
    | StartRaises(task: nat)      // the start ends in an exception, but the runtime it made is up
    | StartSucceeds(task: nat)
    | ProbeSucceeds(task: nat)
    | ProbeFails(task: nat)
    | ProbeRaises(task: nat, stored: Option<Service>) // anything but a failed readiness ends the request,
                                  // nobody stops the candidate; its row may have been written before
    | CandidateStopped(task: nat)
    | CandidateStopFails(task: nat) // stop_by_backend raises and leaves the candidate's runtime as it was
    | SwapFails(task: nat)        // the store call of the swap raises: the pointer stays, the request ends
    | SwapCut(task: nat, marked: bool) // the request ends after the pointer moved and before its drain is
                                  // registered; the previous service may have been marked stopped
    | Publish(task: nat)          // swap the pointer, mark the previous service stopped, register its drain
    | RuntimeStopped(service: nat) // the drain callback runs and its stop_by_backend returns
    | RetireFails(service: nat)    // stop_by_backend raises and leaves the runtime as it was: the callback ends there
    | PointerCheckFails(service: nat) // a store call raises after the stop: the callback ends there
    | PointerChecked(service: nat) // the drain callback clears the pointer if it is still its own
    | Reprobed(service: nat)      // someone probes an established service, and it answers
    | Purge(gone: set<nat>)       // stopped and failed rows are cleaned up

  function PreviousOf(t: Task): Option<Previous> {
    if t.Starting? || t.Probing? || t.Probed? then t.previous else None
  }

  function CandidateOf(t: Task): Option<nat> {
    if t.Probing? || t.Probed? || t.Rejected? then Some(t.candidate) else None
  }

  predicate Enabled(s: State, a: Action) {
    match a
    case Request(task, kind) => task !in s.tasks && kind in s.versions && kind in s.records
    case StartFails(task) => task in s.tasks && s.tasks[task].Starting?
    case StartRaises(task) => task in s.tasks && s.tasks[task].Starting?
    case StartSucceeds(task) => task in s.tasks && s.tasks[task].Starting?
    case ProbeSucceeds(task) => task in s.tasks && s.tasks[task].Probing? && s.tasks[task].candidate in s.services
    case ProbeFails(task) => task in s.tasks && s.tasks[task].Probing? && s.tasks[task].candidate in s.services
    case ProbeRaises(task, stored) =>
      && task in s.tasks && s.tasks[task].Probing?
      && (stored.Some? ==>
            s.tasks[task].candidate in s.services && stored.value in {Service(Running, true), Service(Failed, false)})
    case CandidateStopped(task) => task in s.tasks && s.tasks[task].Rejected?
    case CandidateStopFails(task) => task in s.tasks && s.tasks[task].Rejected?
    case SwapFails(task) => task in s.tasks && s.tasks[task].Probed?
    case SwapCut(task, _) => task in s.tasks && s.tasks[task].Probed? && s.tasks[task].kind in s.records
    case Publish(task) => task in s.tasks && s.tasks[task].Probed? && s.tasks[task].kind in s.records
    case RuntimeStopped(service) => service in s.retires && !s.retires[service].runtimeStopped
    case RetireFails(service) => service in s.retires && !s.retires[service].runtimeStopped
    case PointerCheckFails(service) => service in s.retires && s.retires[service].runtimeStopped
    case PointerChecked(service) => service in s.retires && s.retires[service].runtimeStopped
    case Reprobed(service) => service in s.services && service in s.up
    case Purge(gone) => forall id | id in gone && id in s.services :: s.services[id].status in {Failed, Stopped}
  }

  /** The pointer moves; the previous service's row may be marked stopped. */
  function Swapped(s: State, task: nat, marked: bool): State
    requires Enabled(s, Publish(task))
  {
    var t := s.tasks[task];
    var id := if marked && t.previous.Some? then t.previous.value.service else t.candidate;
    s.(records := s.records[t.kind := Record(Some(t.candidate), Some(t.candidate))],
       tasks := s.tasks[task := Done(true)],
       services := if id != t.candidate && id in s.services then s.services[id := Service(Stopped, false)]
                   else s.services)
  }

  /** The routing swap and the stop of the previous service, one stretch without an await. */
  function PublishEffect(s: State, task: nat): State
    requires Enabled(s, Publish(task))
  {
    var t := s.tasks[task];
    var swapped := Swapped(s, task, true);
    if t.previous.Some? && t.previous.value.service != t.candidate then
      var p := t.previous.value;
      swapped.(retires := if p.service in s.retires then s.retires else s.retires[p.service := Retire(p, false)])
    else swapped
  }

  function Effect(s: State, a: Action): State
    requires Enabled(s, a)
  {
    match a
    case Request(task, kind) => s.(tasks := s.tasks[task := Starting(kind, LastKnownGood(s, |s.versions|))])
    case StartFails(task) => s.(tasks := s.tasks[task := Done(false)])
    case StartRaises(task) =>
      s.(up := s.up + {s.next}, tasks := s.tasks[task := Done(false)], next := s.next + 1)
    case StartSucceeds(task) =>
      var t := s.tasks[task];
      s.(services := s.services[s.next := Service(Registered, false)], up := s.up + {s.next},
         tasks := s.tasks[task := Probing(t.kind, t.previous, s.next)], next := s.next + 1)
    case ProbeSucceeds(task) =>
      var t := s.tasks[task];
      s.(services := s.services[t.candidate := Service(Running, true)],
         tasks := s.tasks[task := Probed(t.kind, t.previous, t.candidate)])
    case ProbeFails(task) =>
      var t := s.tasks[task];
      s.(services := s.services[t.candidate := Service(Failed, false)],
         tasks := s.tasks[task := Rejected(t.candidate)])
    case ProbeRaises(task, stored) =>
      s.(tasks := s.tasks[task := Done(false)],
         services := if stored.Some? then s.services[s.tasks[task].candidate := stored.value] else s.services)
    case SwapFails(task) => s.(tasks := s.tasks[task := Done(false)])
    case SwapCut(task, marked) => Swapped(s, task, marked)
    case CandidateStopFails(task) => s.(tasks := s.tasks[task := Done(false)])
    case CandidateStopped(task) =>
      s.(up := s.up - {s.tasks[task].candidate}, tasks := s.tasks[task := Done(false)])
    case Publish(task) => PublishEffect(s, task)
    case RuntimeStopped(service) =>
      var r := s.retires[service];
      s.(up := if r.previous.runtime.Some? then s.up - {r.previous.runtime.value} else s.up,
         retires := s.retires[service := r.(runtimeStopped := true)])
    case RetireFails(service) => s.(retires := s.retires - {service})
    case PointerCheckFails(service) => s.(retires := s.retires - {service})
    case PointerChecked(service) =>
      var kind := s.retires[service].previous.kind;
      s.(records := if Routes(s.records, kind, service) then s.records[kind := Record(None, None)] else s.records,
         retires := s.retires - {service})
    case Reprobed(service) => s.(services := s.services[service := Service(Running, true)])
    case Purge(gone) => s.(services := s.services - gone)
  }

  /** An action that is not enabled does nothing. */
  function Step(s: State, a: Action): State {
    if Enabled(s, a) then Effect(s, a) else s
  }

  function Exec(s: State, actions: seq<Action>): State {
    if actions == [] then s
    else Step(Exec(s, actions[..|actions| - 1]), actions[|actions| - 1])
  }

  /** No request is under way; every pointer names its own runtime and no service is routed twice; a routed
      ready service has its runtime up. */
  ghost predicate Init(s: State) {
    && s.tasks == map[] && s.retires == map[]
    && RecordsOk(s.records, s.next)
    && (forall id: nat | id in s.services || id in s.up :: id < s.next)
    && (forall k: nat, id: nat | Routes(s.records, k, id) && Ready(s.services, id) :: id in s.up)
  }

  ghost predicate RecordsOk(records: map<nat, Record>, next: nat) {
    && (forall k: nat, id: nat | Routes(records, k, id) :: id < next && records[k].runtime == Some(id))
    && (forall k: nat, j: nat, id: nat | Routes(records, k, id) && Routes(records, j, id) :: k == j)
  }

  // ---------------------------------------------------------------- invariant

  ghost predicate Candidate(tasks: map<nat, Task>, id: nat) {
    exists t | t in tasks :: CandidateOf(tasks[t]) == Some(id)
  }

  /** A captured previous service is an old one, routed nowhere but under its own kind, and no candidate. */
  ghost predicate PreviousOk(records: map<nat, Record>, tasks: map<nat, Task>, next: nat, p: Previous) {
    && p.service < next && (p.runtime == None || p.runtime == Some(p.service))
    && (forall k: nat | Routes(records, k, p.service) :: k == p.kind)
    && !Candidate(tasks, p.service)
  }

  ghost predicate PreviousesOk(records: map<nat, Record>, tasks: map<nat, Task>, next: nat) {
    forall t | t in tasks && PreviousOf(tasks[t]).Some? :: PreviousOk(records, tasks, next, PreviousOf(tasks[t]).value)
  }

  ghost predicate CandidatesOk(records: map<nat, Record>, tasks: map<nat, Task>, next: nat) {
    && (forall t | t in tasks && CandidateOf(tasks[t]).Some? :: CandidateOf(tasks[t]).value < next)
    && (forall t, u | t in tasks && u in tasks && t != u && CandidateOf(tasks[t]).Some? ::
          CandidateOf(tasks[t]) != CandidateOf(tasks[u]))
    && (forall k: nat, id: nat | Routes(records, k, id) :: !Candidate(tasks, id))
  }

  ghost predicate RunningOk(versions: seq<nat>, services: map<nat, Service>, up: set<nat>, tasks: map<nat, Task>) {
    && (forall t | t in tasks && (tasks[t].Starting? || tasks[t].Probing? || tasks[t].Probed?) ::
          tasks[t].kind in versions)
    && (forall t | t in tasks && tasks[t].Probing? :: tasks[t].candidate in up)
    && (forall t | t in tasks && tasks[t].Probed? :: Ready(services, tasks[t].candidate) && tasks[t].candidate in up)
  }

  ghost predicate RetiresOk(records: map<nat, Record>, tasks: map<nat, Task>, retires: map<nat, Retire>, next: nat) {
    forall id | id in retires ::
      retires[id].previous.service == id && PreviousOk(records, tasks, next, retires[id].previous)
  }

  /** A routed ready service that nobody is retiring has its runtime up. */
  ghost predicate RoutedUp(records: map<nat, Record>, services: map<nat, Service>, up: set<nat>,
                           retires: map<nat, Retire>) {
    forall k: nat, id: nat | Routes(records, k, id) && Ready(services, id) && id !in retires :: id in up
  }

  /** A service that is ready again while its drain is pending still has its runtime. */
  ghost predicate RetiringUp(services: map<nat, Service>, up: set<nat>, retires: map<nat, Retire>) {
    forall id | id in retires && !retires[id].runtimeStopped && Ready(services, id) :: id in up
  }

  /** Routed, ready, its runtime up, and nobody is about to retire it. */
  ghost predicate Anchor(s: State, id: nat) {
    && Ready(s.services, id) && id in s.up && id !in s.retires
    && exists k | k in s.versions :: Routes(s.records, k, id)
  }

  ghost predicate Anchored(s: State) { exists id :: Anchor(s, id) }

  ghost predicate Core(s: State) {
    && RecordsOk(s.records, s.next)
    && PreviousesOk(s.records, s.tasks, s.next) && CandidatesOk(s.records, s.tasks, s.next)
    && RunningOk(s.versions, s.services, s.up, s.tasks)
    && RetiresOk(s.records, s.tasks, s.retires, s.next)
    && (forall id: nat | id in s.services || id in s.up :: id < s.next)
    && RetiringUp(s.services, s.up, s.retires)
    && (s.retires == map[] || Anchored(s))
  }

  /** Only a drain that is cut short after its stop can leave a ready pointer to a runtime that is down,
      and then there is an anchor. */
  ghost predicate Inv(s: State) {
    Core(s) && (RoutedUp(s.records, s.services, s.up, s.retires) || Anchored(s))
  }

  lemma InitInv(s: State)
    requires Init(s)
    ensures Inv(s)
  { }

  // ---------------------------------------------------------------- one step

  /** What the lookup finds is a proper previous service. */
  lemma FoundIsPrevious(s: State, t: State)
    requires Core(s) && t.records == s.records && t.next == s.next
    requires forall id: nat :: Candidate(t.tasks, id) ==> Candidate(s.tasks, id)
    ensures var found := LastKnownGood(s, |s.versions|);
            found.Some? ==> PreviousOk(t.records, t.tasks, t.next, found.value)
  {
    hide RunningOk, RoutedUp, RetiresOk, PreviousesOk, Anchored;
  }

  lemma RequestInv(s: State, task: nat, kind: nat)
    requires Core(s) && Enabled(s, Request(task, kind))
    ensures Core(Effect(s, Request(task, kind)))
    ensures Anchored(s) ==> Anchored(Effect(s, Request(task, kind)))
  {
    hide LastKnownGood, RecordsOk, RetiringUp, NoneReady, RunningOk, CandidatesOk;
    var t := Effect(s, Request(task, kind));
    TasksFrame(s.tasks, task, t.tasks[task]);
    RequestTasks(s, task, kind);
    KeepAnchor(s, t);
    FoundIsPrevious(s, t);
  }

  lemma RequestTasks(s: State, task: nat, kind: nat)
    requires Core(s) && Enabled(s, Request(task, kind))
    ensures var t := Effect(s, Request(task, kind));
            RunningOk(t.versions, t.services, t.up, t.tasks) && CandidatesOk(t.records, t.tasks, t.next)
  {
    hide LastKnownGood, RecordsOk, RetiringUp, NoneReady, PreviousesOk, RetiresOk, Anchored, Candidate;
    TasksFrame(s.tasks, task, Effect(s, Request(task, kind)).tasks[task]);
  }

  /** When one task changes, the candidates of the others stay what they were. */
  lemma TasksFrame(s: map<nat, Task>, task: nat, to: Task)
    ensures forall id: nat :: Candidate(s[task := to], id) ==> Candidate(s, id) || CandidateOf(to) == Some(id)
  {
    var t := s[task := to];
    forall id: nat | Candidate(t, id) ensures Candidate(s, id) || CandidateOf(to) == Some(id) {
      var u :| u in t && CandidateOf(t[u]) == Some(id);
      if u != task { assert u in s; }
    }
  }

  lemma Gone(s: map<nat, Task>, task: nat, to: Task, records: map<nat, Record>, next: nat)
    requires CandidatesOk(records, s, next) && task in s && CandidateOf(s[task]).Some? && CandidateOf(to) == None
    ensures !Candidate(s[task := to], CandidateOf(s[task]).value)
  {
    var t, c := s[task := to], CandidateOf(s[task]);
    forall u | u in t ensures CandidateOf(t[u]) != c {
      if u != task { assert u in s; }
    }
  }

  lemma RoutesFrame(records: map<nat, Record>, kind: nat, to: Record)
    ensures forall k: nat, id: nat :: Routes(records[kind := to], k, id) ==>
              if k == kind then to.active == Some(id) else Routes(records, k, id)
    ensures forall k: nat, id: nat :: k != kind && Routes(records, k, id) ==> Routes(records[kind := to], k, id)
  {
    forall k: nat, id: nat | Routes(records[kind := to], k, id)
      ensures if k == kind then to.active == Some(id) else Routes(records, k, id)
    { }
  }

  /** A task that moves on without a new previous service or a new candidate. */
  lemma TaskMoves(s: State, task: nat, to: Task)
    requires Core(s) && task in s.tasks
    requires PreviousOf(to) == None || PreviousOf(to) == PreviousOf(s.tasks[task])
    requires CandidateOf(to) == None || CandidateOf(to) == CandidateOf(s.tasks[task])
    ensures PreviousesOk(s.records, s.tasks[task := to], s.next) && CandidatesOk(s.records, s.tasks[task := to], s.next)
    ensures RetiresOk(s.records, s.tasks[task := to], s.retires, s.next)
  {
    TasksFrame(s.tasks, task, to);
    if CandidateOf(to).Some? { assert Candidate(s.tasks, CandidateOf(to).value); }
  }

  /** An anchor survives any step that leaves its row, its runtime, its pointer and its retirement alone. */
  lemma KeepAnchor(s: State, t: State)
    requires s.versions == t.versions
    requires forall id: nat | Anchor(s, id) ::
               && Ready(t.services, id) && id in t.up && id !in t.retires
               && forall k: nat | Routes(s.records, k, id) :: Routes(t.records, k, id)
    ensures Anchored(s) ==> Anchored(t)
  {
    if Anchored(s) {
      var id :| Anchor(s, id);
      assert Anchor(t, id);
    }
  }

  /** A start that ends without touching anything but its candidate's row. */
  lemma TaskEndsInv(s: State, a: Action)
    requires Core(s) && Enabled(s, a)
    requires a.StartFails? || a.ProbeRaises? || a.CandidateStopFails? || a.SwapFails?
    ensures Core(Effect(s, a)) && (Anchored(s) ==> Anchored(Effect(s, a)))
  {
    hide PreviousesOk, RetiresOk, RecordsOk, PreviousOk, Candidate, CandidatesOk, RunningOk;
    TaskMoves(s, a.task, Done(false));
    TaskEndsRunning(s, a);
    if a.ProbeRaises? { CandidateApart(s, a.task); }
    KeepAnchor(s, Effect(s, a));
  }

  lemma TaskEndsRunning(s: State, a: Action)
    requires Core(s) && Enabled(s, a)
    requires a.StartFails? || a.ProbeRaises? || a.CandidateStopFails? || a.SwapFails?
    ensures var t := Effect(s, a); RunningOk(t.versions, t.services, t.up, t.tasks)
  {
    hide PreviousesOk, RetiresOk, RecordsOk, PreviousOk, Candidate, CandidatesOk, RetiringUp, Anchored;
    if a.ProbeRaises? { CandidateApart(s, a.task); }
  }

  /** A candidate is routed nowhere, draining nowhere and nobody else's. */
  lemma CandidateApart(s: State, task: nat)
    requires Core(s) && task in s.tasks && CandidateOf(s.tasks[task]).Some?
    ensures var c := CandidateOf(s.tasks[task]).value;
            && (forall k: nat :: !Routes(s.records, k, c)) && c !in s.retires && c < s.next
            && (forall t | t in s.tasks && t != task :: CandidateOf(s.tasks[t]) != Some(c))
  {
    hide RetiringUp, Anchored, PreviousesOk;
    assert Candidate(s.tasks, CandidateOf(s.tasks[task]).value);
  }

  lemma StartRaisesInv(s: State, task: nat)
    requires Core(s) && Enabled(s, StartRaises(task))
    ensures Core(Effect(s, StartRaises(task))) && (Anchored(s) ==> Anchored(Effect(s, StartRaises(task))))
  {
    hide PreviousesOk, RetiresOk, RecordsOk, PreviousOk, Candidate, CandidatesOk;
    var t := Effect(s, StartRaises(task));
    TaskMoves(s, task, Done(false));
    OneMore(s, t);
    KeepAnchor(s, t);
  }

  /** Every bound on service ids holds for a later bound. */
  lemma OneMore(s: State, t: State)
    requires t == s.(tasks := t.tasks, up := t.up, next := s.next + 1)
    requires RecordsOk(s.records, s.next) && PreviousesOk(s.records, t.tasks, s.next)
    requires CandidatesOk(s.records, t.tasks, s.next) && RetiresOk(s.records, t.tasks, s.retires, s.next)
    ensures RecordsOk(t.records, t.next) && PreviousesOk(t.records, t.tasks, t.next)
    ensures CandidatesOk(t.records, t.tasks, t.next) && RetiresOk(t.records, t.tasks, t.retires, t.next)
  {
    hide Candidate;
    forall p: Previous | PreviousOk(s.records, t.tasks, s.next, p) ensures PreviousOk(t.records, t.tasks, t.next, p) { }
  }

  lemma StartSucceedsInv(s: State, task: nat)
    requires Core(s) && Enabled(s, StartSucceeds(task))
    ensures Core(Effect(s, StartSucceeds(task))) && (Anchored(s) ==> Anchored(Effect(s, StartSucceeds(task))))
  {
    hide PreviousOk, RetiresOk, PreviousesOk, Candidate, RecordsOk, CandidatesOk;
    var t := Effect(s, StartSucceeds(task));
    NewCandidate(s, task);
    KeepAnchor(s, t);
    assert RecordsOk(t.records, t.next) by { RecordsLater(s.records, s.next); }
  }

  lemma RecordsLater(records: map<nat, Record>, next: nat)
    requires RecordsOk(records, next)
    ensures RecordsOk(records, next + 1)
  { }

  /** A fresh service id becomes the task's candidate. */
  lemma NewCandidate(s: State, task: nat)
    requires Core(s) && Enabled(s, StartSucceeds(task))
    ensures var tasks := Effect(s, StartSucceeds(task)).tasks;
            && PreviousesOk(s.records, tasks, s.next + 1) && CandidatesOk(s.records, tasks, s.next + 1)
            && RetiresOk(s.records, tasks, s.retires, s.next + 1)
  {
    hide RunningOk, RoutedUp, Anchored;
    var to := Probing(s.tasks[task].kind, s.tasks[task].previous, s.next);
    TasksFrame(s.tasks, task, to);
    forall p: Previous | PreviousOk(s.records, s.tasks, s.next, p)
      ensures PreviousOk(s.records, s.tasks[task := to], s.next + 1, p)
    { }
    forall u | u in s.tasks ensures CandidateOf(s.tasks[u]) != Some(s.next) { }
  }

  lemma ProbeSucceedsInv(s: State, task: nat)
    requires Core(s) && Enabled(s, ProbeSucceeds(task))
    ensures Core(Effect(s, ProbeSucceeds(task))) && (Anchored(s) ==> Anchored(Effect(s, ProbeSucceeds(task))))
  {
    hide PreviousesOk, RetiresOk;
    var t := Effect(s, ProbeSucceeds(task));
    TaskMoves(s, task, t.tasks[task]);
    assert Candidate(s.tasks, s.tasks[task].candidate);
    KeepAnchor(s, t);
  }

  lemma ProbeFailsInv(s: State, task: nat)
    requires Core(s) && Enabled(s, ProbeFails(task))
    ensures Core(Effect(s, ProbeFails(task))) && (Anchored(s) ==> Anchored(Effect(s, ProbeFails(task))))
  {
    hide PreviousesOk, RetiresOk;
    var t := Effect(s, ProbeFails(task));
    TaskMoves(s, task, t.tasks[task]);
    assert Candidate(s.tasks, s.tasks[task].candidate);
    KeepAnchor(s, t);
  }

  lemma NoneRetiring(s: State)
    requires Core(s)
    ensures forall id | id in s.retires :: !Candidate(s.tasks, id)
  { }

  lemma CandidateStoppedInv(s: State, task: nat)
    requires Core(s) && Enabled(s, CandidateStopped(task))
    ensures Core(Effect(s, CandidateStopped(task))) && (Anchored(s) ==> Anchored(Effect(s, CandidateStopped(task))))
  {
    hide PreviousesOk, RetiresOk, RecordsOk, PreviousOk, Candidate, CandidatesOk;
    var t := Effect(s, CandidateStopped(task));
    TaskMoves(s, task, Done(false));
    CandidateApart(s, task);
    NoneRetiring(s);
    KeepAnchor(s, t);
  }

  predicate Swaps(a: Action) { a.Publish? || a.SwapCut? }

  lemma CandidateIsReady(s: State, a: Action)
    requires Core(s) && Swaps(a) && Enabled(s, a)
    ensures var c := s.tasks[a.task].candidate;
            && Ready(s.services, c) && c in s.up && c !in s.retires && c < s.next && s.tasks[a.task].kind in s.versions
            && (s.tasks[a.task].previous.Some? ==> s.tasks[a.task].previous.value.service != c)
  {
    hide RetiringUp, Anchored;
    assert Candidate(s.tasks, s.tasks[a.task].candidate);
  }

  lemma PublishKeepsRetiring(s: State, a: Action)
    requires Core(s) && Swaps(a) && Enabled(s, a)
    ensures var t := Effect(s, a); RetiringUp(t.services, t.up, t.retires)
  {
    hide RecordsOk, PreviousesOk, CandidatesOk, RetiresOk, RunningOk, Anchored;
    CandidateIsReady(s, a);
  }

  lemma PublishInv(s: State, a: Action)
    requires Core(s) && Swaps(a) && Enabled(s, a)
    ensures Core(Effect(s, a)) && Anchor(Effect(s, a), s.tasks[a.task].candidate)
  {
    hide PreviousesOk, RetiresOk, RecordsOk, CandidatesOk, RunningOk, Candidate;
    CandidateIsReady(s, a);
    PublishKeepsRetiring(s, a);
    PublishKeepsRoutes(s, a);
    PublishKeepsPrevious(s, a);
    PublishKeepsRunning(s, a);
    var t, c := Effect(s, a), s.tasks[a.task].candidate;
    assert Routes(t.records, s.tasks[a.task].kind, c);
    assert forall id: nat | id in t.services || id in t.up :: id < t.next;
    assert Anchor(t, c);
  }

  lemma PublishKeepsRoutes(s: State, a: Action)
    requires Core(s) && Swaps(a) && Enabled(s, a)
    ensures var t, kind, c := Effect(s, a), s.tasks[a.task].kind, s.tasks[a.task].candidate;
            && RecordsOk(t.records, t.next) && CandidatesOk(t.records, t.tasks, t.next)
            && (forall k: nat, id: nat | Routes(t.records, k, id) :: Routes(s.records, k, id) || (k == kind && id == c))
            && c !in t.retires && Ready(t.services, c)
  {
    hide PreviousesOk, RetiresOk, RunningOk, RetiringUp, Anchored, RecordsOk, CandidatesOk, Candidate;
    CandidateIsReady(s, a);
    SwapRoutes(s, a);
    SwapRecords(s, a);
    SwapCandidates(s, a);
  }

  lemma SwapRoutes(s: State, a: Action)
    requires Swaps(a) && Enabled(s, a)
    ensures var t, kind, c := Effect(s, a), s.tasks[a.task].kind, s.tasks[a.task].candidate;
            && t.records == s.records[kind := Record(Some(c), Some(c))] && t.tasks == s.tasks[a.task := Done(true)]
            && t.next == s.next
            && forall k: nat, id: nat | Routes(t.records, k, id) :: Routes(s.records, k, id) || (k == kind && id == c)
  {
    var task := s.tasks[a.task];
    RoutesFrame(s.records, task.kind, Record(Some(task.candidate), Some(task.candidate)));
  }

  lemma SwapRecords(s: State, a: Action)
    requires Core(s) && Swaps(a) && Enabled(s, a)
    ensures RecordsOk(Effect(s, a).records, s.next)
  {
    hide PreviousesOk, RetiresOk, RunningOk, RetiringUp, Anchored, CandidatesOk, Effect;
    SwapRoutes(s, a);
    CandidateApart(s, a.task);
  }

  lemma SwapCandidates(s: State, a: Action)
    requires Core(s) && Swaps(a) && Enabled(s, a)
    ensures var t := Effect(s, a); CandidatesOk(t.records, t.tasks, t.next)
  {
    hide PreviousesOk, RetiresOk, RunningOk, RetiringUp, Anchored, RecordsOk, Effect;
    SwapRoutes(s, a);
    Gone(s.tasks, a.task, Done(true), s.records, s.next);
    TasksFrame(s.tasks, a.task, Done(true));
  }

  lemma PublishKeepsPrevious(s: State, a: Action)
    requires Core(s) && Swaps(a) && Enabled(s, a)
    ensures var t := Effect(s, a);
            PreviousesOk(t.records, t.tasks, t.next) && RetiresOk(t.records, t.tasks, t.retires, t.next)
  {
    hide RoutedUp, RetiringUp, Anchored, RecordsOk, RunningOk;
    var t, kind, c := Effect(s, a), s.tasks[a.task].kind, s.tasks[a.task].candidate;
    assert Candidate(s.tasks, c);
    TaskMoves(s, a.task, Done(true));
    assert t.records == s.records[kind := Record(Some(c), Some(c))];
    RoutesFrame(s.records, kind, Record(Some(c), Some(c)));
    forall p: Previous | p.service != c && PreviousOk(s.records, t.tasks, s.next, p)
      ensures PreviousOk(t.records, t.tasks, t.next, p)
    {
      forall k: nat | Routes(t.records, k, p.service) ensures k == p.kind {
        assert Routes(s.records, k, p.service);
      }
    }
    if s.tasks[a.task].previous.Some? {
      assert PreviousOk(s.records, s.tasks, s.next, s.tasks[a.task].previous.value);
      TasksFrame(s.tasks, a.task, Done(true));
    }
  }

  lemma PublishKeepsRunning(s: State, a: Action)
    requires Core(s) && Swaps(a) && Enabled(s, a)
    ensures var t := Effect(s, a); RunningOk(t.versions, t.services, t.up, t.tasks)
  {
    hide RoutedUp, RetiringUp, Anchored, RecordsOk, CandidatesOk, RetiresOk;
    var t := Effect(s, a);
    if s.tasks[a.task].previous.Some? {
      assert PreviousOk(s.records, s.tasks, s.next, s.tasks[a.task].previous.value);
      TasksFrame(s.tasks, a.task, Done(true));
      forall u | u in t.tasks && t.tasks[u].Probed?
        ensures t.tasks[u].candidate != s.tasks[a.task].previous.value.service
      {
        assert Candidate(s.tasks, t.tasks[u].candidate);
      }
    }
  }

  lemma RuntimeStoppedInv(s: State, service: nat)
    requires Core(s) && Enabled(s, RuntimeStopped(service))
    ensures Core(Effect(s, RuntimeStopped(service))) && (Anchored(s) ==> Anchored(Effect(s, RuntimeStopped(service))))
  {
    KeepAnchor(s, Effect(s, RuntimeStopped(service)));
  }

  lemma PointerCheckedInv(s: State, service: nat)
    requires Core(s) && Enabled(s, PointerChecked(service))
    ensures Core(Effect(s, PointerChecked(service))) && (Anchored(s) ==> Anchored(Effect(s, PointerChecked(service))))
  {
    var kind, t := s.retires[service].previous.kind, Effect(s, PointerChecked(service));
    assert PreviousOk(s.records, s.tasks, s.next, s.retires[service].previous);
    RoutesFrame(s.records, kind, Record(None, None));
    forall k: nat, id: nat | Routes(t.records, k, id) ensures Routes(s.records, k, id) && id != service {
      assert Routes(s.records, k, id);
    }
    forall k: nat, id: nat | Routes(s.records, k, id) && id != service ensures Routes(t.records, k, id) {
      assert k == kind ==> !Routes(s.records, kind, service);
    }
    KeepAnchor(s, t);
  }

  lemma RowInv(s: State, a: Action)
    requires Core(s) && Enabled(s, a) && (a.Reprobed? || a.Purge?)
    ensures Core(Effect(s, a)) && (Anchored(s) ==> Anchored(Effect(s, a)))
  {
    hide RecordsOk, PreviousesOk, CandidatesOk, RetiresOk, RunningOk, RetiringUp;
    RowKeepsRuntimes(s, a);
    KeepAnchor(s, Effect(s, a));
  }

  lemma RowKeepsRuntimes(s: State, a: Action)
    requires Core(s) && Enabled(s, a) && (a.Reprobed? || a.Purge?)
    ensures var t := Effect(s, a);
            RunningOk(t.versions, t.services, t.up, t.tasks) && RetiringUp(t.services, t.up, t.retires)
  {
    hide RecordsOk, PreviousesOk, CandidatesOk, RetiresOk, Anchored;
  }

  predicate Private(a: Action) {
    || a.Request? || a.StartFails? || a.StartRaises? || a.StartSucceeds? || a.ProbeSucceeds? || a.ProbeFails?
    || a.ProbeRaises? || a.CandidateStopped? || a.CandidateStopFails? || a.SwapFails?
  }

  lemma TaskRoutedUp(s: State, a: Action)
    requires Core(s) && RoutedUp(s.records, s.services, s.up, s.retires) && Enabled(s, a) && Private(a)
    ensures var t := Effect(s, a); RoutedUp(t.records, t.services, t.up, t.retires)
  {
    hide LastKnownGood, Anchored, PreviousesOk, RetiringUp, PreviousOk, RetiresOk, CandidatesOk, RunningOk;
    if !a.Request? && CandidateOf(s.tasks[a.task]).Some? { CandidateApart(s, a.task); }
  }

  lemma SwapRoutedUp(s: State, a: Action)
    requires Core(s) && RoutedUp(s.records, s.services, s.up, s.retires) && Enabled(s, a) && Swaps(a)
    ensures var t := Effect(s, a); RoutedUp(t.records, t.services, t.up, t.retires)
  {
    hide Anchored, PreviousesOk, RetiringUp, PreviousOk, RetiresOk, CandidatesOk, RunningOk, RecordsOk;
    CandidateIsReady(s, a);
    var t, c := Effect(s, a), s.tasks[a.task].candidate;
    assert t.records == s.records[s.tasks[a.task].kind := Record(Some(c), Some(c))];
    RoutesFrame(s.records, s.tasks[a.task].kind, Record(Some(c), Some(c)));
    forall k: nat, id: nat | Routes(t.records, k, id) && Ready(t.services, id) && id !in t.retires ensures id in t.up {
      assert id == c || (Routes(s.records, k, id) && Ready(s.services, id) && id !in s.retires);
    }
  }

  lemma OtherRoutedUp(s: State, a: Action)
    requires Core(s) && RoutedUp(s.records, s.services, s.up, s.retires) && Enabled(s, a) && !Private(a) && !Swaps(a)
    requires a.PointerCheckFails? ==> !Ready(s.services, a.service)
    ensures var t := Effect(s, a); RoutedUp(t.records, t.services, t.up, t.retires)
  {
    hide Anchored, PreviousesOk, CandidatesOk, RunningOk, RecordsOk, Candidate;
    var t := Effect(s, a);
    if a.PointerChecked? {
      assert PreviousOk(s.records, s.tasks, s.next, s.retires[a.service].previous);
      RoutesFrame(s.records, s.retires[a.service].previous.kind, Record(None, None));
    }
    forall k: nat, id: nat | Routes(t.records, k, id) && Ready(t.services, id) && id !in t.retires ensures id in t.up {
      assert Routes(s.records, k, id) && (a.PointerChecked? ==> id != a.service);
    }
  }

  /** A step keeps ready pointers on running runtimes, but for the cut-short drain of a service that was
      probed while it drained. */
  lemma RoutedUpStep(s: State, a: Action)
    requires Core(s) && RoutedUp(s.records, s.services, s.up, s.retires) && Enabled(s, a)
    requires a.PointerCheckFails? ==> !Ready(s.services, a.service)
    ensures var t := Effect(s, a); RoutedUp(t.records, t.services, t.up, t.retires)
  {
    hide Core, RoutedUp, Effect, Enabled;
    if Private(a) { TaskRoutedUp(s, a); }
    else if Swaps(a) { SwapRoutedUp(s, a); }
    else { OtherRoutedUp(s, a); }
  }

  lemma DrainCutInv(s: State, a: Action)
    requires Core(s) && Enabled(s, a) && (a.RetireFails? || a.PointerCheckFails?)
    ensures Core(Effect(s, a)) && Anchored(Effect(s, a))
  {
    hide RecordsOk, PreviousesOk, CandidatesOk, RunningOk, PreviousOk;
    KeepAnchor(s, Effect(s, a));
  }

  lemma CoreStep(s: State, a: Action)
    requires Core(s) && Enabled(s, a)
    ensures Core(Effect(s, a)) && (Anchored(s) ==> Anchored(Effect(s, a)))
  {
    hide Core, Anchored, Effect, Enabled;
    match a
    case Request(task, kind) => RequestInv(s, task, kind);
    case StartFails(_) => TaskEndsInv(s, a);
    case StartRaises(task) => StartRaisesInv(s, task);
    case ProbeRaises(_, _) => TaskEndsInv(s, a);
    case CandidateStopFails(_) => TaskEndsInv(s, a);
    case SwapFails(_) => TaskEndsInv(s, a);
    case StartSucceeds(task) => StartSucceedsInv(s, task);
    case ProbeSucceeds(task) => ProbeSucceedsInv(s, task);
    case ProbeFails(task) => ProbeFailsInv(s, task);
    case CandidateStopped(task) => CandidateStoppedInv(s, task);
    case Publish(task) => SwapInv(s, a);
    case SwapCut(task, _) => SwapInv(s, a);
    case RuntimeStopped(service) => RuntimeStoppedInv(s, service);
    case RetireFails(_) => DrainCutInv(s, a);
    case PointerCheckFails(_) => DrainCutInv(s, a);
    case PointerChecked(service) => PointerCheckedInv(s, service);
    case Reprobed(_) => RowInv(s, a);
    case Purge(_) => RowInv(s, a);
  }

  lemma SwapInv(s: State, a: Action)
    requires Core(s) && Enabled(s, a) && Swaps(a)
    ensures Core(Effect(s, a)) && Anchored(Effect(s, a))
  {
    PublishInv(s, a);
  }

  lemma StepInv(s: State, a: Action)
    requires Inv(s)
    ensures Inv(Step(s, a)) && (Anchored(s) ==> Anchored(Step(s, a))) && Step(s, a).versions == s.versions
  {
    hide Core, RoutedUp, Anchored;
    if Enabled(s, a) {
      CoreStep(s, a);
      if a.PointerCheckFails? { DrainCutInv(s, a); }
      else if !Anchored(s) { RoutedUpStep(s, a); }
    }
  }
}
