/** Runs from a fresh entry that leave a runtime behind, one for each condition an orderly run meets. */
module ServiceWitnesses {
  import opened Wrappers
  import opened ServiceReplacement
  import opened ServiceAvailability
  import opened ServiceLeaks
  import opened ServiceTidiness

  /** Two published versions, of kinds 0 and 1, nothing running. */
  function Fresh(): State {
    State([0, 1], map[0 := Record(None, None), 1 := Record(None, None)], map[], {}, map[], map[], 0)
  }

  lemma FreshIsTidy()
    ensures TidyInit(Fresh())
  { }

  lemma Next(s: State, actions: seq<Action>, t: State, a: Action)
    requires Exec(s, actions) == t && Enabled(t, a)
    ensures Exec(s, actions + [a]) == Effect(t, a)
  {
    assert (actions + [a])[..|actions + [a]| - 1] == actions;
  }

  /** A whole start of the given kind that finds this previous service. */
  function Started(s: State, task: nat, kind: nat, previous: Option<Previous>): State {
    var c := s.next;
    var t := s.(records := s.records[kind := Record(Some(c), Some(c))], up := s.up + {c}, next := c + 1,
                services := s.services[c := Service(Running, true)], tasks := s.tasks[task := Done(true)]);
    if previous.None? then t
    else
      var p := previous.value;
      t.(services := t.services[p.service := Service(Stopped, false)],
         retires := if p.service in s.retires then s.retires else s.retires[p.service := Retire(p, false)])
  }

  function StartActions(task: nat, kind: nat): seq<Action> {
    [Request(task, kind), StartSucceeds(task), ProbeSucceeds(task), Publish(task)]
  }

  lemma Twice<K, V>(m: map<K, V>, k: K, a: V, b: V)
    ensures m[k := a][k := b] == m[k := b]
  { }

  /** A request that brought its candidate up and waits for the swap. */
  function WithCandidate(s: State, task: nat, kind: nat, previous: Option<Previous>): State {
    var c := s.next;
    s.(up := s.up + {c}, next := c + 1, services := s.services[c := Service(Running, true)],
       tasks := s.tasks[task := Probed(kind, previous, c)])
  }

  lemma CandidateComesUp(s: State, actions: seq<Action>, t: State, task: nat, kind: nat, previous: Option<Previous>)
    requires Exec(s, actions) == t && task in t.tasks && t.tasks[task] == Starting(kind, previous)
    ensures Exec(s, actions + [StartSucceeds(task), ProbeSucceeds(task)]) == WithCandidate(t, task, kind, previous)
  {
    hide LastKnownGood;
    var a1, a2 := StartSucceeds(task), ProbeSucceeds(task);
    Next(s, actions, t, a1);
    var t1 := Effect(t, a1);
    Next(s, actions + [a1], t1, a2);
    Twice(t.services, t.next, Service(Registered, false), Service(Running, true));
    Twice(t.tasks, task, Probing(kind, previous, t.next), Probed(kind, previous, t.next));
    assert actions + [a1, a2] == actions + [a1] + [a2];
  }

  lemma WholeStart(s: State, actions: seq<Action>, t: State, task: nat, kind: nat, previous: Option<Previous>)
    requires Exec(s, actions) == t && Enabled(t, Request(task, kind)) && LastKnownGood(t, |t.versions|) == previous
    requires previous.Some? ==> previous.value.service != t.next && previous.value.service in t.services
    ensures Exec(s, actions + StartActions(task, kind)) == Started(t, task, kind, previous)
  {
    hide LastKnownGood;
    var a1, a4 := Request(task, kind), Publish(task);
    Next(s, actions, t, a1);
    var t1 := Effect(t, a1);
    CandidateComesUp(s, actions + [a1], t1, task, kind, previous);
    var up := actions + [a1] + [StartSucceeds(task), ProbeSucceeds(task)];
    var t2 := WithCandidate(t1, task, kind, previous);
    Next(s, up, t2, a4);
    Twice(t.tasks, task, Starting(kind, previous), Probed(kind, previous, t.next));
    Twice(t.tasks, task, Probed(kind, previous, t.next), Done(true));
    assert actions + StartActions(task, kind) == up + [a4];
  }

  function PreviousAt(s: State, kind: nat): Option<Previous> {
    if kind in s.records && s.records[kind].active.Some? && Ready(s.services, s.records[kind].active.value)
    then Some(Previous(kind, s.records[kind].active.value, s.records[kind].runtime))
    else None
  }

  lemma LooksAt(s: State)
    requires s.versions == [0, 1]
    ensures LastKnownGood(s, |s.versions|) == if PreviousAt(s, 1).Some? then PreviousAt(s, 1) else PreviousAt(s, 0)
  {
    assert LastKnownGood(s, 0) == None;
    assert LastKnownGood(s, 1) == PreviousAt(s, 0);
  }

  /** The last step of a run is the one that leaks. */
  lemma LeakedLast(actions: seq<Action>, t: State, a: Action, id: nat)
    requires Exec(Fresh(), actions) == t && Enabled(t, a) && Leaks(t, a, id)
    ensures TidyInit(Fresh()) && !Orphan(t, id) && Orphan(Exec(Fresh(), actions + [a]), id)
  {
    hide Leaks, Orphan, Effect, Sound;
    FreshIsTidy();
    InitSound(Fresh());
    RunSound(Fresh(), actions);
    OrphanMade(t, a, id);
    Next(Fresh(), actions, t, a);
  }

  lemma FirstLook()
    ensures Exec(Fresh(), []) == Fresh() && LastKnownGood(Fresh(), |Fresh().versions|) == None
  {
    LooksAt(Fresh());
  }

  // ---------------------------------------------------------------- overlapping starts

  /** Start 1 reads before start 0 swaps and swaps after it. */
  lemma OverlapLeaks()
    ensures Orphan(Exec(Fresh(), [Request(1, 0)] + StartActions(0, 0) + [StartSucceeds(1), ProbeSucceeds(1)]
                                 + [Publish(1)]), 0)
  {
    hide LastKnownGood, Exec, Enabled, Effect;
    var up := [Request(1, 0)] + StartActions(0, 0) + [StartSucceeds(1), ProbeSucceeds(1)];
    var s1 := Fresh().(tasks := map[1 := Starting(0, None)]);
    var s2 := Started(s1, 0, 0, None);
    OverlapBegins();
    CandidateComesUp(Fresh(), [Request(1, 0)] + StartActions(0, 0), s2, 1, 0, None);
    SwapOverwrites(WithCandidate(s2, 1, 0, None));
    LeakedLast(up, WithCandidate(s2, 1, 0, None), Publish(1), 0);
  }

  lemma OverlapBegins()
    ensures Exec(Fresh(), [Request(1, 0)] + StartActions(0, 0)) ==
            Started(Fresh().(tasks := map[1 := Starting(0, None)]), 0, 0, None)
  {
    hide Exec, LastKnownGood;
    FirstLook();
    Next(Fresh(), [], Fresh(), Request(1, 0));
    var s1 := Fresh().(tasks := map[1 := Starting(0, None)]);
    assert [] + [Request(1, 0)] == [Request(1, 0)];
    LooksAt(s1);
    WholeStart(Fresh(), [Request(1, 0)], s1, 0, 0, None);
  }

  lemma SwapOverwrites(t: State)
    requires t == WithCandidate(Started(Fresh().(tasks := map[1 := Starting(0, None)]), 0, 0, None), 1, 0, None)
    ensures Enabled(t, Publish(1)) && Leaks(t, Publish(1), 0)
  { }

  /** Start 2 remembers the overwritten service, and it is its failure that leaves it behind. */
  lemma RememberedLeaks()
    ensures var before := [Request(1, 0)] + StartActions(0, 0) + [Request(2, 0)]
                          + [StartSucceeds(1), ProbeSucceeds(1)] + [Publish(1)];
            !Orphan(Exec(Fresh(), before), 0) && Orphan(Exec(Fresh(), before + [StartFails(2)]), 0)
  {
    hide LastKnownGood, Exec;
    var r1 := [Request(1, 0)] + StartActions(0, 0);
    var s2 := Started(Fresh().(tasks := map[1 := Starting(0, None)]), 0, 0, None);
    OverlapBegins();
    LooksAt(s2);
    var p := Some(Previous(0, 0, Some(0)));
    Next(Fresh(), r1, s2, Request(2, 0));
    var s3 := s2.(tasks := s2.tasks[2 := Starting(0, p)]);
    CandidateComesUp(Fresh(), r1 + [Request(2, 0)], s3, 1, 0, None);
    var r2, s4 := r1 + [Request(2, 0)] + [StartSucceeds(1), ProbeSucceeds(1)], WithCandidate(s3, 1, 0, None);
    Next(Fresh(), r2, s4, Publish(1));
    LeakedLast(r2 + [Publish(1)], Effect(s4, Publish(1)), StartFails(2), 0);
  }

  // ---------------------------------------------------------------- exceptions

  lemma FirstStart(kind: nat)
    requires kind < 2
    ensures Exec(Fresh(), StartActions(0, kind)) == Started(Fresh(), 0, kind, None)
  {
    hide Exec, LastKnownGood;
    FirstLook();
    WholeStart(Fresh(), [], Fresh(), 0, kind, None);
    assert [] + StartActions(0, kind) == StartActions(0, kind);
  }

  /** A drain whose stop raises, without any overlap. */
  lemma RaisedStopLeaks()
    ensures Orphan(Exec(Fresh(), StartActions(0, 0) + StartActions(1, 0) + [RetireFails(0)]), 0)
  {
    hide LastKnownGood, Exec;
    FirstStart(0);
    var s1, p := Started(Fresh(), 0, 0, None), Some(Previous(0, 0, Some(0)));
    LooksAt(s1);
    WholeStart(Fresh(), StartActions(0, 0), s1, 1, 0, p);
    LeakedLast(StartActions(0, 0) + StartActions(1, 0), Started(s1, 1, 0, p), RetireFails(0), 0);
  }

  /** A start that raises although its runtime is up. */
  lemma RaisedStartLeaks()
    ensures Orphan(Exec(Fresh(), [Request(0, 0)] + [StartRaises(0)]), 0)
  {
    hide LastKnownGood, Exec;
    FirstLook();
    Next(Fresh(), [], Fresh(), Request(0, 0));
    assert [] + [Request(0, 0)] == [Request(0, 0)];
    LeakedLast([Request(0, 0)], Effect(Fresh(), Request(0, 0)), StartRaises(0), 0);
  }

  /** A store call of the swap that raises before the pointer moves, and one that raises after it. */
  lemma RaisedSwapLeaks()
    ensures Orphan(Exec(Fresh(), [Request(0, 0)] + [StartSucceeds(0), ProbeSucceeds(0)] + [SwapFails(0)]), 0)
    ensures Orphan(Exec(Fresh(), StartActions(0, 0) + [Request(1, 0)] + [StartSucceeds(1), ProbeSucceeds(1)]
                                 + [SwapCut(1, false)]), 0)
  {
    hide LastKnownGood, Exec;
    FirstLook();
    Next(Fresh(), [], Fresh(), Request(0, 0));
    assert [] + [Request(0, 0)] == [Request(0, 0)];
    var t1 := Effect(Fresh(), Request(0, 0));
    CandidateComesUp(Fresh(), [Request(0, 0)], t1, 0, 0, None);
    LeakedLast([Request(0, 0)] + [StartSucceeds(0), ProbeSucceeds(0)], WithCandidate(t1, 0, 0, None), SwapFails(0), 0);
    SwapCutLeaks();
  }

  lemma SwapCutLeaks()
    ensures Orphan(Exec(Fresh(), StartActions(0, 0) + [Request(1, 0)] + [StartSucceeds(1), ProbeSucceeds(1)]
                                 + [SwapCut(1, false)]), 0)
  {
    hide LastKnownGood, Exec;
    FirstStart(0);
    var s1, p := Started(Fresh(), 0, 0, None), Some(Previous(0, 0, Some(0)));
    LooksAt(s1);
    Next(Fresh(), StartActions(0, 0), s1, Request(1, 0));
    var s2 := s1.(tasks := s1.tasks[1 := Starting(0, p)]);
    CandidateComesUp(Fresh(), StartActions(0, 0) + [Request(1, 0)], s2, 1, 0, p);
    LeakedLast(StartActions(0, 0) + [Request(1, 0)] + [StartSucceeds(1), ProbeSucceeds(1)],
               WithCandidate(s2, 1, 0, p), SwapCut(1, false), 0);
  }

  /** A probe that ends in anything but an answer. */
  lemma RaisedProbeLeaks()
    ensures Orphan(Exec(Fresh(), [Request(0, 0)] + [StartSucceeds(0)] + [ProbeRaises(0, None)]), 0)
  {
    hide LastKnownGood, Exec;
    FirstLook();
    Next(Fresh(), [], Fresh(), Request(0, 0));
    assert [] + [Request(0, 0)] == [Request(0, 0)];
    var s1 := Effect(Fresh(), Request(0, 0));
    Next(Fresh(), [Request(0, 0)], s1, StartSucceeds(0));
    LeakedLast([Request(0, 0)] + [StartSucceeds(0)], Effect(s1, StartSucceeds(0)), ProbeRaises(0, None), 0);
  }

  /** A rejected candidate whose stop raises. */
  lemma RaisedCandidateStopLeaks()
    ensures Orphan(Exec(Fresh(), [Request(0, 0)] + [StartSucceeds(0)] + [ProbeFails(0)] + [CandidateStopFails(0)]), 0)
  {
    hide LastKnownGood, Exec;
    FirstLook();
    Next(Fresh(), [], Fresh(), Request(0, 0));
    assert [] + [Request(0, 0)] == [Request(0, 0)];
    var s1 := Effect(Fresh(), Request(0, 0));
    Next(Fresh(), [Request(0, 0)], s1, StartSucceeds(0));
    var s2 := Effect(s1, StartSucceeds(0));
    Next(Fresh(), [Request(0, 0)] + [StartSucceeds(0)], s2, ProbeFails(0));
    LeakedLast([Request(0, 0)] + [StartSucceeds(0)] + [ProbeFails(0)], Effect(s2, ProbeFails(0)),
               CandidateStopFails(0), 0);
  }

  // ---------------------------------------------------------------- probing a draining service

  /** Service 1 has replaced service 0, whose drain is pending and which was probed again. */
  function DrainedReady(): State {
    State([0, 1], map[0 := Record(Some(1), Some(1)), 1 := Record(Some(0), Some(0))],
          map[0 := Service(Running, true), 1 := Service(Running, true)], {0, 1},
          map[0 := Done(true), 1 := Done(true)], map[0 := Retire(Previous(1, 0, Some(0)), false)], 2)
  }

  lemma ProbedWhileDraining()
    ensures Exec(Fresh(), StartActions(0, 1) + StartActions(1, 0) + [Reprobed(0)]) == DrainedReady()
  {
    hide LastKnownGood, Exec;
    FirstStart(1);
    var s1, p := Started(Fresh(), 0, 1, None), Some(Previous(1, 0, Some(0)));
    LooksAt(s1);
    WholeStart(Fresh(), StartActions(0, 1), s1, 1, 0, p);
    Next(Fresh(), StartActions(0, 1) + StartActions(1, 0), Started(s1, 1, 0, p), Reprobed(0));
  }

  /** A probe makes the draining service ready again; the next start takes it for the last known good one
      and overwrites the pointer of the real one. */
  lemma ReprobeLeaks()
    ensures Orphan(Exec(Fresh(), StartActions(0, 1) + StartActions(1, 0) + [Reprobed(0)] + StartActions(2, 0)), 1)
  {
    hide LastKnownGood, Exec;
    ProbedWhileDraining();
    var r3, s3 := StartActions(0, 1) + StartActions(1, 0) + [Reprobed(0)], DrainedReady();
    var p := Some(Previous(1, 0, Some(0)));
    LooksAt(s3);
    Next(Fresh(), r3, s3, Request(2, 0));
    var s4 := s3.(tasks := s3.tasks[2 := Starting(0, p)]);
    CandidateComesUp(Fresh(), r3 + [Request(2, 0)], s4, 2, 0, p);
    var s5, r5 := WithCandidate(s4, 2, 0, p), r3 + [Request(2, 0)] + [StartSucceeds(2), ProbeSucceeds(2)];
    LastSwapLeaks(s5);
    LeakedLast(r5, s5, Publish(2), 1);
    assert r3 + StartActions(2, 0) == r5 + [Publish(2)];
  }

  lemma LastSwapLeaks(t: State)
    requires var s := DrainedReady(); var p := Some(Previous(1, 0, Some(0)));
             t == WithCandidate(s.(tasks := s.tasks[2 := Starting(0, p)]), 2, 0, p)
    ensures Enabled(t, Publish(2)) && Leaks(t, Publish(2), 1)
  { }
}
