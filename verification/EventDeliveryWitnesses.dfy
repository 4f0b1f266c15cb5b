/** Runs from the start in which the delivery meets the two situations it cannot get out of. */
module EventDeliveryWitnesses {
  import opened Wrappers
  import opened EventDelivery
  import opened EventDeliveryProofs

  lemma Next(s: State, actions: seq<Action>, t: State, a: Action)
    requires Exec(s, actions) == t && Enabled(t, a)
    ensures Exec(s, actions + [a]) == Effect(t, a)
  {
    assert (actions + [a])[..|actions + [a]| - 1] == actions;
  }

  // ---------------------------------------------------------------- an id conflict

  const ONE := Event(1, "a", "")
  const TWO := Event(2, "b", "")
  const THREE := Event(3, "c", "")

  /** An empty log and an empty stream. */
  function Empty(): State {
    State(Origin(0, 0, 0), Database([], {}, Row(0, None)), Redis([], 0, {}), None)
  }

  /** Event 1 is delivered. Later events 2 and 3 are appended by a delivery that rolls back, and then the
      first two entries are trimmed. */
  function FirstCommit(): seq<Action> {
    [Insert("a", "")] + [Begin(1)] + [Bootstrap] + [AppendNew] + [Commit]
  }

  function After(events: seq<Event>, live: set<nat>, row: Row, entries: seq<Entry>, txn: Option<Txn>): State {
    State(Origin(0, 0, 0), Database(events, live, row), Redis(entries, 0, {}), txn)
  }

  /** One step with its result spelled out. */
  lemma To(actions: seq<Action>, t: State, a: Action, u: State)
    requires Exec(Empty(), actions) == t && Enabled(t, a) && Effect(t, a) == u
    ensures Exec(Empty(), actions + [a]) == u
  {
    Next(Empty(), actions, t, a);
  }

  lemma NothingDone(s: State)
    ensures Exec(s, []) == s
  { }

  lemma FirstCommits()
    ensures Exec(Empty(), FirstCommit()) == After([ONE], {1}, Row(1, Some(0)), [Entry(1, 0, ONE)], None)
  {
    hide Exec;
    var r, r', e := Row(0, None), Row(0, Some(0)), Entry(1, 0, ONE);
    NothingDone(Empty());
    assert [] + [Insert("a", "")] == [Insert("a", "")];
    To([], Empty(), Insert("a", ""), After([ONE], {1}, r, [], None));
    var done := [Insert("a", "")];
    To(done, After([ONE], {1}, r, [], None), Begin(1), After([ONE], {1}, r, [], Some(Txn(1, r))));
    done := done + [Begin(1)];
    To(done, After([ONE], {1}, r, [], Some(Txn(1, r))), Bootstrap, After([ONE], {1}, r, [], Some(Txn(1, r'))));
    done := done + [Bootstrap];
    To(done, After([ONE], {1}, r, [], Some(Txn(1, r'))), AppendNew,
       After([ONE], {1}, r, [e], Some(Txn(1, Row(1, Some(0))))));
    done := done + [AppendNew];
    To(done, After([ONE], {1}, r, [e], Some(Txn(1, Row(1, Some(0))))), Commit,
       After([ONE], {1}, Row(1, Some(0)), [e], None));
  }

  function Entries(): seq<Entry> { [Entry(1, 0, ONE), Entry(2, 0, TWO), Entry(3, 0, THREE)] }

  lemma TwoInserted()
    ensures Exec(Empty(), FirstCommit() + [Insert("b", "")] + [Insert("c", "")]) ==
            After([ONE, TWO, THREE], {1, 2, 3}, Row(1, Some(0)), Entries()[..1], None)
  {
    hide Exec;
    var r := Row(1, Some(0));
    FirstCommits();
    To(FirstCommit(), After([ONE], {1}, r, Entries()[..1], None), Insert("b", ""),
       After([ONE, TWO], {1, 2}, r, Entries()[..1], None));
    To(FirstCommit() + [Insert("b", "")], After([ONE, TWO], {1, 2}, r, Entries()[..1], None), Insert("c", ""),
       After([ONE, TWO, THREE], {1, 2, 3}, r, Entries()[..1], None));
  }

  function Second(): seq<Action> { FirstCommit() + [Insert("b", "")] + [Insert("c", "")] }

  /** The stream then holds entries 1 to 3 while the stored cursor is 1. */
  lemma RollsBack()
    ensures Exec(Empty(), Second() + [Begin(3)] + [AppendNew] + [AppendNew] + [Rollback]) ==
            After([ONE, TWO, THREE], {1, 2, 3}, Row(1, Some(0)), Entries(), None)
  {
    hide Exec;
    var h, r := [ONE, TWO, THREE], Row(1, Some(0));
    TwoInserted();
    To(Second(), After(h, {1, 2, 3}, r, Entries()[..1], None), Begin(3),
       After(h, {1, 2, 3}, r, Entries()[..1], Some(Txn(3, r))));
    To(Second() + [Begin(3)], After(h, {1, 2, 3}, r, Entries()[..1], Some(Txn(3, r))), AppendNew,
       After(h, {1, 2, 3}, r, Entries()[..2], Some(Txn(3, Row(2, Some(0))))));
    To(Second() + [Begin(3)] + [AppendNew],
       After(h, {1, 2, 3}, r, Entries()[..2], Some(Txn(3, Row(2, Some(0))))), AppendNew,
       After(h, {1, 2, 3}, r, Entries(), Some(Txn(3, Row(3, Some(0))))));
    To(Second() + [Begin(3)] + [AppendNew] + [AppendNew],
       After(h, {1, 2, 3}, r, Entries(), Some(Txn(3, Row(3, Some(0))))),
       Rollback, After(h, {1, 2, 3}, r, Entries(), None));
  }

  function ConflictRun(): seq<Action> {
    Second() + [Begin(3)] + [AppendNew] + [AppendNew] + [Rollback] + [Trim(2)] + [Begin(3)]
  }

  /** The next delivery raises an id conflict, and event 2 is stuck. */
  lemma ConflictIsReachable()
    ensures var t := Exec(Empty(), ConflictRun());
            Init(Empty()) && CanAppend(t) && Due(t) == 2 && Conflict(t) && Stuck(t, 2) && 2 in t.db.live
  {
    hide Exec;
    var h, r := [ONE, TWO, THREE], Row(1, Some(0));
    var before := Second() + [Begin(3)] + [AppendNew] + [AppendNew] + [Rollback];
    RollsBack();
    var t := After(h, {1, 2, 3}, r, Entries(), None);
    var u := t.(redis := Redis(Entries(), 2, {}));
    To(before, t, Trim(2), u);
    To(before + [Trim(2)], u, Begin(3), u.(txn := Some(Txn(3, r))));
    assert u.redis.written[1].event.sequence == 2;
  }

  // ---------------------------------------------------------------- a legacy tail

  /** A stream whose only entry names event 1 by id, whatever its milliseconds. */
  function Legacy(ms: nat): State {
    State(Origin(1, 1, Max(0, ms - 1)), Database([ONE], {1}, Row(0, None)),
          Redis([Entry(ms, 1, Event(0, "a", ""))], 0, {}), None)
  }

  /** If that event is deleted before an offset is stored, the bootstrap loses the cursor, and with it the
      offset unless the id's milliseconds are zero. */
  lemma LegacyTailLost(ms: nat)
    ensures var s := Legacy(ms);
            && Init(s) && LegacyTail(s) && s.origin.sequence == 1
            && BootstrapRow(s.db, s.redis, 0) == Row(1, Some(Max(0, ms - 1)))
            && BootstrapRow(s.db.(live := s.db.live - {1}), s.redis, 0) == Row(0, Some(ms))
  {
    var s := Legacy(ms);
    assert Contents(s.redis) == s.redis.written;
    assert Lookup(s.db, "a", 1) == 1;
    assert Lookup(s.db.(live := s.db.live - {1}), "a", 0) == 0;
  }
}
