/** What every run of the delivery protocol keeps. */
module EventDeliveryProofs {
  import opened Wrappers
  import opened EventDelivery

  // ---------------------------------------------------------------- the invariant

  /** An entry this target may write: id offset + sequence, and the payload of that durable event. */
  ghost predicate Ours(s: State, e: Entry) {
    && s.origin.sequence < e.event.sequence <= |s.db.history|
    && e.event == s.db.history[e.event.sequence - 1]
    && e.ms == s.origin.offset + e.event.sequence && e.sub == 0
  }

  /** Event n was appended by this target, whether or not it was trimmed since. */
  ghost predicate Appended(s: State, n: int) {
    exists i | s.origin.count <= i < |s.redis.written| :: s.redis.written[i].event.sequence == n
  }

  /** No live event up to n was leapt over. */
  ghost predicate Covered(s: State, n: int) {
    forall k | k in s.db.live && s.origin.sequence < k <= n :: Appended(s, k)
  }

  function TopSequence(s: State): int {
    var w := s.redis.written;
    if |w| <= s.origin.count then s.origin.sequence else w[|w| - 1].event.sequence
  }

  ghost predicate RowOk(s: State, row: Row) {
    match row.offset
    case None => row.delivered == 0
    case Some(o) =>
      && o == s.origin.offset
      && s.origin.sequence <= row.delivered <= Max(|s.db.history|, s.origin.sequence)
      && Covered(s, row.delivered)
  }

  ghost predicate StreamOk(s: State) {
    var w := s.redis.written;
    && s.origin.count <= |w| && Increasing(w)
    && (w == [] || s.redis.head < |w|) && (w == [] ==> s.redis.head == 0)
    && (s.origin.count > 0 ==> w[s.origin.count - 1].ms <= s.origin.offset + s.origin.sequence)
    && (forall i | s.origin.count <= i < |w| :: Ours(s, w[i]))
    && (forall e | e in s.redis.late :: Ours(s, e) && Covered(s, e.event.sequence - 1))
    && Covered(s, TopSequence(s))
  }

  /** While no offset is stored and nothing was appended, a bootstrap would read the origin again. */
  ghost predicate OriginOk(s: State) {
    s.db.row.offset.None? && |s.redis.written| == s.origin.count ==> s.origin == OriginOf(s.db, s.redis)
  }

  ghost predicate TxnOk(s: State) {
    s.txn.Some? ==>
      var t := s.txn.value;
      t.target <= |s.db.history| && RowOk(s, t.row) && (t.row.offset.None? ==> t.row == s.db.row)
  }

  ghost predicate Inv(s: State) {
    LogOk(s.db) && StreamOk(s) && OriginOk(s) && RowOk(s, s.db.row) && TxnOk(s)
  }

  // ---------------------------------------------------------------- lookups

  /** Ids are unique, so growing the log by a fresh id or deleting another event keeps a lookup. */
  lemma {:induction false} LookupIgnores(a: Database, b: Database, id: string, n: nat, m: nat)
    requires n <= |a.history| && n <= m <= |b.history|
    requires forall i | 0 <= i < n :: a.history[i].id == b.history[i].id
    requires forall k | 1 <= k <= n && a.history[k - 1].id == id :: k in a.live <==> k in b.live
    requires forall i | n <= i < m :: b.history[i].id != id
    ensures Lookup(a, id, n) == Lookup(b, id, m)
    decreases m
  {
    hide Lookup;
    if m > n {
      assert b.history[m - 1].id != id;
      LookupOne(b, id, m);
      LookupIgnores(a, b, id, n, m - 1);
    } else if n > 0 {
      assert a.history[n - 1].id == b.history[n - 1].id;
      LookupOne(a, id, n);
      LookupOne(b, id, n);
      LookupIgnores(a, b, id, n - 1, n - 1);
    } else {
      LookupNone(a, id);
      LookupNone(b, id);
    }
  }

  lemma LookupOne(db: Database, id: string, n: nat)
    requires 0 < n <= |db.history|
    ensures Lookup(db, id, n) == if n in db.live && db.history[n - 1].id == id then n else Lookup(db, id, n - 1)
  { }

  lemma LookupNone(db: Database, id: string)
    ensures Lookup(db, id, 0) == 0
  { }

  lemma InitInv(s: State)
    requires Init(s)
    ensures Inv(s)
  {
    var w := s.redis.written;
    if w != [] {
      var tail := w[|w| - 1];
      assert s.origin.count == |w|;
    }
  }

  // ---------------------------------------------------------------- what a bootstrap reads

  /** The sequence an entry stands for: the one it carries, else that of the stored event it names, else 0. */
  ghost predicate StandsFor(db: Database, e: Entry, n: nat) {
    if e.event.sequence >= 1 then n == e.event.sequence
    else if n == 0 then
      e.event.id == "" || forall k | 1 <= k <= |db.history| && k in db.live :: db.history[k - 1].id != e.event.id
    else e.event.id != "" && n in db.live && n <= |db.history| && db.history[n - 1].id == e.event.id
  }

  /** n is what the last entry stands for, or 0 when there is none. */
  ghost predicate TailStandsFor(db: Database, entries: seq<Entry>, n: nat) {
    if entries == [] then n == 0 else StandsFor(db, entries[|entries| - 1], n)
  }

  /** Under this offset every sequence above n gets an id that XADD accepts. */
  ghost predicate Clears(redis: Redis, n: nat, offset: nat) {
    forall ms: nat | ms > offset + n :: Accepts(redis, ms)
  }

  lemma TailSequenceMeans(db: Database, e: Entry, n: nat)
    requires LogOk(db) && StandsFor(db, e, n)
    ensures TailSequence(db, e) == n
  {
    if e.event.sequence < 1 && e.event.id != "" {
      var k := Lookup(db, e.event.id, |db.history|);
    }
  }

  /** The recovered offset is the least under which every event after the tail's gets an id above the
      tail's. */
  lemma OffsetIsLeast(db: Database, redis: Redis, cursor: nat, n: nat)
    requires LogOk(db) && (redis.written == [] || redis.head < |redis.written|)
    requires TailStandsFor(db, Contents(redis), n)
    ensures var row, origin := BootstrapRow(db, redis, cursor), OriginOf(db, redis);
            && row.offset == Some(origin.offset) && origin.sequence == n && origin.count == |redis.written|
            && Clears(redis, n, origin.offset)
            && forall offset: nat | Clears(redis, n, offset) :: origin.offset <= offset
  {
    var w, origin := redis.written, OriginOf(db, redis);
    assert w != [] ==> Contents(redis)[|Contents(redis)| - 1] == w[|w| - 1];
    if w != [] { TailSequenceMeans(db, w[|w| - 1], n); }
    forall offset: nat | Clears(redis, n, offset) ensures origin.offset <= offset {
      assert Accepts(redis, offset + n + 1);
    }
  }

  /** A cursor from which the first stored event is already due, or behind. */
  ghost predicate Reaches(db: Database, cursor: nat) { exists k | k in db.live :: k <= cursor + 1 }

  /** The cursor never moves back, and no further than it has to: to what the tail stands for, or, with an
      empty stream, to where the first stored event is due. */
  lemma CursorIsLeast(db: Database, redis: Redis, cursor: nat, n: nat)
    requires LogOk(db) && TailStandsFor(db, Contents(redis), n)
    ensures var delivered := BootstrapRow(db, redis, cursor).delivered;
            && delivered >= cursor && delivered >= n
            && (Contents(redis) != [] ==> delivered == cursor || delivered == n)
            && (Contents(redis) == [] ==>
                 if db.live == {} then delivered == cursor
                 else Reaches(db, delivered) && forall c: nat | c >= cursor && Reaches(db, c) :: delivered <= c)
  {
    if Contents(redis) != [] {
      TailSequenceMeans(db, Contents(redis)[|Contents(redis)| - 1], n);
    } else {
      var first := NextLive(db, 0, |db.history|);
    }
  }

  // ---------------------------------------------------------------- one step

  lemma BootstrapReadsOrigin(s: State)
    requires Inv(s) && s.db.row.offset.None?
    ensures BootstrapRow(s.db, s.redis, 0).offset == Some(s.origin.offset)
    ensures |s.redis.written| > s.origin.count ==> BootstrapRow(s.db, s.redis, 0).delivered == TopSequence(s)
    ensures s.origin.count == |s.redis.written| > 0 ==> BootstrapRow(s.db, s.redis, 0).delivered == s.origin.sequence
    ensures RowOk(s, BootstrapRow(s.db, s.redis, 0))
  {
    var w := s.redis.written;
    if w != [] {
      assert Contents(s.redis)[|Contents(s.redis)| - 1] == w[|w| - 1];
      if |w| > s.origin.count { assert Ours(s, w[|w| - 1]); }
    }
  }

  lemma AppendKeepsStream(s: State, e: Entry)
    requires Inv(s) && Ours(s, e) && Accepts(s.redis, e.ms) && Covered(s, e.event.sequence - 1)
    ensures Inv(s.(redis := s.redis.(written := s.redis.written + [e])))
    ensures Appended(s.(redis := s.redis.(written := s.redis.written + [e])), e.event.sequence)
  {
    var w := s.redis.written;
    var t := s.(redis := s.redis.(written := w + [e]));
    assert t.redis.written[|w|] == e;
    AppendedGrows(s, t);
    forall i, j | 0 <= i < j < |w + [e]| ensures IdBelow((w + [e])[i], (w + [e])[j]) {
      if j == |w| {
        assert i == |w| - 1 || IdBelow(w[i], w[|w| - 1]);
      }
    }
    forall k | k in t.db.live && t.origin.sequence < k <= e.event.sequence ensures Appended(t, k) {
      if k == e.event.sequence { assert t.redis.written[|w|].event.sequence == k; }
    }
  }

  lemma AppendedGrows(s: State, t: State)
    requires s.origin == t.origin && s.redis.written <= t.redis.written
    ensures forall k | Appended(s, k) :: Appended(t, k)
  {
    forall k | Appended(s, k) ensures Appended(t, k) {
      var i :| s.origin.count <= i < |s.redis.written| && s.redis.written[i].event.sequence == k;
      assert t.redis.written[i].event.sequence == k;
    }
  }

  /** What an append that may fire has to offer, and why a refused one is a known event. */
  lemma DueOk(s: State)
    requires Inv(s) && CanAppend(s)
    ensures Ours(s, DueEntry(s)) && Covered(s, DueEntry(s).event.sequence - 1)
    ensures !Accepts(s.redis, DueEntry(s).ms) ==> Appended(s, Due(s))
  {
    var w := s.redis.written;
    if !Accepts(s.redis, DueEntry(s).ms) {
      assert w != [];
      assert |w| > s.origin.count;
      var top := w[|w| - 1];
      assert Ours(s, top);
      if top.event.sequence == Due(s) { assert w[|w| - 1].event.sequence == Due(s); }
    }
  }

  /** Growing the log or shrinking the live set keeps what was covered and what is ours. */
  lemma CoveredKept(s: State, t: State, n: int)
    requires s.origin == t.origin && s.redis.written <= t.redis.written && Covered(s, n)
    requires forall k | k in t.db.live && s.origin.sequence < k <= n :: k in s.db.live
    ensures Covered(t, n)
  {
    forall k | k in t.db.live && t.origin.sequence < k <= n ensures Appended(t, k) {
      AppendedGrows(s, t);
    }
  }

  lemma StreamKept(s: State, t: State)
    requires Inv(s) && s.origin == t.origin && s.redis == t.redis && s.db.history <= t.db.history
    requires forall k | k in t.db.live && k <= |s.db.history| :: k in s.db.live
    ensures StreamOk(t)
  {
    var w := s.redis.written;
    forall e | Ours(s, e) ensures Ours(t, e) { }
    forall e | e in t.redis.late ensures Covered(t, e.event.sequence - 1) {
      CoveredKept(s, t, e.event.sequence - 1);
    }
    if |w| > s.origin.count { assert Ours(s, w[|w| - 1]); }
    CoveredKept(s, t, TopSequence(s));
  }

  lemma RowKept(s: State, t: State, row: Row)
    requires s.origin == t.origin && s.redis.written <= t.redis.written && s.db.history <= t.db.history && RowOk(s, row)
    requires forall k | k in t.db.live && k <= |s.db.history| :: k in s.db.live
    ensures RowOk(t, row)
  {
    if row.offset.Some? { CoveredKept(s, t, row.delivered); }
  }

  lemma InsertInv(s: State, id: string, body: string)
    requires Inv(s) && Enabled(s, Insert(id, body))
    ensures Inv(Effect(s, Insert(id, body)))
  {
    var t := Effect(s, Insert(id, body));
    StreamKept(s, t);
    RowKept(s, t, s.db.row);
    OriginKept(s, t);
  }

  lemma OriginKept(s: State, t: State)
    requires Inv(s) && LogOk(t.db) && s.origin == t.origin && s.redis == t.redis && s.db.row == t.db.row
    requires s.db.history <= t.db.history
    requires s.db.row.offset.None? && LegacyTail(s) ==>
               var id := s.redis.written[s.origin.count - 1].event.id;
               && (id != "" ==> forall k | 1 <= k <= |s.db.history| && s.db.history[k - 1].id == id ::
                     k in s.db.live <==> k in t.db.live)
               && (id != "" ==> forall i | |s.db.history| <= i < |t.db.history| :: t.db.history[i].id != id)
    ensures OriginOk(t)
  {
    if s.db.row.offset.None? && LegacyTail(s) && s.redis.written[s.origin.count - 1].event.id != "" {
      LookupIgnores(s.db, t.db, s.redis.written[s.origin.count - 1].event.id, |s.db.history|, |t.db.history|);
    }
  }

  lemma DeleteInv(s: State, gone: set<nat>)
    requires Inv(s) && Enabled(s, Delete(gone))
    ensures Inv(Effect(s, Delete(gone)))
  {
    var t := Effect(s, Delete(gone));
    StreamKept(s, t);
    RowKept(s, t, s.db.row);
    TailEventKept(s, gone);
    OriginKept(s, t);
  }

  lemma TailEventKept(s: State, gone: set<nat>)
    requires Inv(s) && Enabled(s, Delete(gone))
    ensures s.db.row.offset.None? && LegacyTail(s) ==>
              var id := s.redis.written[s.origin.count - 1].event.id;
              id != "" ==> forall k | 1 <= k <= |s.db.history| && s.db.history[k - 1].id == id ::
                k in s.db.live <==> k in s.db.live - gone
  {
    if s.db.row.offset.None? && LegacyTail(s) {
      var id := s.redis.written[s.origin.count - 1].event.id;
      forall k | 1 <= k <= |s.db.history| && s.db.history[k - 1].id == id && id != ""
        ensures k in s.db.live <==> k in s.db.live - gone
      {
        if k in s.db.live { assert s.origin.sequence == k; }
      }
    }
  }

  /** Steps that change only the open transaction or the committed row. */
  lemma TxnInv(s: State, t: State)
    requires Inv(s) && t == s.(txn := t.txn, db := s.db.(row := t.db.row))
    requires RowOk(t, t.db.row) && OriginOk(t) && TxnOk(t)
    ensures Inv(t)
  {
    StreamKept(s, t);
  }

  /** The invariant of a transaction that moves its cursor forward over covered ground. */
  lemma CursorInv(s: State, cursor: nat)
    requires Inv(s) && s.txn.Some? && s.txn.value.row.offset.Some?
    requires s.txn.value.row.delivered <= cursor <= s.txn.value.target && Covered(s, cursor)
    ensures Inv(WithRow(s, s.txn.value.row.(delivered := cursor)))
  {
    var t := WithRow(s, s.txn.value.row.(delivered := cursor));
    RowKept(s, t, s.db.row);
    CoveredKept(s, t, cursor);
    TxnInv(s, t);
  }

  lemma SendInv(s: State)
    requires Inv(s) && CanAppend(s)
    ensures Inv(Effect(s, Send))
  {
    DueOk(s);
    SentKeepsInv(s, DueEntry(s));
  }

  lemma SentKeepsInv(s: State, e: Entry)
    requires Inv(s) && Ours(s, e) && Covered(s, e.event.sequence - 1)
    ensures Inv(s.(redis := s.redis.(late := s.redis.late + {e})))
  {
    hide Covered, RowOk, LogOk;
    var t := s.(redis := s.redis.(late := s.redis.late + {e}));
    RowKept(s, t, s.db.row);
    if s.txn.Some? { RowKept(s, t, s.txn.value.row); }
    LateKept(s, t, e);
    CoveredKept(s, t, TopSequence(s));
  }

  lemma LateKept(s: State, t: State, e: Entry)
    requires Inv(s) && t == s.(redis := s.redis.(late := s.redis.late + {e}))
    requires Ours(s, e) && Covered(s, e.event.sequence - 1)
    ensures forall e | e in t.redis.late :: Ours(t, e) && Covered(t, e.event.sequence - 1)
  {
    forall e | e in t.redis.late ensures Ours(t, e) && Covered(t, e.event.sequence - 1) {
      CoveredKept(s, t, e.event.sequence - 1);
    }
  }

  lemma TrimInv(s: State, count: nat)
    requires Inv(s) && Enabled(s, Trim(count))
    ensures Inv(Effect(s, Trim(count)))
  {
    var t := Effect(s, Trim(count));
    RowKept(s, t, s.db.row);
    if s.txn.Some? { RowKept(s, t, s.txn.value.row); }
    forall e | e in t.redis.late ensures Covered(t, e.event.sequence - 1) {
      CoveredKept(s, t, e.event.sequence - 1);
    }
    CoveredKept(s, t, TopSequence(s));
  }

  lemma AppendInv(s: State, a: Action)
    requires Inv(s) && Enabled(s, a) && (a.AppendNew? || a.AppendKnown?)
    ensures Inv(Effect(s, a))
  {
    DueOk(s);
    var u := if a.AppendNew? then s.(redis := s.redis.(written := s.redis.written + [DueEntry(s)])) else s;
    if a.AppendNew? { AppendKeepsStream(s, DueEntry(s)); }
    CoveredKept(s, u, Due(s) - 1);
    CursorInv(u, Due(s));
  }

  lemma TxnStepInv(s: State, a: Action)
    requires Inv(s) && Enabled(s, a) && (a.Begin? || a.Bootstrap? || a.Commit? || a.Rollback?)
    ensures Inv(Effect(s, a))
  {
    var t := Effect(s, a);
    if a.Bootstrap? { BootstrapReadsOrigin(s); }
    var row := if t.txn.Some? then t.txn.value.row else t.db.row;
    RowKept(s, t, row);
    RowKept(s, t, s.db.row);
    TxnInv(s, t);
  }

  lemma ArriveInv(s: State, e: Entry)
    requires Inv(s) && Enabled(s, Arrive(e))
    ensures Inv(Effect(s, Arrive(e)))
  {
    AppendKeepsStream(s, e);
  }

  lemma Basics(s: State)
    requires Inv(s) && s.txn.Some? && s.txn.value.row.offset.Some?
    ensures LogOk(s.db) && s.txn.value.target <= |s.db.history| && s.redis.head <= |s.redis.written|
    ensures s.txn.value.row.offset.value == s.origin.offset && s.origin.count <= |s.redis.written|
    ensures Covered(s, s.txn.value.row.delivered)
  { }

  /** Nothing live lies between the cursor and the event that is due next. */
  lemma GapCovered(s: State)
    requires s.txn.Some? && Covered(s, s.txn.value.row.delivered)
    ensures Covered(s, if Due(s) == 0 then s.txn.value.target else Due(s) - 1)
  {
    var cursor := if Due(s) == 0 then s.txn.value.target else Due(s) - 1;
    forall k | k in s.db.live && s.origin.sequence < k <= cursor ensures Appended(s, k) {
      assert k <= s.txn.value.row.delivered;
    }
  }

  lemma SkipInv(s: State)
    requires Inv(s) && Enabled(s, Skip)
    ensures Inv(Effect(s, Skip))
  {
    hide Inv, Covered;
    Basics(s);
    GapCovered(s);
    CursorInv(s, Due(s) - 1);
  }

  lemma FinishInv(s: State)
    requires Inv(s) && Enabled(s, Finish)
    ensures Inv(Effect(s, Finish))
  {
    hide Inv, Covered;
    Basics(s);
    GapCovered(s);
    CursorInv(s, s.txn.value.target);
  }

  lemma EffectInv(s: State, a: Action)
    requires Inv(s) && Enabled(s, a)
    ensures Inv(Effect(s, a))
  {
    match a
    case Insert(id, body) => InsertInv(s, id, body);
    case Delete(gone) => DeleteInv(s, gone);
    case AppendNew => AppendInv(s, a);
    case AppendKnown => AppendInv(s, a);
    case Send => SendInv(s);
    case Arrive(e) => ArriveInv(s, e);
    case Skip => SkipInv(s);
    case Finish => FinishInv(s);
    case Trim(count) => TrimInv(s, count);
    case Begin(_) => TxnStepInv(s, a);
    case Bootstrap => TxnStepInv(s, a);
    case Commit => TxnStepInv(s, a);
    case Rollback => TxnStepInv(s, a);
  }

  /** Every action keeps the invariant. */
  lemma StepInv(s: State, a: Action)
    requires Inv(s)
    ensures Inv(Step(s, a)) && Step(s, a).origin == s.origin
  {
    if Enabled(s, a) { EffectInv(s, a); }
  }

  lemma {:induction false} RunInv(s: State, actions: seq<Action>)
    requires Init(s)
    ensures Inv(Exec(s, actions)) && Exec(s, actions).origin == s.origin
  {
    if actions == [] { InitInv(s); }
    else {
      RunInv(s, actions[..|actions| - 1]);
      StepInv(Exec(s, actions[..|actions| - 1]), actions[|actions| - 1]);
    }
  }

  // ---------------------------------------------------------------- safety of every run

  lemma StepExtends(s: State, a: Action)
    ensures s.redis.written <= Step(s, a).redis.written
    ensures s.redis.head <= Step(s, a).redis.head
    ensures s.db.history <= Step(s, a).db.history
  {
    hide Enabled;
  }

  /** Redis never loses or reorders what was appended; only the head moves. */
  lemma {:induction false} RunExtends(s: State, actions: seq<Action>)
    ensures s.redis.written <= Exec(s, actions).redis.written
    ensures s.redis.head <= Exec(s, actions).redis.head
    ensures s.db.history <= Exec(s, actions).db.history
  {
    hide Step;
    if actions != [] {
      RunExtends(s, actions[..|actions| - 1]);
      StepExtends(Exec(s, actions[..|actions| - 1]), actions[|actions| - 1]);
    }
  }

  /** In every run the entries this target wrote carry strictly increasing sequences, each once, under
      id offset + sequence and with the payload of that durable event, all for one offset: the one
      fixed by the stream the target found, and the one it stores. */
  lemma OrderedDelivery(s: State, actions: seq<Action>)
    requires Init(s)
    ensures var t := Exec(s, actions);
            var w, count, offset := t.redis.written, s.origin.count, s.origin.offset;
            && count <= |w| && w[..count] == s.redis.written
            && (forall i | count <= i < |w| ::
                  && 1 <= w[i].event.sequence <= |t.db.history|
                  && w[i].event == t.db.history[w[i].event.sequence - 1]
                  && w[i].ms == offset + w[i].event.sequence && w[i].sub == 0)
            && (forall i, j | count <= i < j < |w| :: w[i].event.sequence < w[j].event.sequence)
            && (t.db.row.offset.Some? ==> t.db.row.offset.value == offset)
  {
    RunInv(s, actions);
    RunExtends(s, actions);
    var t := Exec(s, actions);
    forall i | s.origin.count <= i < |t.redis.written| ensures Ours(t, t.redis.written[i]) { }
  }

  ghost predicate InStream(s: State, n: int) {
    exists i | Max(s.origin.count, s.redis.head) <= i < |s.redis.written| :: s.redis.written[i].event.sequence == n
  }

  ghost predicate Trimmed(s: State, n: int) {
    exists i | s.origin.count <= i < s.redis.head && i < |s.redis.written| :: s.redis.written[i].event.sequence == n
  }

  lemma AppendedSplits(s: State, n: int)
    ensures Appended(s, n) <==> InStream(s, n) || Trimmed(s, n)
  {
    if Appended(s, n) {
      var i :| s.origin.count <= i < |s.redis.written| && s.redis.written[i].event.sequence == n;
      assert s.redis.written[i].event.sequence == n;
    }
  }

  /** Committing a delivery through t stores a cursor of at least t, and from then on every event still
      stored above the origin and up to the stored cursor is in the stream or was trimmed from its head. */
  lemma CommitDelivers(s: State, actions: seq<Action>, later: seq<Action>)
    requires Init(s) && Enabled(Exec(s, actions), Commit)
    ensures var t := Step(Exec(s, actions), Commit);
            && t.db.row.delivered >= Exec(s, actions).txn.value.target
            && t.db.row.offset == Some(s.origin.offset)
            && forall n | n in t.db.live && s.origin.sequence < n <= t.db.row.delivered ::
                 InStream(t, n) || Trimmed(t, n)
    ensures var u := Exec(Step(Exec(s, actions), Commit), later);
            forall n | n in u.db.live && s.origin.sequence < n <= u.db.row.delivered :: InStream(u, n) || Trimmed(u, n)
  {
    RunInv(s, actions);
    var t := Step(Exec(s, actions), Commit);
    StepInv(Exec(s, actions), Commit);
    forall n | n in t.db.live && s.origin.sequence < n <= t.db.row.delivered ensures InStream(t, n) || Trimmed(t, n) {
      AppendedSplits(t, n);
    }
    OffsetStays(t, later);
    var u := Exec(t, later);
    forall n | n in u.db.live && s.origin.sequence < n <= u.db.row.delivered ensures InStream(u, n) || Trimmed(u, n) {
      AppendedSplits(u, n);
    }
  }

  /** Once an offset is stored it stays stored. */
  lemma {:induction false} OffsetStays(s: State, actions: seq<Action>)
    requires Inv(s) && s.db.row.offset.Some?
    requires s.txn.Some? ==> s.txn.value.row.offset.Some?
    ensures var t := Exec(s, actions);
            && Inv(t) && t.origin == s.origin && t.db.row.offset == s.db.row.offset
            && (t.txn.Some? ==> t.txn.value.row.offset.Some?)
  {
    hide LogOk, Accepts, Known, LegacyTail, Covered;
    if actions != [] {
      OffsetStays(s, actions[..|actions| - 1]);
      var t := Exec(s, actions[..|actions| - 1]);
      StepInv(t, actions[|actions| - 1]);
    }
  }

  // ---------------------------------------------------------------- recovery

  lemma LaterIdsAbove(s: State, n: int)
    requires Inv(s) && n > TopSequence(s) && n > 0
    ensures Accepts(s.redis, s.origin.offset + n)
  {
    var w := s.redis.written;
    if |w| > s.origin.count { assert Ours(s, w[|w| - 1]); }
  }

  /** While no offset is stored, re-running the bootstrap after any rolled-back deliveries reads the same
      offset; the cursor is the last appended sequence; and every later id lies above the tail's. */
  lemma BootstrapRecovers(s: State, actions: seq<Action>, later: nat)
    requires Init(s) && Exec(s, actions).db.row.offset.None?
    ensures var t := Exec(s, actions);
            var w, row := t.redis.written, BootstrapRow(t.db, t.redis, t.db.row.delivered);
            && row.offset == Some(s.origin.offset)
            && (|w| > s.origin.count ==> row.delivered == w[|w| - 1].event.sequence)
            && (|w| == s.origin.count > 0 ==> row.delivered == s.origin.sequence)
            && (later > row.delivered ==> Accepts(t.redis, s.origin.offset + later))
  {
    RunInv(s, actions);
    var t := Exec(s, actions);
    BootstrapReadsOrigin(t);
    if later > BootstrapRow(t.db, t.redis, 0).delivered { LaterIdsAbove(t, later); }
  }

  /** Why a cleanup must spare the event a legacy tail names by id until an offset is stored: the next
      bootstrap reads the row it would have read exactly when that event is not deleted. */
  lemma LegacyTailMatters(s: State, gone: set<nat>)
    requires Inv(s) && s.db.row.offset.None? && LegacyTail(s) && s.origin.sequence >= 1
    ensures BootstrapRow(s.db.(live := s.db.live - gone), s.redis, s.db.row.delivered)
            == BootstrapRow(s.db, s.redis, s.db.row.delivered)
            <==> s.origin.sequence !in gone
  {
    var w := s.redis.written;
    var tail := w[|w| - 1];
    assert Contents(s.redis)[|Contents(s.redis)| - 1] == tail;
    var after := s.db.(live := s.db.live - gone);
    var n, k := s.origin.sequence, Lookup(after, tail.event.id, |after.history|);
    assert n == Lookup(s.db, tail.event.id, |s.db.history|);
    if n in gone {
      assert k == 0 by {
        assert forall j | 1 <= j <= |after.history| && j in after.live :: j != n;
      }
      assert TailSequence(after, tail) == 0;
    } else {
      assert n in after.live && after.history[n - 1].id == tail.event.id;
      assert k != 0 && s.db.history[k - 1].id == s.db.history[n - 1].id;
    }
  }

  // ---------------------------------------------------------------- convergence

  /** XADD is refused and the entry at that id is missing or different: the error is raised. */
  ghost predicate Conflict(s: State)
    requires CanAppend(s)
  {
    !Accepts(s.redis, DueEntry(s).ms) && !Known(s.redis, DueEntry(s))
  }

  lemma ContentsAt(redis: Redis, e: Entry)
    requires e in Contents(redis)
    ensures exists i | redis.head <= i < |redis.written| :: redis.written[i] == e
  {
    var j :| 0 <= j < |Contents(redis)| && Contents(redis)[j] == e;
    assert redis.written[redis.head + j] == e;
  }

  lemma Ordered(s: State)
    requires Inv(s)
    ensures forall i, j | s.origin.count <= i < j < |s.redis.written| ::
              s.redis.written[i].event.sequence < s.redis.written[j].event.sequence
  {
    var w := s.redis.written;
    forall i, j | s.origin.count <= i < j < |w| ensures w[i].event.sequence < w[j].event.sequence {
      assert Ours(s, w[i]) && Ours(s, w[j]) && IdBelow(w[i], w[j]);
    }
  }

  lemma ForeignBelow(s: State)
    requires StreamOk(s)
    ensures forall i | 0 <= i < s.origin.count :: s.redis.written[i].ms <= s.origin.offset + s.origin.sequence
  {
    var w := s.redis.written;
    forall i | 0 <= i < s.origin.count ensures w[i].ms <= w[s.origin.count - 1].ms {
      assert i == s.origin.count - 1 || IdBelow(w[i], w[s.origin.count - 1]);
    }
  }

  lemma SameIdSamePlace(w: seq<Entry>, i: nat, j: nat)
    requires Increasing(w) && i < |w| && j < |w| && w[i].ms == w[j].ms && w[i].sub == w[j].sub
    ensures i == j
  { }

  /** A refused entry passes the compare exactly when that very entry, payload included, is in the stream. */
  lemma KnownIff(redis: Redis, entry: Entry)
    requires Increasing(redis.written) && entry.sub == 0
    ensures Known(redis, entry) <==> entry in Contents(redis)
  {
    var found := XRange(Contents(redis), entry.ms);
    if found.Some? && entry in Contents(redis) {
      ContentsAt(redis, found.value);
      ContentsAt(redis, entry);
      var i :| redis.head <= i < |redis.written| && redis.written[i] == found.value;
      var j :| redis.head <= j < |redis.written| && redis.written[j] == entry;
      SameIdSamePlace(redis.written, i, j);
    }
  }

  lemma KnownIsInStream(s: State)
    requires Inv(s) && CanAppend(s) && Known(s.redis, DueEntry(s))
    ensures InStream(s, Due(s))
  {
    var w, e := s.redis.written, DueEntry(s);
    DueOk(s);
    var found := XRange(Contents(s.redis), e.ms).value;
    ContentsAt(s.redis, found);
    var i :| s.redis.head <= i < |w| && w[i] == found;
    ForeignBelow(s);
    assert w[i].event.sequence == Due(s);
  }

  lemma InStreamIsKnown(s: State)
    requires Inv(s) && CanAppend(s) && InStream(s, Due(s))
    ensures Known(s.redis, DueEntry(s))
  {
    hide NextLive, Covered, OriginOk, RowOk, TxnOk, Known;
    var w, e := s.redis.written, DueEntry(s);
    var i :| Max(s.origin.count, s.redis.head) <= i < |w| && w[i].event.sequence == Due(s);
    OursIsDue(s, w[i]);
    hide Ours, Contents, DueEntry, Due, EntryFor;
    InContents(s.redis, i);
    KnownIff(s.redis, e);
  }

  lemma InContents(redis: Redis, i: nat)
    requires redis.head <= i < |redis.written|
    ensures redis.written[i] in Contents(redis)
  {
    assert Contents(redis)[i - redis.head] == redis.written[i];
  }

  lemma OursIsDue(s: State, e: Entry)
    requires Inv(s) && CanAppend(s) && e in s.redis.written[s.origin.count..] && e.event.sequence == Due(s)
    ensures e == DueEntry(s) && DueEntry(s).sub == 0 && Increasing(s.redis.written)
  {
    assert Ours(s, e);
  }

  /** The due append raises an id conflict exactly when its event was trimmed from the head. */
  lemma ConflictIffTrimmed(s: State)
    requires Inv(s) && CanAppend(s)
    ensures Conflict(s) <==> Trimmed(s, Due(s))
  {
    if Known(s.redis, DueEntry(s)) { KnownIsInStream(s); }
    if InStream(s, Due(s)) { InStreamIsKnown(s); }
    DueOk(s);
    AppendedSplits(s, Due(s));
    Ordered(s);
    var w := s.redis.written;
    if Trimmed(s, Due(s)) {
      var i :| s.origin.count <= i < s.redis.head && i < |w| && w[i].event.sequence == Due(s);
      assert Ours(s, w[|w| - 1]) && w[i].event.sequence < w[|w| - 1].event.sequence;
    }
  }

  lemma HeadIsLowest(s: State)
    requires Inv(s)
    ensures forall e | e in Contents(s.redis) :: Contents(s.redis)[0].ms <= e.ms
  {
    var w := s.redis.written;
    forall e | e in Contents(s.redis) ensures Contents(s.redis)[0].ms <= e.ms {
      ContentsAt(s.redis, e);
      var i :| s.redis.head <= i < |w| && w[i] == e;
      assert i == s.redis.head || IdBelow(w[s.redis.head], w[i]);
    }
  }

  lemma ConflictIsBelow(s: State)
    requires Inv(s) && CanAppend(s) && Conflict(s)
    ensures Contents(s.redis) != [] && DueEntry(s).ms < Contents(s.redis)[0].ms
  {
    ConflictIffTrimmed(s);
    DueOk(s);
    hide RowOk, TxnOk, OriginOk, LogOk, Covered, Known, Lookup, NextLive, XRange, Conflict, Accepts;
    var w, h := s.redis.written, s.redis.head;
    var i :| s.origin.count <= i < h && i < |w| && w[i].event.sequence == Due(s);
    assert Ours(s, w[i]) && Ours(s, w[h]) && IdBelow(w[i], w[h]);
  }

  /** The same condition read off the stream: the due id lies below the first entry still there. */
  lemma ConflictIffBelowHead(s: State)
    requires Inv(s) && CanAppend(s)
    ensures Conflict(s) <==> Contents(s.redis) != [] && DueEntry(s).ms < Contents(s.redis)[0].ms
  {
    hide RowOk, TxnOk, OriginOk, LogOk, Covered, Lookup, NextLive, XRange;
    var w, h := s.redis.written, s.redis.head;
    if Conflict(s) {
      ConflictIsBelow(s);
    } else if Contents(s.redis) != [] {
      HeadIsLowest(s);
      assert w[|w| - 1] in Contents(s.redis) by { assert Contents(s.redis)[|w| - 1 - h] == w[|w| - 1]; }
    }
  }

  /** Event n, above the stored cursor, was appended by a delivery that rolled back and then trimmed. */
  ghost predicate Stuck(s: State, n: nat) {
    && s.db.row.offset.Some? && s.db.row.delivered < n && Trimmed(s, n)
    && (s.txn.Some? ==> s.txn.value.row.delivered < n)
  }

  lemma StuckStep(s: State, a: Action, n: nat)
    requires Inv(s) && Stuck(s, n) && n in Step(s, a).db.live && n <= |s.db.history|
    ensures n in s.db.live && Stuck(Step(s, a), n)
  {
    hide Inv, Trimmed, Accepts, Known, LegacyTail;
    TrimmedForGood(s, a, n);
    if Enabled(s, a) {
      if a.AppendNew? || a.AppendKnown? { ConflictIffTrimmed(s); }
      if a.Bootstrap? { StoredOffset(s); }
    }
  }

  lemma StoredOffset(s: State)
    requires Inv(s) && s.db.row.offset.Some? && s.txn.Some?
    ensures s.txn.value.row.offset.Some?
  { }

  lemma TrimmedForGood(s: State, a: Action, n: nat)
    requires Trimmed(s, n)
    ensures Trimmed(Step(s, a), n) && Step(s, a).origin == s.origin
  {
    hide Enabled;
    var i :| s.origin.count <= i < s.redis.head && i < |s.redis.written| && s.redis.written[i].event.sequence == n;
    StepExtends(s, a);
    assert Step(s, a).redis.written[i] == s.redis.written[i];
  }

  lemma {:induction false} StuckRun(s: State, actions: seq<Action>, n: nat)
    requires Inv(s) && Stuck(s, n) && n <= |s.db.history| && n in Exec(s, actions).db.live
    ensures n in s.db.live && Stuck(Exec(s, actions), n)
  {
    hide Inv, Stuck, Step;
    if actions != [] {
      var front, a := actions[..|actions| - 1], actions[|actions| - 1];
      var t := Exec(s, front);
      InvRun(s, front);
      RunExtends(s, front);
      LiveShrinks(t, a, n);
      StuckRun(s, front, n);
      StuckStep(t, a, n);
    }
  }

  lemma {:induction false} InvRun(s: State, actions: seq<Action>)
    requires Inv(s)
    ensures Inv(Exec(s, actions))
  {
    hide Inv, Step;
    if actions != [] {
      InvRun(s, actions[..|actions| - 1]);
      StepInv(Exec(s, actions[..|actions| - 1]), actions[|actions| - 1]);
    }
  }

  lemma LiveShrinks(s: State, a: Action, n: nat)
    requires n in Step(s, a).db.live && n <= |s.db.history|
    ensures n in s.db.live
  { }

  /** Such an event blocks the copy for good: while it stays in the log no delivery commits past it. */
  lemma BlockedForGood(s: State, actions: seq<Action>, n: nat)
    requires Inv(s) && Stuck(s, n) && n in s.db.live && n in Exec(s, actions).db.live
    ensures Exec(s, actions).db.row.delivered < n
  {
    StuckRun(s, actions, n);
  }

  // ---------------------------------------------------------------- one calm pass

  /** The live events with lo < sequence <= hi, in order. */
  function Pending(db: Database, lo: nat, hi: nat): (events: seq<Event>)
    requires hi <= |db.history|
    decreases hi - lo
  {
    if lo >= hi then []
    else (if lo + 1 in db.live then [db.history[lo]] else []) + Pending(db, lo + 1, hi)
  }

  /** One XADD with its compare-on-conflict branch, nobody interfering. */
  function AppendOne(redis: Redis, entry: Entry): Option<Redis> {
    if Accepts(redis, entry.ms) then Some(redis.(written := redis.written + [entry]))
    else if Known(redis, entry) then Some(redis)
    else None
  }

  /** One in-order pass over the events; None when an id conflict is raised. */
  function Pass(redis: Redis, offset: nat, events: seq<Event>): Option<Redis>
    requires forall e | e in events :: e.sequence >= 0
    decreases |events|
  {
    if events == [] then Some(redis)
    else
      match AppendOne(redis, EntryFor(offset, events[0]))
      case None => None
      case Some(next) => Pass(next, offset, events[1..])
  }

  /** The row a delivery starts from. */
  function FirstRow(db: Database, redis: Redis): Row {
    if db.row.offset.None? then BootstrapRow(db, redis, db.row.delivered) else db.row
  }

  lemma {:induction false} PendingNext(db: Database, lo: nat, hi: nat)
    requires hi <= |db.history| && LogOk(db)
    ensures forall e | e in Pending(db, lo, hi) :: e.sequence > lo
    ensures var n := NextLive(db, lo, hi);
            if n == 0 then Pending(db, lo, hi) == []
            else
              && Pending(db, lo, hi) == Pending(db, n - 1, hi)
              && Pending(db, lo, hi) == [db.history[n - 1]] + Pending(db, n, hi)
    decreases hi - lo
  {
    if lo < hi {
      var rest := Pending(db, lo + 1, hi);
      PendingNext(db, lo + 1, hi);
      if lo + 1 in db.live {
        assert Pending(db, lo, hi) == [db.history[lo]] + rest;
      } else {
        assert Pending(db, lo, hi) == rest;
      }
    }
  }

  /** The pass over everything pending between two cursors. */
  ghost function PassThrough(db: Database, redis: Redis, offset: nat, lo: nat, hi: nat): Option<Redis>
    requires LogOk(db) && hi <= |db.history|
  {
    PendingNext(db, lo, hi);
    Pass(redis, offset, Pending(db, lo, hi))
  }

  /** The entries among these events that lie above a sequence. */
  function Above(offset: nat, top: int, events: seq<Event>): seq<Entry>
    requires forall e | e in events :: e.sequence >= 0
  {
    if events == [] then []
    else (if events[0].sequence > top then [EntryFor(offset, events[0])] else []) + Above(offset, top, events[1..])
  }

  /** The entries a pass from lo to hi still has to append. */
  ghost function Missing(s: State, lo: nat, hi: nat): seq<Entry>
    requires LogOk(s.db) && hi <= |s.db.history|
  {
    PendingNext(s.db, lo, hi);
    Above(s.origin.offset, TopSequence(s), Pending(s.db, lo, hi))
  }

  ghost predicate NoneTrimmed(s: State, lo: int, hi: int) {
    forall n | n in s.db.live && lo < n <= hi :: !Trimmed(s, n)
  }

  lemma {:induction false} AboveSame(offset: nat, a: int, b: int, events: seq<Event>)
    requires forall e | e in events :: e.sequence >= 0 && e.sequence > a && e.sequence > b
    ensures Above(offset, a, events) == Above(offset, b, events)
  {
    if events != [] { AboveSame(offset, a, b, events[1..]); }
  }

  lemma TrimmedStays(s: State, t: State)
    requires s.origin == t.origin && s.redis.written <= t.redis.written
    requires s.redis.head == t.redis.head && (s.redis.head <= |s.redis.written| || s.redis == t.redis)
    ensures forall n :: Trimmed(s, n) <==> Trimmed(t, n)
  {
    forall n ensures Trimmed(s, n) <==> Trimmed(t, n) {
      if Trimmed(t, n) {
        var i :| t.origin.count <= i < t.redis.head && i < |t.redis.written| && t.redis.written[i].event.sequence == n;
        assert s.redis.written[i].event.sequence == n;
      }
      if Trimmed(s, n) {
        var i :| s.origin.count <= i < s.redis.head && i < |s.redis.written| && s.redis.written[i].event.sequence == n;
        assert t.redis.written[i].event.sequence == n;
      }
    }
  }

  /** An undisturbed pass from cursor c up to t raises an id conflict exactly when a pending event was
      trimmed; otherwise it appends just the pending events above the top, in order. */
  ghost predicate Calm(s: State, c: nat, t: nat)
    requires LogOk(s.db) && t <= |s.db.history|
  {
    var after := PassThrough(s.db, s.redis, s.origin.offset, c, t);
    && (after.Some? <==> NoneTrimmed(s, c, t))
    && (after.Some? ==> after.value == s.redis.(written := s.redis.written + Missing(s, c, t)))
  }

  function Closed(s: State): State { s.(txn := None) }

  lemma {:induction false} CalmPass(s: State)
    requires Inv(s) && s.txn.Some? && s.txn.value.row.offset.Some?
    ensures Calm(Closed(s), s.txn.value.row.delivered, s.txn.value.target)
    decreases s.txn.value.target - s.txn.value.row.delivered
  {
    hide Calm, Inv;
    Basics(s);
    var c, t := s.txn.value.row.delivered, s.txn.value.target;
    var n := NextLive(s.db, c, t);
    if n == 0 {
      CalmEmpty(Closed(s), c, t);
    } else if n > c + 1 {
      CalmPassSkip(s);
    } else {
      CalmPassAppend(s);
    }
  }

  lemma {:induction false} CalmPassSkip(s: State)
    requires Inv(s) && Enabled(s, Skip)
    ensures Calm(Closed(s), s.txn.value.row.delivered, s.txn.value.target)
    decreases s.txn.value.target - s.txn.value.row.delivered, 0
  {
    hide Calm, Inv;
    Basics(s);
    SkipInv(s);
    var u := Effect(s, Skip);
    CalmPass(u);
    assert Closed(u) == Closed(s);
    CalmSkip(Closed(s), s.txn.value.row.delivered, Due(s), s.txn.value.target);
  }

  lemma {:induction false} CalmPassAppend(s: State)
    requires Inv(s) && CanAppend(s)
    ensures Calm(Closed(s), s.txn.value.row.delivered, s.txn.value.target)
    decreases s.txn.value.target - s.txn.value.row.delivered, 0
  {
    hide Calm, Inv, Trimmed;
    Basics(s);
    var n, t := Due(s), s.txn.value.target;
    ConflictIffTrimmed(s);
    AcceptsIffAbove(s);
    if Conflict(s) {
      CalmConflict(s);
    } else {
      var a := if Accepts(s.redis, DueEntry(s).ms) then AppendNew else AppendKnown;
      AppendInv(s, a);
      CalmPass(Effect(s, a));
      TopMoves(s, a);
      TrimmedStays(s, Closed(s));
      CalmAppend(Closed(s), Closed(Effect(s, a)), n, t, DueEntry(s));
    }
  }

  lemma TopMoves(s: State, a: Action)
    requires s.origin.count <= |s.redis.written| && Enabled(s, a) && (a.AppendNew? || a.AppendKnown?)
    requires Accepts(s.redis, DueEntry(s).ms) <==> Due(s) > TopSequence(s)
    ensures TopSequence(Closed(Effect(s, a))) == Max(Due(s), TopSequence(s)) && TopSequence(Closed(s)) == TopSequence(s)
  { }

  lemma CalmConflict(s: State)
    requires LogOk(s.db) && CanAppend(s) && s.txn.value.target <= |s.db.history|
    requires Conflict(s) && Trimmed(s, Due(s)) && s.txn.value.row.offset == Some(s.origin.offset)
    ensures Calm(Closed(s), s.txn.value.row.delivered, s.txn.value.target)
  {
    var u, n := Closed(s), Due(s);
    PendingNext(s.db, s.txn.value.row.delivered, s.txn.value.target);
    TrimmedStays(s, u);
    assert Trimmed(u, n) && n in u.db.live;
  }

  lemma CalmEmpty(s: State, c: nat, t: nat)
    requires LogOk(s.db) && t <= |s.db.history| && NextLive(s.db, c, t) == 0
    ensures Calm(s, c, t)
  {
    PendingNext(s.db, c, t);
    assert s.redis.written + [] == s.redis.written;
  }

  lemma CalmSkip(s: State, c: nat, n: nat, t: nat)
    requires LogOk(s.db) && t <= |s.db.history| && n == NextLive(s.db, c, t) != 0 && Calm(s, n - 1, t)
    ensures Calm(s, c, t)
  {
    PendingNext(s.db, c, t);
    PendingNext(s.db, n - 1, t);
    assert NoneTrimmed(s, c, t) <==> NoneTrimmed(s, n - 1, t);
  }

  lemma NoneTrimmedAfter(s: State, u: State, n: int, t: nat)
    requires s.origin == u.origin && s.redis.written <= u.redis.written && s.db.live == u.db.live
    requires s.redis.head == u.redis.head <= |s.redis.written|
    requires n in s.db.live && n <= t && !Trimmed(s, n)
    ensures NoneTrimmed(s, n - 1, t) <==> NoneTrimmed(u, n, t)
  {
    TrimmedStays(s, u);
    if NoneTrimmed(u, n, t) {
      forall k | k in s.db.live && n - 1 < k <= t ensures !Trimmed(s, k) { assert k != n ==> !Trimmed(u, k); }
    }
    if NoneTrimmed(s, n - 1, t) {
      forall k | k in u.db.live && n < k <= t ensures !Trimmed(u, k) { assert !Trimmed(s, k); }
    }
  }

  lemma AboveAppended(before: seq<Entry>, after: seq<Entry>, offset: nat, top: int, n: nat, events: seq<Event>)
    requires events != [] && events[0].sequence == n
    requires forall e | e in events :: e.sequence >= 0
    requires forall e | e in events[1..] :: e.sequence > n
    requires after == if n > top then before + [EntryFor(offset, events[0])] else before
    ensures before + Above(offset, top, events) == after + Above(offset, Max(n, top), events[1..])
  {
    AboveCons(offset, top, events);
    hide Above;
    var x, rest := EntryFor(offset, events[0]), events[1..];
    if n > top {
      AboveSame(offset, top, n, rest);
      assert before + ([x] + Above(offset, n, rest)) == (before + [x]) + Above(offset, n, rest);
    }
  }

  lemma AboveCons(offset: nat, top: int, events: seq<Event>)
    requires events != [] && forall e | e in events :: e.sequence >= 0
    ensures Above(offset, top, events) ==
            if events[0].sequence > top then [EntryFor(offset, events[0])] + Above(offset, top, events[1..])
            else Above(offset, top, events[1..])
  { }

  lemma PassStep(redis: Redis, next: Redis, offset: nat, events: seq<Event>)
    requires events != [] && forall e | e in events :: e.sequence >= 0
    requires AppendOne(redis, EntryFor(offset, events[0])) == Some(next)
    ensures Pass(redis, offset, events) == Pass(next, offset, events[1..])
  { }

  lemma CalmAppend(s: State, u: State, n: nat, t: nat, entry: Entry)
    requires LogOk(s.db) && 1 <= n <= t <= |s.db.history| && NextLive(s.db, n - 1, t) == n
    requires s.redis.head <= |s.redis.written| && u == s.(redis := u.redis)
    requires entry == EntryFor(s.origin.offset, s.db.history[n - 1]) && AppendOne(s.redis, entry) == Some(u.redis)
    requires Accepts(s.redis, entry.ms) <==> n > TopSequence(s)
    requires TopSequence(u) == Max(n, TopSequence(s)) && !Trimmed(s, n) && Calm(u, n, t)
    ensures Calm(s, n - 1, t)
  {
    hide LogOk, NextLive, PassThrough, Missing, NoneTrimmed;
    NoneTrimmedAfter(s, u, n, t);
    PassMoves(s, u.redis, n, t);
    MissingMoves(s, u, n, t);
    WrittenGrows(s.redis, entry);
  }

  lemma WrittenGrows(redis: Redis, entry: Entry)
    requires AppendOne(redis, entry).Some?
    ensures var after := AppendOne(redis, entry).value;
            after == redis.(written := after.written)
            && after.written == if Accepts(redis, entry.ms) then redis.written + [entry] else redis.written
  { }

  /** The pass up to t is the append of the due event and then the pass from there. */
  lemma PassMoves(s: State, after: Redis, n: nat, t: nat)
    requires LogOk(s.db) && 1 <= n <= t <= |s.db.history| && NextLive(s.db, n - 1, t) == n
    requires AppendOne(s.redis, EntryFor(s.origin.offset, s.db.history[n - 1])) == Some(after)
    ensures PassThrough(s.db, s.redis, s.origin.offset, n - 1, t) == PassThrough(s.db, after, s.origin.offset, n, t)
  {
    hide AppendOne;
    var events := Pending(s.db, n - 1, t);
    PendingNext(s.db, n - 1, t);
    PendingNext(s.db, n, t);
    assert events[1..] == Pending(s.db, n, t) && events[0] == s.db.history[n - 1];
    PassStep(s.redis, after, s.origin.offset, events);
  }

  lemma MissingMoves(s: State, u: State, n: nat, t: nat)
    requires LogOk(s.db) && 1 <= n <= t <= |s.db.history| && NextLive(s.db, n - 1, t) == n && u == s.(redis := u.redis)
    requires TopSequence(u) == Max(n, TopSequence(s))
    requires u.redis.written == if n > TopSequence(s)
                                then s.redis.written + [EntryFor(s.origin.offset, s.db.history[n - 1])]
                                else s.redis.written
    ensures s.redis.written + Missing(s, n - 1, t) == u.redis.written + Missing(u, n, t)
  {
    var o, events := s.origin.offset, Pending(s.db, n - 1, t);
    PendingNext(s.db, n - 1, t);
    PendingNext(s.db, n, t);
    assert events[1..] == Pending(s.db, n, t) && events[0] == s.db.history[n - 1];
    AboveAppended(s.redis.written, u.redis.written, o, TopSequence(s), n, events);
  }

  lemma AcceptsIffAbove(s: State)
    requires Inv(s) && CanAppend(s)
    ensures Accepts(s.redis, DueEntry(s).ms) <==> Due(s) > TopSequence(s)
  {
    var w := s.redis.written;
    if |w| > s.origin.count { assert Ours(s, w[|w| - 1]); }
  }
}
