/** The delivery and emit loops, statement by statement, refining the step system. */
module EventDeliveryLoop {
  import opened Wrappers
  import opened EventDelivery
  import opened EventDeliveryProofs

  const MAX_DELIVERY_BATCH := 100

  /** What other processes do to Redis just before one of our commands reaches it. */
  datatype Weather = Late(entry: Entry) | DropHead(count: nat)

  /** The weather before an XADD, the weather before the compare read, whether the XADD's reply is lost
      (with the command left in flight), and whether the compare read raises. */
  datatype Disturbance = Disturbance(before: seq<Weather>, compare: seq<Weather>, lost: bool, unread: bool)

  const CALM := Disturbance([], [], false, false)

  datatype Reply = Acknowledged | Unanswered | Refused

  datatype Outcome = Committed | ConnectionLost | IdConflict

  function At(script: seq<Disturbance>, k: nat): (d: Disturbance)
    ensures d in script || (d == CALM && k >= |script|)
  {
    if k < |script| then script[k] else CALM
  }

  /** The SELECT of one batch: live events in order, at most MAX_DELIVERY_BATCH of them. */
  function Batch(db: Database, cursor: nat, target: nat): (rows: seq<Event>)
    requires target <= |db.history|
    ensures |rows| <= MAX_DELIVERY_BATCH && rows <= Pending(db, cursor, target)
    ensures rows == [] <==> Pending(db, cursor, target) == []
  {
    var all := Pending(db, cursor, target);
    if |all| <= MAX_DELIVERY_BATCH then all else all[..MAX_DELIVERY_BATCH]
  }

  /** The first pending event is the one that is due, and the pass begins by appending it. */
  lemma NextRow(db: Database, redis: Redis, offset: nat, lo: nat, hi: nat)
    requires LogOk(db) && hi <= |db.history| && Pending(db, lo, hi) != []
    ensures var e := Pending(db, lo, hi)[0];
            && e.sequence == NextLive(db, lo, hi) > lo && e.sequence <= hi && e == db.history[e.sequence - 1]
            && Pending(db, e.sequence, hi) == Pending(db, lo, hi)[1..]
            && match AppendOne(redis, EntryFor(offset, e))
               case None => PassThrough(db, redis, offset, lo, hi) == None
               case Some(next) =>
                 PassThrough(db, redis, offset, lo, hi) == PassThrough(db, next, offset, e.sequence, hi)
  {
    PendingNext(db, lo, hi);
    var n := NextLive(db, lo, hi);
    PendingNext(db, n, hi);
    assert Pending(db, lo, hi)[1..] == Pending(db, n, hi);
  }

  lemma LogStaysOk(s: State, actions: seq<Action>)
    requires Init(s)
    ensures LogOk(Exec(s, actions).db)
  {
    RunInv(s, actions);
  }

  lemma ExecOne(s: State, actions: seq<Action>, a: Action)
    ensures Exec(s, actions + [a]) == Step(Exec(s, actions), a)
  {
    assert (actions + [a])[..|actions + [a]| - 1] == actions;
  }

  /** A run extended by one enabled action. */
  lemma Took(start: State, trace: seq<Action>, s: State, a: Action)
    requires Exec(start, trace) == s && Enabled(s, a)
    ensures Exec(start, trace + [a]) == Effect(s, a)
  {
    ExecOne(start, trace, a);
  }

  lemma TookRedis(start: State, trace: seq<Action>, s: State, a: Action, redis: Redis)
    requires Exec(start, trace) == s
    requires match a
             case Arrive(e) =>
               e in s.redis.late && Accepts(s.redis, e.ms) && redis == s.redis.(written := s.redis.written + [e])
             case Trim(count) =>
               s.redis.head + count < |s.redis.written| && redis == s.redis.(head := s.redis.head + count)
             case Send => CanAppend(s) && redis == s.redis.(late := s.redis.late + {DueEntry(s)})
             case _ => false
    ensures Exec(start, trace + [a]) == s.(redis := redis)
  {
    Took(start, trace, s, a);
  }

  lemma TookAppend(start: State, trace: seq<Action>, s: State, redis: Redis)
    requires Exec(start, trace) == s && CanAppend(s) && AppendOne(s.redis, DueEntry(s)) == Some(redis)
    ensures var a := if Accepts(s.redis, DueEntry(s).ms) then AppendNew else AppendKnown;
            Exec(start, trace + [a]) == WithRow(s, Row(Due(s), s.txn.value.row.offset)).(redis := redis)
  {
    Took(start, trace, s, if Accepts(s.redis, DueEntry(s).ms) then AppendNew else AppendKnown);
  }

  lemma TookRow(start: State, trace: seq<Action>, s: State, a: Action, row: Row)
    requires Exec(start, trace) == s && s.txn.Some?
    requires match a
             case Bootstrap =>
               s.txn.value.row.offset.None? && row == BootstrapRow(s.db, s.redis, s.txn.value.row.delivered)
             case Skip =>
               && s.txn.value.row.offset.Some? && Due(s) > s.txn.value.row.delivered + 1
               && row == Row(Due(s) - 1, s.txn.value.row.offset)
             case Finish =>
               && s.txn.value.row.offset.Some? && s.txn.value.row.delivered < s.txn.value.target && Due(s) == 0
               && row == Row(s.txn.value.target, s.txn.value.row.offset)
             case _ => false
    ensures Exec(start, trace + [a]) == WithRow(s, row)
  {
    Took(start, trace, s, a);
  }

  lemma RefusedIsTrimmed(start: State, trace: seq<Action>, s: State)
    requires Init(start) && Exec(start, trace) == s && CanAppend(s) && Conflict(s)
    ensures Trimmed(s, Due(s))
  {
    Reachable(start, trace);
    ConflictIffTrimmed(s);
  }

  lemma NeverBack(db: Database, redis: Redis)
    ensures FirstRow(db, redis).delivered >= db.row.delivered && FirstRow(db, redis).offset.Some?
  { }

  lemma NothingLeft(db: Database, redis: Redis, offset: nat, cursor: nat, target: nat)
    requires LogOk(db) && target <= |db.history| && (cursor >= target || Pending(db, cursor, target) == [])
    ensures PassThrough(db, redis, offset, cursor, target) == Some(redis)
  { }

  lemma WiderTrimmed(s: State, lo: nat, mid: nat, hi: nat)
    requires lo <= mid && !NoneTrimmed(s, mid, hi)
    ensures !NoneTrimmed(Closed(s), lo, hi)
  {
    var n :| n in s.db.live && mid < n <= hi && Trimmed(s, n);
    assert Trimmed(Closed(s), n);
  }

  /** What an undisturbed delivery from s does: one in-order pass over everything pending. */
  ghost predicate CalmResult(s: State, target: nat, outcome: Outcome, row: Row, redis: Redis) {
    && LogOk(s.db) && target <= |s.db.history|
    && var first := FirstRow(s.db, s.redis);
      match PassThrough(s.db, s.redis, first.offset.value, first.delivered, target)
      case None => outcome == IdConflict && row == s.db.row
      case Some(after) =>
        outcome == Committed && redis == after && row == first.(delivered := Max(first.delivered, target))
  }

  class OrderedEventStreamDelivery {
    var db: Database
    var redis: Redis
    var connection: Option<Txn>
    // The run so far: where it started and every step taken since, our own and the environment's.
    ghost var start: State
    ghost var trace: seq<Action>

    ghost function Now(): State
      reads this
    {
      State(start.origin, db, redis, connection)
    }

    /** The object's state is one the step system reaches. */
    ghost predicate Valid()
      reads this
    {
      Init(start) && Exec(start, trace) == Now()
    }

    constructor (db: Database, redis: Redis)
      requires LogOk(db) && db.row == Row(0, None)
      requires Increasing(redis.written) && redis.head == 0 && redis.late == {}
      ensures Valid() && this.db == db && this.redis == redis && connection.None? && trace == []
    {
      this.db, this.redis, this.connection := db, redis, None;
      start, trace := State(OriginOf(db, redis), db, redis, None), [];
    }

    method Land(entry: Entry)
      requires Valid()
      modifies this`redis, this`trace
      ensures Valid() && old(trace) <= trace && redis.late == old(redis.late)
      ensures redis == if entry in old(redis).late && Accepts(old(redis), entry.ms)
                       then old(redis).(written := old(redis).written + [entry]) else old(redis)
      ensures forall ms: nat :: Accepts(redis, ms) ==> Accepts(old(redis), ms)
    {
      hide Init, Exec, Enabled, Effect;
      if entry in redis.late && Accepts(redis, entry.ms) {
        TookRedis(start, trace, Now(), Arrive(entry), redis.(written := redis.written + [entry]));
        redis := redis.(written := redis.written + [entry]);
        trace := trace + [Arrive(entry)];
      }
    }

    method Drop(count: nat)
      requires Valid()
      modifies this`redis, this`trace
      ensures Valid() && old(trace) <= trace && redis.late == old(redis.late)
      ensures redis.head == old(redis).head + if old(redis).head + count < |old(redis).written| then count else 0
      ensures forall ms: nat :: Accepts(redis, ms) ==> Accepts(old(redis), ms)
    {
      hide Init, Exec, Enabled, Effect;
      if redis.head + count < |redis.written| {
        TookRedis(start, trace, Now(), Trim(count), redis.(head := redis.head + count));
        redis := redis.(head := redis.head + count);
        trace := trace + [Trim(count)];
      }
    }

    /** Late commands land and heads are trimmed while nobody here is looking. */
    method Disturb(weather: seq<Weather>)
      requires Valid()
      modifies this`redis, this`trace
      ensures Valid() && old(trace) <= trace && redis.late == old(redis.late)
      ensures weather == [] ==> redis == old(redis)
      ensures forall ms: nat :: Accepts(redis, ms) ==> Accepts(old(redis), ms)
    {
      hide Init, Exec, Enabled, Effect;
      for i := 0 to |weather|
        invariant Valid() && old(trace) <= trace && redis.late == old(redis.late)
        invariant i == 0 ==> redis == old(redis)
        invariant forall ms: nat :: Accepts(redis, ms) ==> Accepts(old(redis), ms)
      {
        match weather[i]
        case Late(entry) => Land(entry);
        case DropHead(count) => Drop(count);
      }
    }

    method SaveState(sequence: nat, offset: nat)
      requires connection.Some?
      modifies this`connection
      ensures connection == Some(old(connection).value.(row := Row(sequence, Some(offset))))
    {
      connection := Some(connection.value.(row := Row(sequence, Some(offset))));
    }

    method RollBack()
      requires Valid() && connection.Some?
      modifies this`connection, this`trace
      ensures Valid() && connection.None? && old(trace) <= trace
    {
      Took(start, trace, Now(), Rollback);
      connection := None;
      trace := trace + [Rollback];
    }

    /** The append of the due entry is one step with the save of the cursor that follows it: once it is
        acknowledged, the run already shows that save. */
    ghost predicate Acked(sequence: nat, offset: nat)
      reads this
    {
      Init(start) && connection.Some? && Exec(start, trace) == WithRow(Now(), Row(sequence, Some(offset)))
    }

    /** XRANGE after a refused XADD: the same entry there means an earlier attempt landed. */
    method Compare(offset: nat, event: Event, weather: seq<Weather>, unread: bool) returns (reply: Reply)
      requires Valid() && CanAppend(Now()) && event.sequence >= 0 && DueEntry(Now()) == EntryFor(offset, event)
      requires offset == connection.value.row.offset.value
      requires !Accepts(redis, EntryFor(offset, event).ms)
      modifies this`redis, this`trace
      ensures old(trace) <= trace
      ensures reply == Unanswered <==> unread
      ensures if reply == Acknowledged then Acked(event.sequence, offset) else Valid()
      ensures weather == [] ==> redis == old(redis)
      ensures !unread ==> (reply == Acknowledged <==> Known(redis, EntryFor(offset, event)))
      ensures reply == Refused ==> CanAppend(Now()) && Conflict(Now())
    {
      hide Init, Exec, Enabled, Effect;
      Disturb(weather);
      if unread { return Unanswered; }
      var entries := XRange(Contents(redis), offset + event.sequence);
      if entries.None? || entries.value.event != event {
        return Refused;
      }
      assert !Accepts(redis, EntryFor(offset, event).ms);
      TookAppend(start, trace, Now(), redis);
      trace := trace + [AppendKnown];
      return Acknowledged;
    }

    /** XADD, and on refusal the compare read. */
    method Append(offset: nat, event: Event, d: Disturbance) returns (reply: Reply)
      requires Valid() && CanAppend(Now()) && event.sequence >= 0 && DueEntry(Now()) == EntryFor(offset, event)
      requires offset == connection.value.row.offset.value
      modifies this`redis, this`trace
      ensures old(trace) <= trace && (reply == Unanswered ==> d.lost || d.unread) && (d.lost ==> reply == Unanswered)
      ensures if reply == Acknowledged then Acked(event.sequence, offset) else Valid()
      ensures reply == Refused ==> CanAppend(Now()) && Conflict(Now())
      ensures d == CALM ==>
                match AppendOne(old(redis), EntryFor(offset, event))
                case None => reply == Refused
                case Some(after) => reply == Acknowledged && redis == after
    {
      hide Init, Exec, Enabled, Effect;
      var entry := EntryFor(offset, event);
      Disturb(d.before);
      if d.lost {
        TookRedis(start, trace, Now(), Send, redis.(late := redis.late + {entry}));
        redis := redis.(late := redis.late + {entry});
        trace := trace + [Send];
        return Unanswered;
      }
      if Accepts(redis, entry.ms) {
        TookAppend(start, trace, Now(), redis.(written := redis.written + [entry]));
        trace := trace + [AppendNew];
        redis := redis.(written := redis.written + [entry]);
        return Acknowledged;
      }
      reply := Compare(offset, event, d.compare, d.unread);
    }

    /** One row of a batch: jump over the gap before it, append it, save the cursor. */
    method DeliverRow(event: Event, offset: nat, d: Disturbance) returns (reply: Reply)
      requires Valid() && connection.Some? && connection.value.row.offset == Some(offset)
      requires LogOk(db) && connection.value.target <= |db.history|
      requires Due(Now()) == event.sequence != 0 && event == db.history[event.sequence - 1]
      modifies this`connection, this`redis, this`trace
      ensures Valid() && old(trace) <= trace && connection.Some? && (reply == Unanswered ==> d.lost || d.unread)
      ensures reply == Acknowledged ==>
                connection == Some(old(connection).value.(row := Row(event.sequence, Some(offset))))
      ensures reply == Refused ==> Trimmed(Now(), event.sequence)
      ensures d == CALM ==>
                match AppendOne(old(redis), EntryFor(offset, event))
                case None => reply == Refused
                case Some(after) => reply == Acknowledged && redis == after
    {
      hide Init, Exec, Enabled, Effect, Conflict, Trimmed, NextLive, LogOk, AppendOne;
      var sequence := event.sequence;
      if sequence > connection.value.row.delivered + 1 {
        TookRow(start, trace, Now(), Skip, Row(sequence - 1, Some(offset)));
        SaveState(sequence - 1, offset);
        trace := trace + [Skip];
      }
      reply := Append(offset, event, d);
      if reply == Acknowledged {
        SaveState(sequence, offset);
      } else if reply == Refused {
        RefusedIsTrimmed(start, trace, Now());
      }
    }

    /** One batch, row by row, until a row is not acknowledged. */
    method DeliverRows(rows: seq<Event>, offset: nat, script: seq<Disturbance>, k: nat) returns (reply: Reply)
      requires Valid() && connection.Some? && connection.value.row.offset == Some(offset)
      requires LogOk(db) && connection.value.target <= |db.history|
      requires rows != [] && rows <= Pending(db, connection.value.row.delivered, connection.value.target)
      modifies this`connection, this`redis, this`trace
      ensures Valid() && old(trace) <= trace && connection.Some?
      ensures reply == Unanswered ==> exists d | d in script :: d.lost || d.unread
      ensures reply == Refused ==>
                !NoneTrimmed(Now(), old(connection).value.row.delivered, old(connection).value.target)
      ensures reply == Acknowledged ==>
                && connection == Some(old(connection).value.(row := Row(connection.value.row.delivered, Some(offset))))
                && old(connection).value.row.delivered < connection.value.row.delivered <= connection.value.target
                && connection.value.row.delivered == rows[|rows| - 1].sequence
      ensures script == [] ==>
                var t := old(connection).value.target;
                var all := PassThrough(db, old(redis), offset, old(connection).value.row.delivered, t);
                if reply == Acknowledged then PassThrough(db, redis, offset, connection.value.row.delivered, t) == all
                else reply == Refused && all == None
    {
      hide Init, Exec, Enabled, Effect, PassThrough, Pending, LogOk, AppendOne;
      var cursor: nat, target := connection.value.row.delivered, connection.value.target;
      ghost var all, first := Pending(db, cursor, target), cursor;
      for i := 0 to |rows|
        invariant Valid() && old(trace) <= trace
        invariant connection == Some(Txn(target, Row(cursor, Some(offset))))
        invariant Pending(db, cursor, target) == all[i..]
        invariant if i == 0 then cursor == first else first < cursor <= target && cursor == rows[i - 1].sequence
        invariant script == [] ==>
                    PassThrough(db, redis, offset, cursor, target) == PassThrough(db, old(redis), offset, first, target)
      {
        assert rows[i] == all[i..][0] && all[i..][1..] == all[i + 1..];
        NextRow(db, redis, offset, cursor, target);
        reply := DeliverRow(rows[i], offset, At(script, k + i));
        if reply != Acknowledged {
          return;
        }
        cursor := connection.value.row.delivered;
      }
      return Acknowledged;
    }

    /** BEGIN IMMEDIATE, read the row, bootstrap it when it has no offset yet; the read of the stream's
        tail may raise. */
    method Open(target: nat, unread: bool) returns (ok: bool)
      requires Valid() && connection.None? && target <= |db.history|
      modifies this`connection, this`trace
      ensures Valid() && old(trace) <= trace
      ensures ok <==> !(unread && db.row.offset.None?)
      ensures connection == Some(Txn(target, if ok then FirstRow(db, redis) else db.row))
    {
      Took(start, trace, Now(), Begin(target));
      connection := Some(Txn(target, db.row));
      trace := trace + [Begin(target)];
      if db.row.offset.None? {
        if unread { return false; }
        var row := BootstrapRow(db, redis, db.row.delivered);
        TookRow(start, trace, Now(), Bootstrap, row);
        SaveState(row.delivered, row.offset.value);
        trace := trace + [Bootstrap];
      }
      return true;
    }

    method SaveTarget(offset: nat)
      requires Valid() && connection.Some? && connection.value.row.offset == Some(offset)
      requires connection.value.row.delivered < connection.value.target && Due(Now()) == 0
      modifies this`connection, this`trace
      ensures Valid() && old(trace) <= trace
      ensures connection == Some(old(connection).value.(row := Row(old(connection).value.target, Some(offset))))
    {
      hide Init, Exec, Enabled, Effect;
      TookRow(start, trace, Now(), Finish, Row(connection.value.target, Some(offset)));
      SaveState(connection.value.target, offset);
      trace := trace + [Finish];
    }

    method CommitAll()
      requires Valid() && connection.Some? && connection.value.row.offset.Some?
      requires connection.value.target <= connection.value.row.delivered
      modifies this`db, this`connection, this`trace
      ensures Valid() && old(trace) <= trace && connection.None? && db == old(db).(row := old(connection).value.row)
    {
      Took(start, trace, Now(), Commit);
      db := db.(row := connection.value.row);
      connection := None;
      trace := trace + [Commit];
    }

    /** Append available events in order through a bounded target sequence. */
    method DeliverThrough(target: nat, script: seq<Disturbance>, unread: bool) returns (outcome: Outcome)
      requires Valid() && connection.None? && target <= |db.history|
      modifies this`db, this`redis, this`connection, this`trace
      ensures Valid() && connection.None? && old(trace) <= trace
      ensures outcome != Committed ==> db == old(db)
      ensures unread && old(db).row.offset.None? ==> outcome == ConnectionLost
      ensures outcome == ConnectionLost ==>
                (unread && db.row.offset.None?) || exists d | d in script :: d.lost || d.unread
      ensures outcome == IdConflict ==> !NoneTrimmed(Now(), db.row.delivered, target)
      ensures outcome == Committed ==>
                db == old(db).(row := db.row) && db.row.delivered >= target && db.row.offset.Some?
      ensures script == [] && !unread ==> CalmResult(old(Now()), target, outcome, db.row, redis)
    {
      hide Init, Exec, Enabled, Effect, LogOk, AppendOne, NoneTrimmed, FirstRow, PassThrough, Pending;
      LogStaysOk(start, trace);
      var ok := Open(target, unread);
      if !ok {
        RollBack();
        return ConnectionLost;
      }
      NeverBack(db, redis);
      var cursor: nat, k: nat, offset := connection.value.row.delivered, 0, connection.value.row.offset.value;
      ghost var first := cursor;
      while cursor < target
        invariant Valid() && old(trace) <= trace && db == old(db)
        invariant connection == Some(Txn(target, Row(cursor, Some(offset))))
        invariant cursor == Max(first, cursor) && (cursor <= target || cursor == first)
        invariant script == [] ==>
                    PassThrough(db, redis, offset, cursor, target) == PassThrough(db, old(redis), offset, first, target)
        decreases target - cursor
      {
        var rows := Batch(db, cursor, target);
        PendingNext(db, cursor, target);
        if rows == [] {
          NothingLeft(db, redis, offset, cursor, target);
          cursor := target;
          SaveTarget(offset);
          break;
        }
        var reply := DeliverRows(rows, offset, script, k);
        if reply != Acknowledged {
          if reply == Refused { WiderTrimmed(Now(), db.row.delivered, cursor, target); }
          RollBack();
          return if reply == Unanswered then ConnectionLost else IdConflict;
        }
        cursor, k := connection.value.row.delivered, k + |rows|;
      }
      NothingLeft(db, redis, offset, cursor, target);
      CommitAll();
      return Committed;
    }

    /** The store assigns the next sequence. */
    method Persist(id: string, body: string) returns (event: Event)
      requires Valid() && connection.None? && Enabled(Now(), Insert(id, body))
      modifies this`db, this`trace
      ensures Valid() && old(trace) <= trace
      ensures event == Event(|old(db).history| + 1, id, body)
      ensures db == old(db).(history := old(db).history + [event], live := old(db).live + {event.sequence})
    {
      Took(start, trace, Now(), Insert(id, body));
      event := Event(|db.history| + 1, id, body);
      db := db.(history := db.history + [event], live := db.live + {event.sequence});
      trace := trace + [Insert(id, body)];
    }

    /** Persist one event, then deliver; whatever the delivery raises is swallowed. */
    method Emit(id: string, body: string, script: seq<Disturbance>, unread: bool) returns (event: Event)
      requires Valid() && connection.None? && Enabled(Now(), Insert(id, body))
      modifies this`db, this`redis, this`connection, this`trace
      ensures Valid() && connection.None? && old(trace) <= trace
      ensures event == Event(|old(db).history| + 1, id, body)
      ensures db.history == old(db).history + [event] && db.live == old(db).live + {event.sequence}
      ensures script == [] && !unread && start.origin.sequence < event.sequence
              && NothingLost(Effect(old(Now()), Insert(id, body)), event.sequence)
              ==> InStream(Now(), event.sequence)
    {
      hide Init, Exec, Enabled, PassThrough, InStream, NothingLost;
      Reachable(start, trace);
      FreshEvent(Now(), id, body);
      event := Persist(id, body);
      ghost var persisted := Now();
      assert persisted == Effect(old(Now()), Insert(id, body));
      Reachable(start, trace);
      var outcome := DeliverThrough(event.sequence, script, unread);
      Reachable(start, trace);
      if script == [] && !unread && start.origin.sequence < event.sequence && NothingLost(persisted, event.sequence) {
        EmittedIsThere(persisted, Now(), event.sequence, outcome);
      }
    }
  }

  // ---------------------------------------------------------------- convergence

  /** No event this delivery still has to append was trimmed from the stream's head. */
  ghost predicate NothingLost(s: State, target: nat) {
    NoneTrimmed(s, FirstRow(s.db, s.redis).delivered, target)
  }

  lemma Reachable(s: State, actions: seq<Action>)
    requires Init(s)
    ensures Inv(Exec(s, actions))
  {
    RunInv(s, actions);
  }

  /** After any run, however many deliveries failed in it, an undisturbed delivery commits exactly when
      nothing it has to append was trimmed; it then appends precisely the pending events above the top. */
  lemma CalmOutcome(s: State, target: nat, outcome: Outcome, row: Row, redis: Redis)
    requires Inv(s) && s.txn.None? && target <= |s.db.history| && CalmResult(s, target, outcome, row, redis)
    ensures outcome == Committed <==> NothingLost(s, target)
    ensures outcome == Committed ==>
              && row.delivered >= target && row.offset.Some?
              && redis == s.redis.(written :=
                   s.redis.written + Missing(s, FirstRow(s.db, s.redis).delivered, target))
  {
    hide PassThrough, Missing, LogOk, StreamOk, NoneTrimmed;
    var u := Step(s, Begin(target));
    StepInv(s, Begin(target));
    if u.txn.value.row.offset.None? {
      StepInv(u, Bootstrap);
      u := Step(u, Bootstrap);
    }
    CalmPass(u);
    assert Closed(u) == s;
  }

  lemma Convergence(s: State, actions: seq<Action>, target: nat, outcome: Outcome, row: Row, redis: Redis)
    requires Init(s) && Exec(s, actions).txn.None? && target <= |Exec(s, actions).db.history|
    requires CalmResult(Exec(s, actions), target, outcome, row, redis)
    ensures outcome == Committed <==> NothingLost(Exec(s, actions), target)
  {
    RunInv(s, actions);
    CalmOutcome(Exec(s, actions), target, outcome, row, redis);
  }

  lemma EmittedIsThere(s: State, t: State, n: nat, outcome: Outcome)
    requires Inv(s) && Inv(t) && s.txn.None? && s.origin == t.origin && s.origin.sequence < n == |s.db.history|
    requires t.db == s.db.(row := t.db.row) && n in s.db.live
    requires CalmResult(s, n, outcome, t.db.row, t.redis) && NothingLost(s, n) && !Trimmed(s, n)
    ensures InStream(t, n)
  {
    CalmOutcome(s, n, outcome, t.db.row, t.redis);
    AppendedSplits(t, n);
    TrimmedStays(s, t);
  }

  lemma FreshEvent(s: State, id: string, body: string)
    requires Inv(s) && Enabled(s, Insert(id, body))
    ensures !Trimmed(Effect(s, Insert(id, body)), |s.db.history| + 1)
  {
    forall i | s.origin.count <= i < |s.redis.written|
      ensures s.redis.written[i].event.sequence <= |s.db.history|
    {
      assert Ours(s, s.redis.written[i]);
    }
  }
}
