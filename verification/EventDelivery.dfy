/** The ordered copy of the durable event log into one Redis Stream, as a step system.

    The database transaction of a delivery can roll back; what it sent to Redis cannot.
    A command whose caller gave up may still be applied at any later time. */
module EventDelivery {
  import opened Wrappers

  /** One durable event row, or the JSON object under an entry's `event` field.
      In a stream entry, sequence 0 and id "" stand for a missing key. */
  datatype Event = Event(sequence: int, id: string, body: string)

  /** A Redis Stream entry with id `ms-sub`. */
  datatype Entry = Entry(ms: nat, sub: nat, event: Event)

  /** The row of the deliveries table for this target. */
  datatype Row = Row(delivered: nat, offset: Option<nat>)

  /** history[i] is the event that was assigned sequence i + 1; live holds the sequences still stored. */
  datatype Database = Database(history: seq<Event>, live: set<nat>, row: Row)

  /** Every entry ever appended, how many were trimmed from the head, and the commands whose
      outcome their caller never learned. */
  datatype Redis = Redis(written: seq<Entry>, head: nat, late: set<Entry>)

  /** The open `BEGIN IMMEDIATE` transaction: its bound and its private copy of the row. */
  datatype Txn = Txn(target: nat, row: Row)

  /** What the stream held before this target wrote: entry count, sequence carried by the tail, id offset. */
  datatype Origin = Origin(count: nat, sequence: nat, offset: nat)

  datatype State = State(origin: Origin, db: Database, redis: Redis, txn: Option<Txn>)

  // ---------------------------------------------------------------- the event table

  /** The smallest live sequence n with lo < n <= hi, or 0. */
  function NextLive(db: Database, lo: nat, hi: nat): (n: nat)
    ensures n == 0 ==> forall k | lo < k <= hi :: k !in db.live
    ensures n != 0 ==> lo < n <= hi && n in db.live && forall k | lo < k < n :: k !in db.live
    decreases hi - lo
  {
    if lo >= hi then 0 else if lo + 1 in db.live then lo + 1 else NextLive(db, lo + 1, hi)
  }

  /** The sequence of the live event with this id, or 0, searching sequences up to n. */
  function Lookup(db: Database, id: string, n: nat): (k: nat)
    requires n <= |db.history|
    ensures k <= n && (k != 0 ==> k in db.live && db.history[k - 1].id == id)
    ensures k == 0 ==> forall j | 1 <= j <= n && j in db.live :: db.history[j - 1].id != id
  {
    if n == 0 then 0
    else if n in db.live && db.history[n - 1].id == id then n
    else Lookup(db, id, n - 1)
  }

  // ---------------------------------------------------------------- the stream

  function Contents(redis: Redis): seq<Entry> {
    if redis.head <= |redis.written| then redis.written[redis.head..] else []
  }

  /** XADD refuses any id that is not above the last one. */
  predicate Accepts(redis: Redis, ms: nat) {
    if redis.written == [] then ms > 0 else redis.written[|redis.written| - 1].ms < ms
  }

  /** XRANGE from `ms-0` to `ms-0` with count 1. */
  function XRange(entries: seq<Entry>, ms: nat): (found: Option<Entry>)
    ensures found.Some? ==> found.value in entries && found.value.ms == ms && found.value.sub == 0
    ensures found.None? ==> forall e | e in entries :: e.ms != ms || e.sub != 0
  {
    if entries == [] then None
    else if entries[0].ms == ms && entries[0].sub == 0 then Some(entries[0])
    else XRange(entries[1..], ms)
  }

  /** The sequence a tail entry stands for: its own, else that of the stored event with its id. */
  function TailSequence(db: Database, tail: Entry): nat {
    if tail.event.sequence >= 1 then tail.event.sequence
    else if tail.event.id != "" then Lookup(db, tail.event.id, |db.history|)
    else 0
  }

  function Max(a: int, b: int): int { if a < b then b else a }

  /** The cursor and offset read back from the stream when no offset is stored. */
  function BootstrapRow(db: Database, redis: Redis, cursor: nat): Row {
    var entries := Contents(redis);
    if entries == [] then
      var first := NextLive(db, 0, |db.history|);
      Row(if first != 0 then Max(cursor, first - 1) else cursor, Some(0))
    else
      var tail := entries[|entries| - 1];
      var sequence := TailSequence(db, tail);
      if sequence < 1 then Row(cursor, Some(tail.ms))
      else Row(Max(cursor, sequence), Some(Max(0, tail.ms - sequence)))
  }

  // ---------------------------------------------------------------- steps

  datatype Action =
    | Insert(id: string, body: string)  // an event is persisted with the next sequence
    | Delete(gone: set<nat>)            // stored events are cleaned up
    | Begin(target: nat)                // BEGIN IMMEDIATE; INSERT OR IGNORE; SELECT
    | Bootstrap                         // no stored offset: rebuild it from the stream tail
    | Skip                              // the next event leaves a gap: save its predecessor
    | AppendNew                         // XADD accepted; cursor saved
    | AppendKnown                       // XADD refused, but the same entry is already there
    | Send                              // XADD sent and never answered
    | Finish                            // no more events up to the bound: save the bound
    | Commit
    | Rollback                          // any exception, an unanswered XADD or an id conflict included
    | Arrive(entry: Entry)              // an unanswered command is applied by Redis, now
    | Trim(count: nat)                  // MAXLEN drops a head prefix, never the tail

  /** Sequence of the event the open delivery must append next, or 0. */
  function Due(s: State): nat {
    if s.txn.Some? then NextLive(s.db, s.txn.value.row.delivered, s.txn.value.target) else 0
  }

  function EntryFor(offset: nat, event: Event): Entry
    requires event.sequence >= 0
  {
    Entry(offset + event.sequence, 0, event)
  }

  ghost predicate CanAppend(s: State) {
    && s.txn.Some? && s.txn.value.row.offset.Some?
    && Due(s) == s.txn.value.row.delivered + 1
    && Due(s) <= |s.db.history| && s.db.history[Due(s) - 1].sequence == Due(s)
  }

  function DueEntry(s: State): Entry
    requires CanAppend(s)
  {
    EntryFor(s.txn.value.row.offset.value, s.db.history[Due(s) - 1])
  }

  predicate Known(redis: Redis, entry: Entry) {
    var found := XRange(Contents(redis), entry.ms);
    found.Some? && found.value.event == entry.event
  }

  /** The tail names its event only by id, and nothing has been appended after it. */
  ghost predicate LegacyTail(s: State) {
    var w := s.redis.written;
    |w| == s.origin.count && |w| > 0 && w[|w| - 1].event.sequence < 1
  }

  ghost predicate Enabled(s: State, a: Action) {
    match a
    case Insert(id, _) =>
      && s.txn.None? && id != ""
      && (forall e | e in s.db.history :: e.id != id)
      && (LegacyTail(s) ==> s.redis.written[s.origin.count - 1].event.id != id)
    case Delete(gone) =>
      s.txn.None? && (s.db.row.offset.None? && LegacyTail(s) ==> s.origin.sequence !in gone)
    case Begin(target) => s.txn.None? && target <= |s.db.history|
    case Bootstrap => s.txn.Some? && s.txn.value.row.offset.None?
    case Skip => s.txn.Some? && s.txn.value.row.offset.Some? && Due(s) > s.txn.value.row.delivered + 1
    case AppendNew => CanAppend(s) && Accepts(s.redis, DueEntry(s).ms)
    case AppendKnown => CanAppend(s) && !Accepts(s.redis, DueEntry(s).ms) && Known(s.redis, DueEntry(s))
    case Send => CanAppend(s)
    case Finish =>
      && s.txn.Some? && s.txn.value.row.offset.Some?
      && s.txn.value.row.delivered < s.txn.value.target && Due(s) == 0
    case Commit =>
      s.txn.Some? && s.txn.value.row.offset.Some? && s.txn.value.target <= s.txn.value.row.delivered
    case Rollback => s.txn.Some?
    case Arrive(e) => e in s.redis.late && Accepts(s.redis, e.ms)
    case Trim(count) => s.redis.head + count < |s.redis.written|
  }

  function WithRow(s: State, row: Row): State
    requires s.txn.Some?
  {
    s.(txn := Some(s.txn.value.(row := row)))
  }

  ghost function Effect(s: State, a: Action): State
    requires Enabled(s, a)
  {
    match a
    case Insert(id, body) =>
      var n := |s.db.history| + 1;
      s.(db := s.db.(history := s.db.history + [Event(n, id, body)], live := s.db.live + {n}))
    case Delete(gone) => s.(db := s.db.(live := s.db.live - gone))
    case Begin(target) => s.(txn := Some(Txn(target, s.db.row)))
    case Bootstrap => WithRow(s, BootstrapRow(s.db, s.redis, s.txn.value.row.delivered))
    case Skip => WithRow(s, s.txn.value.row.(delivered := Due(s) - 1))
    case AppendNew =>
      WithRow(s, s.txn.value.row.(delivered := Due(s)))
        .(redis := s.redis.(written := s.redis.written + [DueEntry(s)]))
    case AppendKnown => WithRow(s, s.txn.value.row.(delivered := Due(s)))
    case Send => s.(redis := s.redis.(late := s.redis.late + {DueEntry(s)}))
    case Finish => WithRow(s, s.txn.value.row.(delivered := s.txn.value.target))
    case Commit => s.(txn := None, db := s.db.(row := s.txn.value.row))
    case Rollback => s.(txn := None)
    case Arrive(e) => s.(redis := s.redis.(written := s.redis.written + [e]))
    case Trim(count) => s.(redis := s.redis.(head := s.redis.head + count))
  }

  /** An action that is not enabled does nothing, so every list of actions is a run. */
  ghost function Step(s: State, a: Action): State {
    if Enabled(s, a) then Effect(s, a) else s
  }

  ghost function Exec(s: State, actions: seq<Action>): State {
    if actions == [] then s
    else Step(Exec(s, actions[..|actions| - 1]), actions[|actions| - 1])
  }

  // ---------------------------------------------------------------- initial states

  /** What a first bootstrap would read from the untouched stream. */
  function OriginOf(db: Database, redis: Redis): Origin {
    if redis.written == [] then Origin(0, 0, 0)
    else
      var tail := redis.written[|redis.written| - 1];
      var sequence := TailSequence(db, tail);
      Origin(|redis.written|, sequence, if sequence < 1 then tail.ms else Max(0, tail.ms - sequence))
  }

  predicate IdBelow(a: Entry, b: Entry) {
    a.ms < b.ms || (a.ms == b.ms && a.sub < b.sub)
  }

  ghost predicate Increasing(entries: seq<Entry>) {
    forall i, j | 0 <= i < j < |entries| :: IdBelow(entries[i], entries[j])
  }

  ghost predicate LogOk(db: Database) {
    && (forall i | 0 <= i < |db.history| :: db.history[i].sequence == i + 1)
    && (forall i, j | 0 <= i < j < |db.history| :: db.history[i].id != db.history[j].id)
    && (forall n | n in db.live :: 1 <= n <= |db.history|)
  }

  /** Any log, any stream: empty, or with a tail that carries a sequence, or only an id, or neither. */
  ghost predicate Init(s: State) {
    && LogOk(s.db) && Increasing(s.redis.written)
    && s.redis.head == 0 && s.redis.late == {} && s.txn.None?
    && s.db.row == Row(0, None)
    && s.origin == OriginOf(s.db, s.redis)
  }
}
