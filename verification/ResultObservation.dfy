/** The runtime's side of a Kubernetes run: poll the Job, then read the one key it trusts. */
module ResultObservation {
  import opened Wrappers
  import opened Retention
  import opened ResultForwarding

  datatype Observation = Observation(result: Envelope, jobCreated: bool, received: bool, valid: bool)

  /** One round of the loop: where in the run the Job is read and where, later, Redis is; whether the API
      call raises, Redis is down, an image cannot be pulled. */
  datatype Poll = Poll(jobAt: nat, readAt: nat, raises: bool, redisDown: bool, pullFailure: bool)

  const INVALID_PREFIX := "worker produced invalid result JSON:"

  function Failed(error: string): Envelope { Envelope(false, "", [], map[], error) }

  /** Only the forwarder's key counts when retention is configured. */
  function ResultKey(run: string, configured: bool): string {
    if configured then ForwardedResultKey(run) else WorkerResultKey(run)
  }

  function LoadResult(redis: map<string, Text>, run: string, configured: bool, down: bool): Option<Envelope> {
    var key := ResultKey(run, configured);
    if down || key !in redis then None
    else if redis[key].Json? then Some(redis[key].envelope)
    else Some(Failed(INVALID_PREFIX + " malformed"))
  }

  /** Malformed text is received but invalid. So is an envelope that is worded like one. */
  function LoadResultObserved(redis: map<string, Text>, run: string, configured: bool, down: bool): (o: Observation)
    ensures o.received <==> !down && ResultKey(run, configured) in redis
    ensures o.received && redis[ResultKey(run, configured)] == Broken ==> !o.valid && !o.result.success
    ensures o.received && redis[ResultKey(run, configured)].Json? ==>
              && o.result == redis[ResultKey(run, configured)].envelope
              && (!o.valid <==> !o.result.success && INVALID_PREFIX <= o.result.error)
    ensures o.received && !o.valid ==> !o.result.success
    ensures !o.received ==> o.result == Failed("worker result was not received") && !o.valid
    ensures !o.jobCreated
  {
    var loaded := LoadResult(redis, run, configured, down);
    if loaded.None? then Observation(Failed("worker result was not received"), false, false, false)
    else
      var broken := redis[ResultKey(run, configured)] == Broken;
      assert broken ==> INVALID_PREFIX <= loaded.value.error;
      Observation(loaded.value, false, true, loaded.value.success || !(INVALID_PREFIX <= loaded.value.error))
  }

  /** What loading finds in a text. */
  function Loaded(text: Text): Envelope {
    if text.Json? then text.envelope else Failed(INVALID_PREFIX + " malformed")
  }

  /** With retention configured only what the run's forwarder publishes is read, and otherwise only what the
      worker sets; Redis down reads as nothing there. */
  lemma ReadsItsWriter(scope: Scope, s: State, a: Action, configured: bool)
    requires Enabled(scope, s, a)
    ensures var before, after := LoadResult(s.redis, scope.run, configured, false),
                                 LoadResult(Effect(scope, s, a).redis, scope.run, configured, false);
            if a.Publishes? && configured then after == Some(s.forwarders[a.forwarder].out)
            else if a.WorkerSets? && !configured && a.run == scope.run then after == Some(Loaded(a.text))
            else a.Expires? || after == before
    ensures LoadResult(s.redis, scope.run, configured, true) == None
  {
    KeysDisjoint(scope.run, scope.run);
    match a
    case WorkerSets(run, _) => KeysDisjoint(run, scope.run);
    case OtherForwarderSets(run, _) => KeysDisjoint(scope.run, run); KeysDisjoint(run, scope.run);
    case _ =>
  }

  ghost predicate PollsOk(states: seq<State>, polls: seq<Poll>) {
    forall k | 0 <= k < |polls| :: polls[k].jobAt <= polls[k].readAt < |states|
  }

  /** Nothing to report yet. */
  predicate Idle(states: seq<State>, poll: Poll)
    requires poll.jobAt < |states|
  {
    !poll.raises && !poll.pullFailure && !states[poll.jobAt].job.succeeded && !states[poll.jobAt].job.failed
  }

  /** The first round with something to report, or the number of rounds. */
  function FirstBusy(states: seq<State>, polls: seq<Poll>): (at: nat)
    requires forall k | 0 <= k < |polls| :: polls[k].jobAt < |states|
    ensures at <= |polls| && forall k | 0 <= k < at :: Idle(states, polls[k])
    ensures at < |polls| ==> !Idle(states, polls[at])
  {
    if polls == [] || !Idle(states, polls[0]) then 0 else 1 + FirstBusy(states, polls[1..])
  }

  lemma {:induction false} FirstBusyIs(states: seq<State>, polls: seq<Poll>, at: nat)
    requires at <= |polls| && forall k | 0 <= k < |polls| :: polls[k].jobAt < |states|
    requires forall k | 0 <= k < at :: Idle(states, polls[k])
    requires at < |polls| ==> !Idle(states, polls[at])
    ensures FirstBusy(states, polls) == at
  { }

  /** At the reading, the envelope with these artifacts was what the trusted key held. */
  ghost predicate ReadFrom(states: seq<State>, poll: Poll, run: string, configured: bool, o: Observation)
    requires poll.readAt < |states|
  {
    var loaded := LoadResult(states[poll.readAt].redis, run, configured, poll.redisDown);
    && loaded.Some? && !poll.redisDown && o.result.artifacts == loaded.value.artifacts
    && o.result.metrics == loaded.value.metrics && o.result.body == loaded.value.body
    && (o.result.success ==> o.result == loaded.value)
  }

  /** What the run is told when no result was received. */
  function Missing(states: seq<State>, polls: seq<Poll>, at: nat, name: string, logs: string): Envelope
    requires at <= |polls| && (at < |polls| ==> polls[at].jobAt < |states|)
  {
    if at == |polls| then Failed(name + " exceeded wait timeout")
    else if states[polls[at].jobAt].job.succeeded then Failed(name + " completed without a Redis result")
    else if states[polls[at].jobAt].job.failed then Failed(name + " failed: " + logs)
    else Failed(name + " could not pull its image")
  }

  /** The first round that is not idle decides. The loaded envelope is handed on as it is, its validity
      included, when the Job succeeded or the envelope is a failure; a success of a failed Job becomes a
      failure with the same contents. */
  ghost predicate Reports(states: seq<State>, polls: seq<Poll>, run: string, configured: bool, name: string,
                          logs: string, o: Observation)
    requires PollsOk(states, polls)
  {
    var at := FirstBusy(states, polls);
    && (o.received <==>
          && at < |polls| && (states[polls[at].jobAt].job.succeeded || states[polls[at].jobAt].job.failed)
          && LoadResult(states[polls[at].readAt].redis, run, configured, polls[at].redisDown).Some?)
    && (o.received ==>
          var loaded := LoadResultObserved(states[polls[at].readAt].redis, run, configured, polls[at].redisDown);
          && ReadFrom(states, polls[at], run, configured, o) && o.valid == loaded.valid
          && (if states[polls[at].jobAt].job.succeeded || !loaded.result.success then o.result == loaded.result
              else !o.result.success && o.result.error == name + " failed after publishing a result: " + logs))
    && (!o.received ==> o.result == Missing(states, polls, at, name, logs) && !o.valid)
    && !o.jobCreated
  }

  /** Polling until there is something to report; Err stands for an exception. */
  method WaitForResultObserved(states: seq<State>, polls: seq<Poll>, run: string, configured: bool, name: string,
                               logs: string)
    returns (result: Result<Observation, string>)
    requires PollsOk(states, polls)
    ensures var at := FirstBusy(states, polls); result.Err? <==> at < |polls| && polls[at].raises
    ensures result.Ok? ==> Reports(states, polls, run, configured, name, logs, result.value)
  {
    for i := 0 to |polls|
      invariant forall k | 0 <= k < i :: Idle(states, polls[k])
    {
      var poll := polls[i];
      if !Idle(states, poll) { FirstBusyIs(states, polls, i); }
      if poll.raises { return Err("the Job could not be read"); }
      var job, redis := states[poll.jobAt].job, states[poll.readAt].redis;
      var loaded := LoadResultObserved(redis, run, configured, poll.redisDown);
      if job.succeeded {
        if loaded.received { return Ok(loaded); }
        return Ok(Observation(Failed(name + " completed without a Redis result"), false, false, false));
      }
      if job.failed {
        if !loaded.received { return Ok(Observation(Failed(name + " failed: " + logs), false, false, false)); }
        if !loaded.result.success { return Ok(loaded); }
        var failed := loaded.result.(success := false, error := name + " failed after publishing a result: " + logs);
        return Ok(Observation(failed, false, true, loaded.valid));
      }
      if poll.pullFailure {
        return Ok(Observation(Failed(name + " could not pull its image"), false, false, false));
      }
    }
    FirstBusyIs(states, polls, |polls|);
    return Ok(Observation(Failed(name + " exceeded wait timeout"), false, false, false));
  }

  /** Artifacts that were backed when they were read still are at the end. */
  lemma ReadIsBacked(scope: Scope, states: seq<State>, actions: seq<Action>, poll: Poll, o: Observation)
    requires Timeline(scope, states, actions) && Init(scope, states[0]) && poll.readAt < |states|
    requires ReadFrom(states, poll, scope.run, true, o)
    ensures Backed(scope, o.result, states[poll.readAt].tree) && Backed(scope, o.result, states[|states| - 1].tree)
  {
    hide RunKept, Found;
    TimelineInv(scope, states, actions, poll.readAt);
    var loaded := LoadResult(states[poll.readAt].redis, scope.run, true, poll.redisDown).value;
    assert Backed(scope, loaded, states[poll.readAt].tree);
    TimelineKeeps(scope, states, actions, poll.readAt, |states| - 1);
    BackedStays(scope, o.result, states[poll.readAt].tree, states[|states| - 1].tree);
  }

  /** End to end with retention configured, whatever the worker writes to its file and its key: every
      artifact in the observation names committed bytes, and a success means that the Job succeeded and
      that the forwarder published this very envelope after its retention had finished. */
  method RunObserved(scope: Scope, states: seq<State>, ghost actions: seq<Action>, polls: seq<Poll>,
                     setupRaises: bool, createRaises: bool, name: string, logs: string)
    returns (o: Observation, ghost published: nat, ghost forwarder: nat)
    requires Timeline(scope, states, actions) && Init(scope, states[0]) && PollsOk(states, polls)
    ensures o.jobCreated <==> !setupRaises && !createRaises
    ensures var at := FirstBusy(states, polls);
            if setupRaises || createRaises || (at < |polls| && polls[at].raises) then
              !o.received && !o.valid && exists error :: o.result == Failed(error)
            else Reports(states, polls, scope.run, true, name, logs, o.(jobCreated := false))
    ensures Backed(scope, o.result, states[|states| - 1].tree)
    ensures o.result.success ==>
              && o.jobCreated && o.received && o.valid
              && (exists k | 0 <= k < |polls| ::
                    && states[polls[k].jobAt].job.succeeded && published < polls[k].readAt
                    && forall j | 0 <= j < k :: Idle(states, polls[j]))
              && published < |actions| && actions[published] == Publishes(forwarder)
              && forwarder in states[published].forwarders
              && states[published].forwarders[forwarder] == Processed(o.result)
              && Backed(scope, o.result, states[published].tree)
    ensures o.result.artifacts != [] ==> o.received
  {
    hide Backed, Init, Step;
    published, forwarder := 0, 0;
    var failed := Failed(name + " Kubernetes worker failed");
    NothingToBack(scope, failed, states[|states| - 1].tree);
    if setupRaises { return Observation(failed, false, false, false), published, forwarder; }
    if createRaises { return Observation(failed, false, false, false), published, forwarder; }
    var result := WaitForResultObserved(states, polls, scope.run, true, name, logs);
    ghost var at := FirstBusy(states, polls);
    if result.Err? { return Observation(failed, true, false, false), published, forwarder; }
    o := result.value.(jobCreated := true);
    if o.received {
      ReadIsBacked(scope, states, actions, polls[at], o);
    } else {
      NothingToBack(scope, o.result, states[|states| - 1].tree);
    }
    if o.result.success {
      published, forwarder := PublishedBefore(scope, states, actions, polls[at].readAt);
    }
  }
}
