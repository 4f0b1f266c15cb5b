/** The way of one run's result from the worker's file to the runtime, with retention configured. */
module ResultForwarding {
  import opened Wrappers
  import opened Bytes
  import opened FileTree
  import opened Retention
  import opened RetentionSpec
  import opened RetentionStore

  const WORKER_RESULT_KEY_PREFIX := "goblin-king:results:"
  const FORWARDED_RESULT_KEY_PREFIX := "goblin-king:forwarded-results:"

  function WorkerResultKey(run: string): string { WORKER_RESULT_KEY_PREFIX + run }

  function ForwardedResultKey(run: string): string { FORWARDED_RESULT_KEY_PREFIX + run }

  /** No run id makes a worker's key a forwarder's, and forwarders of different runs use different keys. */
  lemma KeysDisjoint(a: string, b: string)
    ensures WorkerResultKey(a) != ForwardedResultKey(b)
    ensures ForwardedResultKey(a) == ForwardedResultKey(b) <==> a == b
    ensures WorkerResultKey(a) == WorkerResultKey(b) <==> a == b
  {
    assert WorkerResultKey(a)[12] == 'r' && ForwardedResultKey(b)[12] == 'f';
    assert ForwardedResultKey(a)[|FORWARDED_RESULT_KEY_PREFIX|..] == a &&
        ForwardedResultKey(b)[|FORWARDED_RESULT_KEY_PREFIX|..] == b;
    assert WorkerResultKey(a)[|WORKER_RESULT_KEY_PREFIX|..] == a &&
        WorkerResultKey(b)[|WORKER_RESULT_KEY_PREFIX|..] == b;
  }

  /** The run, its directory below the storage root, and the functions retention is parameterised with. */
  datatype Scope = Scope(run: string, runDir: Path, oracle: Oracle)

  /** A Redis value or a file content: an envelope, or text that is none. */
  datatype Text = Json(envelope: Envelope) | Broken

  datatype Phase = Waiting | Holding(result: Envelope) | Processed(out: Envelope) | Finished(out: Envelope)

  datatype Job = Job(succeeded: bool, failed: bool)

  datatype State = State(file: Option<Text>, redis: map<string, Text>, tree: Tree, forwarders: map<nat, Phase>,
      job: Job)

  datatype Action =
    | WorkerWrites(file: Option<Text>)            // anything, any number of times
    | WorkerSets(run: string, text: Text)         // any run's worker-owned key
    | OtherForwarderSets(run: string, text: Text) // the forwarded key of another run
    | Expires(key: string)
    | JobMoves(job: Job)
    | TreeMoves(tree: Tree)                       // other runs' retention and cleanup; ours, interrupted
    | Reads(forwarder: nat)
    | Retains(forwarder: nat, out: Envelope, tree: Tree)
    | Misconfigured(forwarder: nat, reason: string)
    | Publishes(forwarder: nat)
    | Restarts(forwarder: nat)

  /** The artifact is this file of the run directory, with the digest in the metrics. */
  ghost predicate Stands(scope: Scope, artifact: Artifact, metrics: map<string, Metric>, t: Tree, name: string) {
    var path := scope.runDir + [name];
    && artifact.uri == scope.oracle.uri(name) && path in t.files
    && Declared(metrics, DigestKey(artifact.name)) == Retention.Text(scope.oracle.sha(t.files[path]))
  }

  ghost predicate Found(scope: Scope, artifact: Artifact, metrics: map<string, Metric>, t: Tree) {
    exists name :: Stands(scope, artifact, metrics, t, name)
  }

  /** Every artifact the envelope lists is a file of the run directory. */
  ghost predicate Backed(scope: Scope, e: Envelope, t: Tree) {
    forall i | 0 <= i < |e.artifacts| :: Found(scope, e.artifacts[i], e.metrics, t)
  }

  ghost predicate RunKept(scope: Scope, t: Tree, u: Tree) {
    forall name: string ::
      var path := scope.runDir + [name];
      path in t.files ==> path in u.files && u.files[path] == t.files[path]
  }

  ghost predicate RetentionOutcome(scope: Scope, result: Envelope, out: Envelope, t: Tree, u: Tree) {
    RunKept(scope, t, u) && Backed(scope, out, u) && (out.success ==> result.success)
  }

  /** What RetainResultArtifacts promises is an outcome in this sense. */
  lemma OutcomeOfRetention(scope: Scope, request: Request, result: Envelope, sources: seq<Source>, out: Envelope,
                           contents: seq<Octets>, t: Tree, u: Tree, staging: Path)
    requires request.runDir == scope.runDir && |sources| == |result.artifacts|
    requires OthersKept(t, u, staging, scope.runDir)
    requires result.artifacts == [] ==> out == result
    requires result.artifacts != [] && out.artifacts == [] ==>
               exists failure :: out == RetentionFailure(result, failure)
    requires out.artifacts != [] ==>
               && LimitsOk(result, request) && Vetted(result, request, sources, scope.oracle, contents)
               && HoldsDigests(u, scope.runDir, StoredAll(scope.oracle, result.artifacts, |sources|), contents,
                               scope.oracle.sha)
               && out == result.(artifacts := RetainedRecords(scope.oracle, result.artifacts, |sources|),
                                 metrics := FinalMetrics(result.metrics, result.artifacts, contents, scope.oracle.sha))
    ensures RetentionOutcome(scope, result, out, t, u)
  {
    hide FinalMetrics, RetainedMetrics, FromSources, Total, DigestKey, SafeName;
    var oracle := scope.oracle;
    forall i | 0 <= i < |out.artifacts|
      ensures Found(scope, out.artifacts[i], out.metrics, u)
    {
      var names := StoredAll(oracle, result.artifacts, |sources|);
      FinalMetricsMeaning(result.metrics, result.artifacts, contents, oracle.sha, i);
      assert names[i] == Stored(oracle, result.artifacts, i);
      assert Stands(scope, out.artifacts[i], out.metrics, u, names[i]);
    }
  }

  ghost predicate Enabled(scope: Scope, s: State, a: Action) {
    match a
    case WorkerWrites(_) => true
    case WorkerSets(_, _) => true
    case OtherForwarderSets(run, _) => run != scope.run
    case Expires(_) => true
    case JobMoves(_) => true
    case TreeMoves(tree) => RunKept(scope, s.tree, tree)
    case Reads(f) => f in s.forwarders && s.forwarders[f].Waiting? && s.file.Some? && s.file.value.Json?
    case Retains(f, out, tree) =>
      && f in s.forwarders && s.forwarders[f].Holding?
      && RetentionOutcome(scope, s.forwarders[f].result, out, s.tree, tree)
    case Misconfigured(f, reason) => f in s.forwarders && s.forwarders[f].Holding?
    case Publishes(f) => f in s.forwarders && s.forwarders[f].Processed?
    case Restarts(_) => true
  }

  ghost function Effect(scope: Scope, s: State, a: Action): State
    requires Enabled(scope, s, a)
  {
    match a
    case WorkerWrites(file) => s.(file := file)
    case WorkerSets(run, text) => s.(redis := s.redis[WorkerResultKey(run) := text])
    case OtherForwarderSets(run, text) => s.(redis := s.redis[ForwardedResultKey(run) := text])
    case Expires(key) => s.(redis := s.redis - {key})
    case JobMoves(job) => s.(job := job)
    case TreeMoves(tree) => s.(tree := tree)
    case Reads(f) => s.(forwarders := s.forwarders[f := Holding(s.file.value.envelope)])
    case Retains(f, out, tree) => s.(tree := tree, forwarders := s.forwarders[f := Processed(out)])
    case Misconfigured(f, reason) =>
      s.(forwarders := s.forwarders[f := Processed(RetentionFailure(s.forwarders[f].result, Policy(reason)))])
    case Publishes(f) =>
      var out := s.forwarders[f].out;
      s.(redis := s.redis[ForwardedResultKey(scope.run) := Json(out)], forwarders := s.forwarders[f := Finished(out)])
    case Restarts(f) => s.(forwarders := s.forwarders[f := Waiting])
  }

  ghost function Step(scope: Scope, s: State, a: Action): State {
    if Enabled(scope, s, a) then Effect(scope, s, a) else s
  }

  ghost predicate Timeline(scope: Scope, states: seq<State>, actions: seq<Action>) {
    && |states| == |actions| + 1
    && forall i | 0 <= i < |actions| :: states[i + 1] == Step(scope, states[i], actions[i])
  }

  /** The run starts: nothing forwarded, no forwarder beyond waiting. */
  ghost predicate Init(scope: Scope, s: State) {
    && ForwardedResultKey(scope.run) !in s.redis
    && forall f | f in s.forwarders :: s.forwarders[f].Waiting?
  }

  // ---------------------------------------------------------------- invariant

  ghost predicate Inv(scope: Scope, s: State) {
    && (forall f | f in s.forwarders && (s.forwarders[f].Processed? || s.forwarders[f].Finished?) ::
          Backed(scope, s.forwarders[f].out, s.tree))
    && (var key := ForwardedResultKey(scope.run);
        key in s.redis ==> s.redis[key].Json? && Backed(scope, s.redis[key].envelope, s.tree))
  }

  lemma InitInv(scope: Scope, s: State)
    requires Init(scope, s)
    ensures Inv(scope, s)
  { }

  lemma BackedStays(scope: Scope, e: Envelope, t: Tree, u: Tree)
    requires Backed(scope, e, t) && RunKept(scope, t, u)
    ensures Backed(scope, e, u)
  {
    forall i | 0 <= i < |e.artifacts|
      ensures Found(scope, e.artifacts[i], e.metrics, u)
    {
      var name :| Stands(scope, e.artifacts[i], e.metrics, t, name);
      assert Stands(scope, e.artifacts[i], e.metrics, u, name);
    }
  }

  lemma TreeInv(scope: Scope, s: State, u: Tree)
    requires Inv(scope, s) && RunKept(scope, s.tree, u)
    ensures Inv(scope, s.(tree := u))
  {
    hide Backed, RunKept;
    forall e | Backed(scope, e, s.tree) ensures Backed(scope, e, u) { BackedStays(scope, e, s.tree, u); }
  }

  lemma StepInv(scope: Scope, s: State, a: Action)
    requires Inv(scope, s)
    ensures Inv(scope, Step(scope, s, a)) && RunKept(scope, s.tree, Step(scope, s, a).tree)
  {
    hide Backed, RunKept;
    KeptItself(scope, s.tree);
    if Enabled(scope, s, a) {
      match a
      case WorkerSets(run, _) => KeysDisjoint(run, scope.run);
      case OtherForwarderSets(run, _) => KeysDisjoint(run, scope.run);
      case TreeMoves(tree) => TreeInv(scope, s, tree);
      case Retains(f, out, tree) => TreeInv(scope, s, tree);
      case Misconfigured(f, reason) =>
        NothingToBack(scope, RetentionFailure(s.forwarders[f].result, Policy(reason)), s.tree);
      case _ =>
    }
  }

  lemma KeptItself(scope: Scope, t: Tree)
    ensures RunKept(scope, t, t)
  { }

  lemma KeptOn(scope: Scope, t: Tree, u: Tree, v: Tree)
    requires RunKept(scope, t, u) && RunKept(scope, u, v)
    ensures RunKept(scope, t, v)
  { }

  lemma NothingToBack(scope: Scope, e: Envelope, t: Tree)
    requires e.artifacts == []
    ensures Backed(scope, e, t)
  { }

  lemma {:induction false} TimelineInv(scope: Scope, states: seq<State>, actions: seq<Action>, k: nat)
    requires Timeline(scope, states, actions) && Init(scope, states[0]) && k < |states|
    ensures Inv(scope, states[k])
  {
    hide Inv, Step;
    if k == 0 {
      InitInv(scope, states[0]);
    } else {
      TimelineInv(scope, states, actions, k - 1);
      StepInv(scope, states[k - 1], actions[k - 1]);
    }
  }

  /** What the forwarded key holds was published by this run's forwarder, after retention had committed
      the files of every artifact in it. */
  lemma {:induction false} PublishedBefore(scope: Scope, states: seq<State>, actions: seq<Action>, k: nat)
    returns (j: nat, forwarder: nat)
    requires Timeline(scope, states, actions) && Init(scope, states[0]) && k < |states|
    requires ForwardedResultKey(scope.run) in states[k].redis
    ensures j < k && actions[j] == Publishes(forwarder) && forwarder in states[j].forwarders
    ensures states[j].forwarders[forwarder].Processed?
    ensures states[k].redis[ForwardedResultKey(scope.run)] == Json(states[j].forwarders[forwarder].out)
    ensures Backed(scope, states[j].forwarders[forwarder].out, states[j].tree)
  {
    hide Backed, RunKept, WorkerResultKey, ForwardedResultKey;
    var key, s, a := ForwardedResultKey(scope.run), states[k - 1], actions[k - 1];
    if a.Publishes? && Enabled(scope, s, a) {
      TimelineInv(scope, states, actions, k - 1);
      return k - 1, a.forwarder;
    }
    if a.WorkerSets? || a.OtherForwarderSets? { KeysDisjoint(a.run, scope.run); }
    assert key in s.redis && s.redis[key] == states[k].redis[key];
    j, forwarder := PublishedBefore(scope, states, actions, k - 1);
  }

  /** Committed files of the run stay what they are. */
  lemma {:induction false} TimelineKeeps(scope: Scope, states: seq<State>, actions: seq<Action>, j: nat, k: nat)
    requires Timeline(scope, states, actions) && Init(scope, states[0]) && j <= k < |states|
    ensures RunKept(scope, states[j].tree, states[k].tree)
  {
    hide RunKept, Step, Inv;
    if j == k {
      KeptItself(scope, states[j].tree);
    } else {
      TimelineKeeps(scope, states, actions, j, k - 1);
      TimelineInv(scope, states, actions, k - 1);
      StepInv(scope, states[k - 1], actions[k - 1]);
      KeptOn(scope, states[j].tree, states[k - 1].tree, states[k].tree);
    }
  }

  // ---------------------------------------------------------------- the forwarder

  /** Poll the result file until it holds a valid envelope. */
  method WaitForResult(polls: seq<Option<Text>>) returns (result: Result<Envelope, string>, ghost at: nat)
    ensures at <= |polls| && forall i | 0 <= i < at :: polls[i] == None || polls[i] == Some(Broken)
    ensures result.Ok? <==> at < |polls|
    ensures result.Ok? ==> polls[at] == Some(Json(result.value))
    ensures result.Err? ==>
              result.error == if Some(Broken) in polls
                              then "result file did not become a valid result envelope before timeout"
                              else "result file was not created before timeout"
  {
    var lastError := false;
    at := 0;
    for i := 0 to |polls|
      invariant at == i && forall j | 0 <= j < i :: polls[j] == None || polls[j] == Some(Broken)
      invariant lastError <==> Some(Broken) in polls[..i]
    {
      if polls[i].Some? {
        if polls[i].value.Json? { return Ok(polls[i].value.envelope), i; }
        lastError := true;
      }
      at := i + 1;
    }
    assert polls[..|polls|] == polls;
    if lastError {
      return Err("result file did not become a valid result envelope before timeout"), at;
    }
    return Err("result file was not created before timeout"), at;
  }

  /** A retained envelope: one record per artifact, for files of the run directory that passed the checks. */
  ghost predicate FullyRetained(scope: Scope, request: Request, e: Envelope, sources: seq<Source>,
                                contents: seq<Octets>, out: Envelope, t: Tree) {
    && |sources| == |e.artifacts| && LimitsOk(e, request) && Vetted(e, request, sources, scope.oracle, contents)
    && HoldsDigests(t, scope.runDir, StoredAll(scope.oracle, e.artifacts, |sources|), contents, scope.oracle.sha)
    && out == e.(artifacts := RetainedRecords(scope.oracle, e.artifacts, |sources|),
                 metrics := FinalMetrics(e.metrics, e.artifacts, contents, scope.oracle.sha))
  }

  /** Wait, retain, publish: what reaches the forwarded key is the outcome of a finished retention. A result
      without artifacts is published as it is; a missing configuration and a refusal as their failure; any
      other result retained as a whole or failed, and without faults retained exactly when it is acceptable
      and its destination usable. */
  method ForwardResult(scope: Scope, polls: seq<Option<Text>>, config: Result<Request, string>, volume: ArtifactVolume,
                       sources: Envelope -> seq<Source>, stagingName: string, rival: Option<Rival>,
                       redis: map<string, Text>)
    returns (result: Result<Envelope, string>, redis': map<string, Text>, ghost at: nat, ghost contents: seq<Octets>)
    requires WellFormed(volume.tree) && scope.runDir != [] && StagingFree(volume.tree, scope.runDir, stagingName)
    requires config.Ok? ==> config.value.runDir == scope.runDir
    requires forall e :: |sources(e)| == |e.artifacts| && SourcesOk(sources(e))
    requires rival.Some? ==> |rival.value.names| == |rival.value.contents| && Distinct(rival.value.names)
    modifies volume
    ensures WellFormed(volume.tree) && at <= |polls|
    ensures result.Ok? <==> at < |polls|
    ensures result.Err? ==> redis' == redis && volume.tree == old(volume.tree)
    ensures result.Ok? ==>
              && polls[at].Some? && polls[at].value.Json?
              && RetentionOutcome(scope, polls[at].value.envelope, result.value, old(volume.tree), volume.tree)
              && redis' == redis[ForwardedResultKey(scope.run) := Json(result.value)]
    ensures result.Ok? && config.Err? ==>
              && result.value == RetentionFailure(polls[at].value.envelope, Policy(config.error))
              && volume.tree == old(volume.tree)
    ensures result.Ok? && config.Ok? ==>
              var e, request, out := polls[at].value.envelope, config.value, result.value;
              && (e.artifacts == [] ==> out == e && volume.tree == old(volume.tree))
              && (e.artifacts != [] && Refusal(e, request).Some? ==>
                    out == RetentionFailure(e, Refusal(e, request).value) && volume.tree == old(volume.tree))
              && (e.artifacts != [] && out.artifacts == [] ==> exists failure :: out == RetentionFailure(e, failure))
              && (out.artifacts != [] ==> FullyRetained(scope, request, e, sources(e), contents, out, volume.tree))
              && (old(volume.faults) == [] && rival.None? && Quiet(sources(e)) ==>
                    (out.artifacts != [] <==>
                       && e.artifacts != [] && Acceptable(e, request, sources(e), scope.oracle)
                       && NoFileOnTheWay(old(volume.tree), Parent(scope.runDir))
                       && DestinationOk(old(volume.tree), e, request, sources(e), scope.oracle)))
  {
    hide Backed, RunKept, WellFormed, StagingFree, SourcesOk, OthersKept, Acceptable, DestinationOk, HoldsDigests,
         Holds, RetainedMetrics, NoFileOnTheWay, AllAllowed, Vetted, LimitsOk, Exists, ParentsAdded,
         RetentionFailure, Quiet, RemoveTree, FinalMetrics;
    redis', contents := redis, [];
    result, at := WaitForResult(polls);
    if result.Err? { return; }
    var e, out := result.value, result.value;
    match config {
      case Err(reason) =>
        out := RetentionFailure(e, Policy(reason));
        FailureHidesArtifacts(e, Policy(reason), "");
        NothingToBack(scope, out, volume.tree);
        KeptItself(scope, volume.tree);
      case Ok(request) =>
        ghost var t := volume.tree;
        out, contents := volume.RetainResultArtifacts(e, request, sources(e), stagingName, rival, scope.oracle);
        OutcomeOfRetention(scope, request, e, sources(e), out, contents, t, volume.tree,
            Staging(scope.runDir, stagingName));
    }
    redis' := redis[ForwardedResultKey(scope.run) := Json(out)];
    result := Ok(out);
  }
}
