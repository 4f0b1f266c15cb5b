/** What retaining a run may do to the artifact volume. */
module RetentionSpec {
  import opened Wrappers
  import opened Bytes
  import opened FileTree
  import opened Retention
  import TornReads

  datatype Retained = Retained(records: seq<Artifact>, metrics: map<string, Metric>, total: nat)

  /** How many of the coming operations fail. */
  function Failures(faults: seq<bool>): nat {
    if faults == [] then 0 else (if faults[0] then 1 else 0) + Failures(faults[1..])
  }

  // ---------------------------------------------------------------- specification

  ghost predicate SourcesOk(sources: seq<Source>) {
    forall i | 0 <= i < |sources| && sources[i].File? ::
      sources[i].at < |sources[i].versions| && TornReads.Timeline(sources[i].versions)
  }

  /** Nobody writes to the sources while they are copied. */
  ghost predicate Quiet(sources: seq<Source>) {
    forall i | 0 <= i < |sources| && sources[i].File? :: |sources[i].versions| == 1
  }

  function QuietContents(sources: seq<Source>): (contents: seq<Octets>)
    ensures |contents| == |sources|
    ensures forall i | 0 <= i < |sources| && sources[i].File? && sources[i].versions != [] ::
              contents[i] == sources[i].versions[0].bytes
  {
    seq(|sources|, i requires 0 <= i < |sources| =>
      if sources[i].File? && sources[i].versions != [] then sources[i].versions[0].bytes else [])
  }

  ghost predicate FromSource(source: Source, bytes: Octets) {
    source.File? && exists v | v in source.versions :: bytes == v.bytes && TornReads.OpenedOf(v) == source.validated
  }

  lemma TotalGrows(contents: seq<Octets>, bytes: Octets)
    ensures Total(contents + [bytes]) == Total(contents) + |bytes|
  {
    assert (contents + [bytes])[..|contents + [bytes]| - 1] == contents;
  }

  lemma QuietTotal(sources: seq<Source>, i: nat)
    requires i < |sources|
    ensures Total(QuietContents(sources)[..i + 1]) == Total(QuietContents(sources)[..i]) + |QuietContents(sources)[i]|
  {
    assert QuietContents(sources)[..i + 1] == QuietContents(sources)[..i] + [QuietContents(sources)[i]];
    TotalGrows(QuietContents(sources)[..i], QuietContents(sources)[i]);
  }

  lemma StoredNone(oracle: Oracle, artifacts: seq<Artifact>)
    ensures StoredAll(oracle, artifacts, 0) == []
  { }

  lemma StoredNext(oracle: Oracle, artifacts: seq<Artifact>, i: nat)
    requires i < |artifacts|
    ensures StoredAll(oracle, artifacts, i + 1) == StoredAll(oracle, artifacts, i) + [Stored(oracle, artifacts, i)]
    ensures forall j | 0 <= j < i :: StoredAll(oracle, artifacts, i)[j] != Stored(oracle, artifacts, i)
  {
    StoredDistinct(oracle, artifacts);
    assert forall j | 0 <= j <= i :: StoredAll(oracle, artifacts, |artifacts|)[j] == Stored(oracle, artifacts, j);
    var next := StoredAll(oracle, artifacts, i) + [Stored(oracle, artifacts, i)];
    forall j | 0 <= j < i + 1 ensures StoredAll(oracle, artifacts, i + 1)[j] == next[j] { }
    assert |StoredAll(oracle, artifacts, i + 1)| == |next|;
  }

  /** Each content is that of one single version of its source. */
  ghost predicate FromSources(sources: seq<Source>, contents: seq<Octets>) {
    && |contents| <= |sources|
    && forall i | 0 <= i < |contents| :: FromSource(sources[i], contents[i])
  }

  ghost predicate LimitsOk(result: Envelope, request: Request) {
    && request.configured && request.maxFiles >= 0 && request.maxBytes >= 0
    && |result.artifacts| <= request.maxFiles && NamesUnique(result.artifacts)
  }

  /** The refusals that come before anything is touched, in the order they are checked. */
  function Refusal(result: Envelope, request: Request): (failure: Option<Failure>)
    ensures failure.None? <==> LimitsOk(result, request)
  {
    if !request.configured then Some(Policy("durable Kubernetes artifact storage is not configured"))
    else if request.maxFiles < 0 || request.maxBytes < 0 then Some(Policy("artifact limits must be non-negative"))
    else if |result.artifacts| > request.maxFiles then Some(Policy("artifact file count exceeds policy"))
    else if !NamesUnique(result.artifacts) then Some(Policy("artifact names must be unique within a result"))
    else None
  }

  /** One artifact passes every check when its file is not written to. */
  ghost predicate ArtifactOk(result: Envelope, request: Request, sources: seq<Source>, oracle: Oracle, i: nat)
    requires i < |result.artifacts| == |sources|
  {
    var name, bytes := result.artifacts[i].name, QuietContents(sources)[i];
    && SafeName(name) && sources[i].File? && sources[i].versions != []
    && TornReads.OpenedOf(sources[i].versions[0]) == sources[i].validated
    && Total(QuietContents(sources)[..i + 1]) <= request.maxBytes
    && DeclaredMatches(result.metrics, name, |bytes|, oracle.sha(bytes))
    && oracle.mediaType(result.artifacts[i]).Some?
  }

  ghost predicate Acceptable(result: Envelope, request: Request, sources: seq<Source>, oracle: Oracle)
    requires |result.artifacts| == |sources|
  {
    LimitsOk(result, request) && forall i | 0 <= i < |sources| :: ArtifactOk(result, request, sources, oracle, i)
  }

  /** Which check refuses: the first that does not hold. */
  lemma RefusalReason(result: Envelope, request: Request)
    ensures var reason := Refusal(result, request);
            && (reason == Some(Policy("durable Kubernetes artifact storage is not configured"))
                <==> !request.configured)
            && (reason == Some(Policy("artifact limits must be non-negative"))
                <==> request.configured && (request.maxFiles < 0 || request.maxBytes < 0))
            && (reason == Some(Policy("artifact file count exceeds policy"))
                <==> request.configured && 0 <= request.maxFiles < |result.artifacts| && request.maxBytes >= 0)
            && (reason == Some(Policy("artifact names must be unique within a result"))
                <==> request.configured && request.maxFiles >= |result.artifacts| && request.maxBytes >= 0
                     && exists i, j :: 0 <= i < j < |result.artifacts|
                                       && result.artifacts[i].name == result.artifacts[j].name)
  {
    assert "artifact limits must be non-negative"[9] == 'l' && "artifact file count exceeds policy"[9] == 'f'
           && "artifact names must be unique within a result"[9] == 'n';
  }

  /** What is checked of one artifact besides its file: name, declared size and digest, media type. */
  ghost predicate Checked(result: Envelope, oracle: Oracle, i: nat, bytes: Octets)
    requires i < |result.artifacts|
  {
    var name := result.artifacts[i].name;
    && SafeName(name) && DeclaredMatches(result.metrics, name, |bytes|, oracle.sha(bytes))
    && oracle.mediaType(result.artifacts[i]).Some?
  }

  /** Within the limits, every content is one validated version of its source, and passes the checks. */
  ghost predicate Vetted(result: Envelope, request: Request, sources: seq<Source>, oracle: Oracle,
                         contents: seq<Octets>) {
    && |contents| == |sources| == |result.artifacts| && FromSources(sources, contents)
    && Total(contents) <= request.maxBytes
    && forall i | 0 <= i < |sources| :: Checked(result, oracle, i, contents[i])
  }

  /** The records, metrics and byte count gathered for the first n artifacts. */
  ghost predicate Describes(retained: Retained, result: Envelope, oracle: Oracle, contents: seq<Octets>, n: nat) {
    && n == |contents| <= |result.artifacts|
    && retained.records == RetainedRecords(oracle, result.artifacts, n)
    && retained.metrics == RetainedMetrics(result.metrics, result.artifacts, contents, oracle.sha, n)
    && retained.total == Total(contents)
  }

  lemma {:induction false} MetricsPrefix(metrics: map<string, Metric>, artifacts: seq<Artifact>, contents: seq<Octets>,
                                         more: seq<Octets>, sha: Octets -> string, n: nat)
    requires n <= |artifacts| && n <= |contents|
    ensures RetainedMetrics(metrics, artifacts, contents + more, sha, n) ==
        RetainedMetrics(metrics, artifacts, contents, sha, n)
  {
    if n > 0 { MetricsPrefix(metrics, artifacts, contents, more, sha, n - 1); }
  }

  lemma DescribesNone(result: Envelope, oracle: Oracle)
    ensures Describes(Retained([], result.metrics, 0), result, oracle, [], 0) && Total([]) == 0
  { }

  lemma FromSourcesNext(sources: seq<Source>, contents: seq<Octets>, bytes: Octets)
    requires FromSources(sources, contents) && |contents| < |sources| && FromSource(sources[|contents|], bytes)
    ensures FromSources(sources, contents + [bytes])
  { }

  lemma FromNoSources(sources: seq<Source>)
    ensures FromSources(sources, [])
  { }

  lemma DescribesNext(retained: Retained, result: Envelope, oracle: Oracle, contents: seq<Octets>, n: nat,
                      bytes: Octets, next: Retained)
    requires Describes(retained, result, oracle, contents, n) && n < |result.artifacts|
    requires var artifact := result.artifacts[n];
             next == Retained(
               retained.records
                 + [Artifact(artifact.name, oracle.uri(Stored(oracle, result.artifacts, n)),
                             oracle.mediaType(artifact))],
               retained.metrics[SizeKey(artifact.name) := Number(|bytes|)]
                               [DigestKey(artifact.name) := Text(oracle.sha(bytes))],
               retained.total + |bytes|)
    ensures Describes(next, result, oracle, contents + [bytes], n + 1)
    ensures retained.total == Total(contents) && next.total == Total(contents + [bytes])
  {
    hide Total, Stored, SizeKey, DigestKey, RetainedRecords;
    TotalGrows(contents, bytes);
    MetricsPrefix(result.metrics, result.artifacts, contents, [bytes], oracle.sha, n);
    assert (contents + [bytes])[n] == bytes;
    assert next.records == RetainedRecords(oracle, result.artifacts, n + 1);
  }

  /** The run directory is free, or already holds files with the same digests. */
  ghost predicate DestinationOk(t: Tree, result: Envelope, request: Request, sources: seq<Source>, oracle: Oracle)
    requires |sources| == |result.artifacts|
  {
    || !Exists(t, request.runDir)
    || (request.runDir in t.dirs &&
        HoldsDigests(t, request.runDir, StoredAll(oracle, result.artifacts, |sources|), QuietContents(sources),
                     oracle.sha))
  }

  ghost predicate NoFileOnTheWay(t: Tree, dir: Path) {
    forall p | p in t.files :: !Under(p, dir)
  }

  /** Only directories on the way down to dir were added. */
  ghost predicate ParentsAdded(t: Tree, u: Tree, dir: Path) {
    && u.files == t.files && t.dirs <= u.dirs
    && (forall p | p in u.dirs :: p in t.dirs || (Under(p, dir) && p != []))
    && WellFormed(u)
  }

  /** What an observer may find at the run directory: what was there, the complete retained set, or the
      complete set of a rival forwarder. */
  ghost predicate Allowed(x: Tree, t: Tree, final: Path, names: seq<string>, contents: seq<Octets>,
                          rival: Option<Rival>) {
    || SameUnder(x, t, final)
    || Holds(x, final, names, contents)
    || (rival.Some? && Holds(x, final, rival.value.names, rival.value.contents))
  }

  // ---------------------------------------------------------------- tree lemmas

  lemma WriteInside(t: Tree, d: Path, p: Path, bytes: Octets)
    requires Under(d, p)
    ensures RemoveTree(WriteFile(t, p, bytes), d) == RemoveTree(t, d)
  {
    assert RemoveTree(WriteFile(t, p, bytes), d).files == RemoveTree(t, d).files;
  }

  lemma WriteWellFormed(t: Tree, d: Path, names: seq<string>, contents: seq<Octets>, name: string)
    requires WellFormed(t) && Holds(t, d, names, contents)
    ensures forall bytes :: WellFormed(WriteFile(t, d + [name], bytes))
  {
    assert Parent(d + [name]) == d && d + [name] !in t.dirs;
  }

  lemma RemoveWellFormed(t: Tree, d: Path)
    requires WellFormed(t) && d != []
    ensures WellFormed(RemoveTree(t, d))
  { }

  /** What happens in the staging directory cannot be seen at the run directory. */
  lemma StagingInvisible(t: Tree, x: Tree, base: Tree, staging: Path, final: Path)
    requires final != [] && |staging| == |final| && staging != final
    requires ParentsAdded(t, base, Parent(final)) && RemoveTree(x, staging) == base
    ensures SameUnder(x, t, final)
  {
    forall p | Under(final, p)
      ensures p in x.dirs <==> p in t.dirs
      ensures p in x.files <==> p in t.files
      ensures p in x.files ==> x.files[p] == t.files[p]
    {
      assert !Under(staging, p);
      assert p in x.dirs <==> p in base.dirs;
      assert p in x.files <==> p in base.files;
    }
  }

  lemma StoredOne(t: Tree, d: Path, names: seq<string>, contents: seq<Octets>, name: string, bytes: Octets)
    requires Holds(t, d, names, contents) && forall i | 0 <= i < |names| :: names[i] != name
    ensures Holds(WriteFile(t, d + [name], bytes), d, names + [name], contents + [bytes])
  {
    var u, names', contents' := WriteFile(t, d + [name], bytes), names + [name], contents + [bytes];
    forall i | 0 <= i < |names'| ensures d + [names'[i]] in u.files && u.files[d + [names'[i]]] == contents'[i] {
      assert i < |names| ==> (d + [names[i]])[|d|] == names[i] && (d + [name])[|d|] == name;
    }
    forall p | p in u.files && Under(d, p) ensures exists i | 0 <= i < |names'| :: p == d + [names'[i]] {
      if p == d + [name] {
        assert names'[|names|] == name;
      } else {
        var i :| 0 <= i < |names| && p == d + [names[i]];
        assert names'[i] == names[i];
      }
    }
  }

  lemma EmptyStaging(t: Tree, d: Path)
    requires d != [] && WellFormed(t) && Parent(d) in t.dirs && Absent(t, d)
    ensures var u := MakeDir(t, d);
            WellFormed(u) && Holds(u, d, [], []) && RemoveTree(u, d) == t
  {
    var u := MakeDir(t, d);
    assert RemoveTree(u, d).dirs == t.dirs && RemoveTree(u, d).files == t.files;
  }

  function Plant(t: Tree, d: Path, names: seq<string>, contents: seq<Octets>, n: nat): Tree
    requires n <= |names| && n <= |contents|
  {
    if n == 0 then MakeDir(t, d)
    else WriteFile(Plant(t, d, names, contents, n - 1), d + [names[n - 1]], contents[n - 1])
  }

  lemma {:induction false} PlantHolds(t: Tree, d: Path, names: seq<string>, contents: seq<Octets>, n: nat)
    requires n <= |names| == |contents| && Distinct(names) && d != [] && WellFormed(t) && Parent(d) in t.dirs
    requires Absent(t, d)
    ensures var u := Plant(t, d, names, contents, n);
            Holds(u, d, names[..n], contents[..n]) && RemoveTree(u, d) == t && WellFormed(u)
  {
    hide Holds, RemoveTree, Absent;
    if n == 0 {
      EmptyStaging(t, d);
    } else {
      PlantHolds(t, d, names, contents, n - 1);
      var u := Plant(t, d, names, contents, n - 1);
      StoredOne(u, d, names[..n - 1], contents[..n - 1], names[n - 1], contents[n - 1]);
      assert names[..n] == names[..n - 1] + [names[n - 1]] && contents[..n] == contents[..n - 1] + [contents[n - 1]];
      WriteInside(u, d, d + [names[n - 1]], contents[n - 1]);
      assert Parent(d + [names[n - 1]]) == d;
    }
  }

  lemma RenameWellFormed(t: Tree, from: Path, to: Path, names: seq<string>, contents: seq<Octets>)
    requires WellFormed(t) && from != [] && |from| == |to| && from != to && Parent(from) == Parent(to)
    requires Holds(t, from, names, contents)
    requires Absent(t, to)
    ensures WellFormed(Rename(t, from, to))
  {
    var u := Rename(t, from, to);
    RenameHolds(t, from, to, names, contents);
    var rest := RemoveTree(t, from);
    RemoveWellFormed(t, from);
    forall p | p in u.files ensures p != [] && Parent(p) in u.dirs && p !in u.dirs {
      if Under(to, p) {
        var i :| 0 <= i < |names| && p == to + [names[i]];
        assert Parent(p) == to;
      } else {
        assert p in RemoveTree(u, to).files;
      }
    }
    forall p | p in u.dirs && p != [] ensures Parent(p) in u.dirs {
      if Under(to, p) { assert p == to; } else { assert p in RemoveTree(u, to).dirs; }
    }
  }

  lemma HoldsIsHoldsDigests(t: Tree, d: Path, names: seq<string>, contents: seq<Octets>, sha: Octets -> string)
    requires Holds(t, d, names, contents)
    ensures HoldsDigests(t, d, names, contents, sha)
  { }

  /** The two trees agree on everything outside two directories. */
  ghost predicate SameBut(t: Tree, u: Tree, a: Path, b: Path) {
    && (forall p | !Under(a, p) && !Under(b, p) :: p in t.dirs <==> p in u.dirs)
    && (forall p | !Under(a, p) && !Under(b, p) :: p in t.files <==> p in u.files)
    && (forall p | !Under(a, p) && !Under(b, p) && p in t.files && p in u.files :: t.files[p] == u.files[p])
  }

  lemma SameSame(t: Tree, a: Path, b: Path)
    ensures SameUnder(t, t, a) && SameUnder(t, t, b) && SameBut(t, t, a, b)
  { }

  lemma DigestsFrame(t: Tree, u: Tree, d: Path, names: seq<string>, contents: seq<Octets>, sha: Octets -> string)
    requires SameUnder(t, u, d) && HoldsDigests(t, d, names, contents, sha)
    ensures HoldsDigests(u, d, names, contents, sha)
  {
    assert Under(d, d);
    assert forall i | 0 <= i < |names| :: Under(d, d + [names[i]]);
  }

  lemma HoldsFrame(t: Tree, u: Tree, d: Path, names: seq<string>, contents: seq<Octets>)
    requires SameUnder(t, u, d) && Holds(t, d, names, contents)
    ensures Holds(u, d, names, contents)
  {
    assert Under(d, d);
    assert forall i | 0 <= i < |names| :: Under(d, d + [names[i]]);
  }

  lemma RemoveSame(t: Tree, a: Path, b: Path)
    requires |a| == |b| && a != b
    ensures SameUnder(t, RemoveTree(t, a), b) && SameBut(t, RemoveTree(t, a), a, b)
    ensures Absent(RemoveTree(t, a), a)
  { }

  lemma PlantSame(t: Tree, u: Tree, a: Path, b: Path)
    requires |a| == |b| && a != b && RemoveTree(u, b) == t && Absent(t, b)
    ensures SameBut(t, u, a, b) && SameUnder(t, u, a)
  {
    forall p | !Under(b, p)
      ensures p in t.dirs <==> p in u.dirs
      ensures p in t.files <==> p in u.files
      ensures p in t.files ==> t.files[p] == u.files[p]
    {
      assert p in RemoveTree(u, b).files <==> p in u.files;
    }
  }

  lemma RenameSame(t: Tree, a: Path, b: Path)
    requires |a| == |b| && a != b && Absent(t, b)
    ensures SameBut(t, Rename(t, a, b), a, b)
    ensures Absent(Rename(t, a, b), a)
  {
    RenameLeavesRest(t, a, b);
    var u := Rename(t, a, b);
    forall p | !Under(b, p) && !Under(a, p)
      ensures p in t.dirs <==> p in u.dirs
      ensures p in t.files <==> p in u.files
      ensures p in t.files ==> t.files[p] == u.files[p]
    {
      assert p in RemoveTree(u, b).files <==> p in RemoveTree(t, a).files;
      assert p in RemoveTree(u, b).dirs <==> p in RemoveTree(t, a).dirs;
    }
  }

  lemma SameTrans(t: Tree, u: Tree, v: Tree, a: Path, b: Path)
    requires SameBut(t, u, a, b) && SameBut(u, v, a, b)
    ensures SameBut(t, v, a, b)
  { }

  lemma ParentThere(t: Tree, d: Path, names: seq<string>, contents: seq<Octets>)
    requires WellFormed(t) && d != [] && Holds(t, d, names, contents)
    ensures Parent(d) in t.dirs
  { }

  lemma HoldsThere(t: Tree, d: Path, names: seq<string>, contents: seq<Octets>)
    requires Holds(t, d, names, contents)
    ensures d in t.dirs
  { }

  lemma NotBoth(t: Tree, d: Path)
    requires WellFormed(t)
    ensures d in t.files ==> d !in t.dirs
  { }

  lemma SameFlip(t: Tree, u: Tree, d: Path)
    requires SameUnder(t, u, d)
    ensures SameUnder(u, t, d)
  { }

  lemma Nothing(t: Tree, d: Path)
    requires WellFormed(t) && !Exists(t, d)
    ensures Absent(t, d)
  {
    forall p | p in t.dirs || p in t.files ensures !Under(d, p) {
      if Under(d, p) && p != d { NothingUnder(t, d, p); }
    }
  }

  function Staging(runDir: Path, name: string): Path
    requires runDir != []
  {
    Parent(runDir) + [name]
  }

  /** mkdtemp picks a name beside the run directory that is not in use. */
  ghost predicate StagingFree(t: Tree, runDir: Path, name: string)
    requires runDir != []
  {
    name != Name(runDir) && !Exists(t, Staging(runDir, name))
  }

  /** Every file and directory that was there is kept, and nothing appears but on the way to the run
      directory, in it, or in the staging directory. */
  ghost predicate OthersKept(t: Tree, u: Tree, staging: Path, final: Path) {
    && t.dirs <= u.dirs
    && (forall p | p in t.files :: p in u.files && u.files[p] == t.files[p])
    && (forall p | p in u.files :: p in t.files || Under(final, p) || Under(staging, p))
    && (forall p | p in u.dirs :: p in t.dirs || Under(p, final) || Under(final, p) || Under(staging, p))
  }

  lemma StagingAbsent(t: Tree, u: Tree, final: Path, name: string)
    requires final != [] && WellFormed(t) && StagingFree(t, final, name) && ParentsAdded(t, u, Parent(final))
    ensures Absent(t, Staging(final, name)) && Absent(u, Staging(final, name))
  {
    Nothing(t, Staging(final, name));
    Nothing(u, Staging(final, name));
  }

  lemma KeptWhileStaging(t: Tree, x: Tree, staging: Path, final: Path)
    requires final != [] && ParentsAdded(t, RemoveTree(x, staging), Parent(final))
    ensures OthersKept(t, x, staging, final)
  {
    var base := RemoveTree(x, staging);
    forall p | p in x.files && !Under(staging, p) ensures p in t.files { assert p in base.files; }
    forall p | p in t.files ensures p in x.files && x.files[p] == t.files[p] { assert p in base.files; }
    forall p | p in x.dirs && !Under(staging, p) ensures p in t.dirs || Under(p, final) {
      assert p in base.dirs;
      assert Under(p, Parent(final)) ==> Under(p, final);
    }
  }

  lemma {:induction false} AncestorsThere(t: Tree, p: Path, d: Path)
    requires WellFormed(t) && d in t.dirs && Under(p, d)
    ensures p in t.dirs
    decreases |d|
  {
    if p != d {
      assert Under(p, Parent(d));
      AncestorsThere(t, p, Parent(d));
    }
  }

  /** Retaining a run again changes nothing. */
  lemma KeptWhole(t: Tree, u: Tree, staging: Path, final: Path)
    requires WellFormed(t) && final in t.dirs && OthersKept(t, u, staging, final)
    requires SameUnder(t, u, final) && Absent(u, staging)
    ensures t == u
  {
    forall p | p in u.dirs ensures p in t.dirs {
      if Under(p, final) { AncestorsThere(t, p, final); }
    }
    assert u.dirs == t.dirs;
    forall p | p in u.files ensures p in t.files { }
    assert u.files == t.files;
  }

  lemma KeptItself(t: Tree, staging: Path, final: Path)
    ensures OthersKept(t, t, staging, final) && SameUnder(t, t, final)
  { }

  lemma KeptByCommit(t: Tree, x: Tree, y: Tree, staging: Path, final: Path)
    requires OthersKept(t, x, staging, final) && SameBut(x, y, staging, final) && Absent(t, staging)
    requires SameUnder(x, y, final) || Absent(t, final)
    ensures OthersKept(t, y, staging, final)
  { }

  lemma SameOutside(x: Tree, y: Tree, staging: Path, final: Path)
    requires |staging| == |final| && staging != final && RemoveTree(x, staging) == RemoveTree(y, staging)
    ensures SameBut(x, y, staging, final) && SameUnder(x, y, final) && SameUnder(y, x, final)
  {
    var a, b := RemoveTree(x, staging), RemoveTree(y, staging);
    forall p | !Under(staging, p)
      ensures p in x.dirs <==> p in y.dirs
      ensures p in x.files <==> p in y.files
      ensures p in x.files ==> x.files[p] == y.files[p]
    {
      assert p in a.dirs <==> p in b.dirs;
      assert p in a.files <==> p in b.files;
    }
  }

  lemma AllowedFrame(x: Tree, y: Tree, t: Tree, final: Path, names: seq<string>, contents: seq<Octets>,
                     rival: Option<Rival>)
    requires Allowed(x, t, final, names, contents, rival) && SameUnder(x, y, final)
    ensures Allowed(y, t, final, names, contents, rival)
  {
    hide Holds, SameUnder;
    if SameUnder(x, t, final) {
      SameFlip(x, y, final);
      SameUnderTrans(y, x, t, final);
    } else if Holds(x, final, names, contents) {
      HoldsFrame(x, y, final, names, contents);
    } else {
      HoldsFrame(x, y, final, rival.value.names, rival.value.contents);
    }
  }

  lemma AllowedBase(x: Tree, t: Tree, u: Tree, final: Path, names: seq<string>, contents: seq<Octets>,
                    rival: Option<Rival>)
    requires Allowed(x, t, final, names, contents, rival) && SameUnder(t, u, final)
    ensures Allowed(x, u, final, names, contents, rival)
  {
    hide Holds, SameUnder;
    if SameUnder(x, t, final) { SameUnderTrans(x, t, u, final); }
  }

  lemma AbsentUnless(t: Tree, d: Path)
    requires WellFormed(t)
    ensures !Exists(t, d) ==> Absent(t, d)
  {
    if !Exists(t, d) { Nothing(t, d); }
  }

  /** Every state from the n-th on shows the observer something allowed at the run directory. */
  ghost predicate AllAllowed(seen: seq<Tree>, n: nat, t: Tree, final: Path, names: seq<string>, contents: seq<Octets>,
                             rival: Option<Rival>) {
    forall k | n <= k < |seen| :: Allowed(seen[k], t, final, names, contents, rival)
  }

  lemma AllSame(seen: seq<Tree>, n: nat, t: Tree, final: Path, names: seq<string>, contents: seq<Octets>,
                rival: Option<Rival>)
    requires forall k | n <= k < |seen| :: SameUnder(seen[k], t, final)
    ensures AllAllowed(seen, n, t, final, names, contents, rival)
  {
    hide SameUnder, Holds;
  }

  lemma TrailAllowed(seen: seq<Tree>, m: nat, n: nat, x: Tree, t: Tree, u: Tree, final: Path, names: seq<string>,
                     contents: seq<Octets>, rival: Option<Rival>)
    requires m <= n <= |seen| && (forall k | m <= k < n :: SameUnder(seen[k], u, final)) && SameUnder(t, u, final)
    requires AllAllowed(seen, n, t, final, names, contents, rival) && Allowed(x, t, final, names, contents, rival)
    ensures AllAllowed(seen, m, u, final, names, contents, rival) && Allowed(x, u, final, names, contents, rival)
  {
    hide SameUnder, Holds;
    AllowedBase(x, t, u, final, names, contents, rival);
    forall k | n <= k < |seen| ensures Allowed(seen[k], u, final, names, contents, rival) {
      AllowedBase(seen[k], t, u, final, names, contents, rival);
    }
  }

  lemma AllReframed(before: seq<Tree>, seen: seq<Tree>, m: nat, x: Tree, t: Tree, final: Path, names: seq<string>,
                    contents: seq<Octets>, rival: Option<Rival>)
    requires before <= seen && AllAllowed(before, m, t, final, names, contents, rival)
    requires Allowed(x, t, final, names, contents, rival)
    requires forall k | |before| <= k < |seen| :: SameUnder(x, seen[k], final)
    ensures AllAllowed(seen, m, t, final, names, contents, rival)
  {
    hide SameUnder, Allowed;
    forall k | m <= k < |seen| ensures Allowed(seen[k], t, final, names, contents, rival) {
      if k < |before| {
        assert seen[k] == before[k];
      } else {
        AllowedFrame(x, seen[k], t, final, names, contents, rival);
      }
    }
  }

  lemma SameUnderTrans(t: Tree, u: Tree, v: Tree, d: Path)
    requires SameUnder(t, u, d) && SameUnder(u, v, d)
    ensures SameUnder(t, v, d)
  { }

  lemma SameExists(t: Tree, u: Tree, d: Path)
    requires SameUnder(t, u, d)
    ensures (d in t.dirs <==> d in u.dirs) && (Exists(t, d) <==> Exists(u, d))
  {
    assert Under(d, d);
  }

  lemma SameDigests(t: Tree, u: Tree, d: Path, names: seq<string>, contents: seq<Octets>, sha: Octets -> string)
    requires SameUnder(t, u, d)
    ensures HoldsDigests(t, d, names, contents, sha) <==> HoldsDigests(u, d, names, contents, sha)
  {
    hide HoldsDigests, SameUnder;
    SameFlip(t, u, d);
    if HoldsDigests(t, d, names, contents, sha) { DigestsFrame(t, u, d, names, contents, sha); }
    if HoldsDigests(u, d, names, contents, sha) { DigestsFrame(u, t, d, names, contents, sha); }
  }

  lemma SameDestination(t: Tree, u: Tree, result: Envelope, request: Request, sources: seq<Source>, oracle: Oracle)
    requires |sources| == |result.artifacts| && SameUnder(t, u, request.runDir)
    ensures DestinationOk(t, result, request, sources, oracle) <==> DestinationOk(u, result, request, sources, oracle)
  {
    hide HoldsDigests, SameUnder;
    SameExists(t, u, request.runDir);
    var stored := StoredAll(oracle, result.artifacts, |sources|);
    SameDigests(t, u, request.runDir, stored, QuietContents(sources), oracle.sha);
  }
}
