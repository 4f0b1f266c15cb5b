/** Retaining a result's artifacts: all of them, or a failed result that names none. */
module Retention {
  import opened Wrappers
  import opened Bytes
  import opened FileTree
  import TornReads
  import StoredNames

  datatype Artifact = Artifact(name: string, uri: string, media: Option<string>)

  datatype Metric = Number(value: int) | Text(text: string) | Null | OtherValue

  /** body stands for data and handoff; error "" for a missing error. */
  datatype Envelope = Envelope(success: bool, body: string, artifacts: seq<Artifact>,
                               metrics: map<string, Metric>, error: string)

  /** What resolving an artifact's URI under the worker root gives: nothing retainable, or an open file. */
  datatype Source =
    | Unresolvable
    | File(versions: seq<TornReads.Version>, at: nat, script: seq<TornReads.Beat>, validated: TornReads.Opened)

  /** configured: destination and URI root are both set. runDir: projects/scope/runs/run below the root. */
  datatype Request = Request(configured: bool, maxFiles: int, maxBytes: int, runDir: Path)

  /** The digest, the sixteen-character name digest, the media type check and the recorded URI. */
  datatype Oracle = Oracle(sha: Octets -> string, nameDigest: string -> string,
                           mediaType: Artifact -> Option<string>, uri: string -> string)

  /** Another forwarder's commit of the same run between our exists() and our rename(), and whether the
      refused rename reports "exists" or "not empty". */
  datatype Rival = Rival(names: seq<string>, contents: seq<Octets>, reportsExists: bool)

  datatype Failure = Policy(reason: string) | StorageError

  // ---------------------------------------------------------------- checks

  predicate SafeName(name: string) {
    && |name| <= 255 && name != "." && name != ".."
    && forall c | c in name :: c != '/' && c != '\\' && c as int >= 32
  }

  predicate IsHex64(s: string) {
    |s| == 64 && forall c | c in s :: '0' <= c <= '9' || 'a' <= c <= 'f'
  }

  function WithoutPrefix(s: string, prefix: string): string {
    if prefix <= s then s[|prefix|..] else s
  }

  function SizeKey(name: string): string { "artifact." + name + ".bytes" }

  function DigestKey(name: string): string { "artifact." + name + ".sha256" }

  const FILES_KEY := "artifact.retained.files"
  const BYTES_KEY := "artifact.retained.bytes"

  function Declared(metrics: map<string, Metric>, key: string): Metric {
    if key in metrics then metrics[key] else Null
  }

  /** A declared size or digest must be the actual one. */
  predicate DeclaredMatches(metrics: map<string, Metric>, name: string, size: nat, digest: string) {
    && (var m := Declared(metrics, SizeKey(name)); m.Null? || m == Number(size))
    && (var m := Declared(metrics, DigestKey(name));
        m.Null? || (m.Text? &&
          var normalized := WithoutPrefix(StoredNames.Lower(m.text), "sha256:");
          IsHex64(normalized) && normalized == digest))
  }

  predicate NamesUnique(artifacts: seq<Artifact>) {
    forall i, j | 0 <= i < j < |artifacts| :: artifacts[i].name != artifacts[j].name
  }

  function Stored(oracle: Oracle, artifacts: seq<Artifact>, i: nat): string
    requires i < |artifacts|
  {
    StoredNames.StoredName(i, artifacts[i].name, oracle.nameDigest(artifacts[i].name))
  }

  function StoredAll(oracle: Oracle, artifacts: seq<Artifact>, n: nat): (names: seq<string>)
    requires n <= |artifacts|
    ensures |names| == n && forall i | 0 <= i < n :: names[i] == Stored(oracle, artifacts, i)
  {
    seq(n, i requires 0 <= i < n => Stored(oracle, artifacts, i))
  }

  lemma StoredDistinct(oracle: Oracle, artifacts: seq<Artifact>)
    ensures Distinct(StoredAll(oracle, artifacts, |artifacts|))
  {
    var names := StoredAll(oracle, artifacts, |artifacts|);
    forall i, j | 0 <= i < j < |names| ensures names[i] != names[j] {
      StoredNames.StoredNamesDistinct(i, j, artifacts[i].name, artifacts[j].name,
                                      oracle.nameDigest(artifacts[i].name), oracle.nameDigest(artifacts[j].name));
    }
  }

  function Total(contents: seq<Octets>): nat {
    if contents == [] then 0 else Total(contents[..|contents| - 1]) + |contents[|contents| - 1]|
  }

  // ---------------------------------------------------------------- the two envelopes

  /** The metrics of a retained result: per artifact its size and digest, then the two totals. */
  function RetainedMetrics(metrics: map<string, Metric>, artifacts: seq<Artifact>, contents: seq<Octets>,
                           sha: Octets -> string, n: nat): map<string, Metric>
    requires n <= |artifacts| && n <= |contents|
  {
    if n == 0 then metrics
    else
      var name := artifacts[n - 1].name;
      RetainedMetrics(metrics, artifacts, contents, sha, n - 1)
        [SizeKey(name) := Number(|contents[n - 1]|)][DigestKey(name) := Text(sha(contents[n - 1]))]
  }

  function FinalMetrics(metrics: map<string, Metric>, artifacts: seq<Artifact>, contents: seq<Octets>,
                        sha: Octets -> string): map<string, Metric>
    requires |artifacts| == |contents|
  {
    RetainedMetrics(metrics, artifacts, contents, sha, |artifacts|)
      [FILES_KEY := Number(|artifacts|)][BYTES_KEY := Number(Total(contents))]
  }

  lemma KeysApart(a: string, b: string)
    ensures SizeKey(a) == SizeKey(b) ==> a == b
    ensures DigestKey(a) == DigestKey(b) ==> a == b
    ensures SizeKey(a) != DigestKey(b) && SizeKey(a) != FILES_KEY
    ensures DigestKey(a) != FILES_KEY && DigestKey(a) != BYTES_KEY
    ensures SizeKey(a) == BYTES_KEY <==> a == "retained"
  {
    var size, digest := SizeKey(a), DigestKey(a);
    assert size[|size| - 1] == 's' && size[|size| - 3] == 't';
    assert digest[|digest| - 1] == '6' && DigestKey(b)[|DigestKey(b)| - 1] == '6';
    assert FILES_KEY[|FILES_KEY| - 1] == 's' && FILES_KEY[|FILES_KEY| - 3] == 'l' && BYTES_KEY[|BYTES_KEY| - 1] == 's';
    assert a == size[9..|size| - 6] && b == SizeKey(b)[9..|SizeKey(b)| - 6];
    assert a == digest[9..|digest| - 7] && b == DigestKey(b)[9..|DigestKey(b)| - 7];
    assert SizeKey("retained") == BYTES_KEY && BYTES_KEY[9..|BYTES_KEY| - 6] == "retained";
  }

  lemma {:induction false} RetainedMetricsAt(metrics: map<string, Metric>, artifacts: seq<Artifact>,
                                             contents: seq<Octets>, sha: Octets -> string, n: nat, i: nat)
    requires i < n <= |artifacts| && n <= |contents| && NamesUnique(artifacts)
    ensures var m := RetainedMetrics(metrics, artifacts, contents, sha, n);
            && SizeKey(artifacts[i].name) in m && m[SizeKey(artifacts[i].name)] == Number(|contents[i]|)
            && DigestKey(artifacts[i].name) in m && m[DigestKey(artifacts[i].name)] == Text(sha(contents[i]))
  {
    hide SizeKey, DigestKey;
    KeysApart(artifacts[i].name, artifacts[n - 1].name);
    KeysApart(artifacts[n - 1].name, artifacts[i].name);
    if i < n - 1 { RetainedMetricsAt(metrics, artifacts, contents, sha, n - 1, i); }
  }

  lemma {:induction false} RetainedMetricsElsewhere(metrics: map<string, Metric>, artifacts: seq<Artifact>,
                                                    contents: seq<Octets>, sha: Octets -> string, n: nat, key: string)
    requires n <= |artifacts| && n <= |contents|
    requires forall i | 0 <= i < n :: key != SizeKey(artifacts[i].name) && key != DigestKey(artifacts[i].name)
    ensures Declared(RetainedMetrics(metrics, artifacts, contents, sha, n), key) == Declared(metrics, key)
  {
    hide SizeKey, DigestKey;
    if n > 0 { RetainedMetricsElsewhere(metrics, artifacts, contents, sha, n - 1, key); }
  }

  /** What a reader finds in a retained result's metrics: each artifact's size and digest and the two
      totals. An artifact named "retained" shares its size key with the byte total, which wins: its size
      can be read exactly when it is the only artifact with bytes. */
  lemma FinalMetricsMeaning(metrics: map<string, Metric>, artifacts: seq<Artifact>, contents: seq<Octets>,
                            sha: Octets -> string, i: nat)
    requires i < |artifacts| == |contents| && NamesUnique(artifacts)
    ensures var m, name := FinalMetrics(metrics, artifacts, contents, sha), artifacts[i].name;
            && Declared(m, DigestKey(name)) == Text(sha(contents[i]))
            && (Declared(m, SizeKey(name)) == Number(|contents[i]|) <==>
                  name != "retained" || Total(contents) == |contents[i]|)
            && Declared(m, FILES_KEY) == Number(|artifacts|) && Declared(m, BYTES_KEY) == Number(Total(contents))
  {
    hide SizeKey, DigestKey;
    RetainedMetricsAt(metrics, artifacts, contents, sha, |artifacts|, i);
    KeysApart(artifacts[i].name, artifacts[i].name);
  }

  /** Metrics that are not about artifacts are passed through. */
  lemma OtherMetricsKept(metrics: map<string, Metric>, artifacts: seq<Artifact>, contents: seq<Octets>,
                         sha: Octets -> string, key: string)
    requires |artifacts| == |contents| && !("artifact." <= key)
    ensures Declared(FinalMetrics(metrics, artifacts, contents, sha), key) == Declared(metrics, key)
  {
    assert forall name :: "artifact." <= SizeKey(name) && "artifact." <= DigestKey(name);
    assert "artifact." <= FILES_KEY && "artifact." <= BYTES_KEY;
    RetainedMetricsElsewhere(metrics, artifacts, contents, sha, |artifacts|, key);
  }

  lemma {:induction false} LowerFixed(s: string)
    requires forall c | c in s :: !('A' <= c <= 'Z')
    ensures StoredNames.Lower(s) == s
  {
    if s != [] {
      assert s[0] in s && forall c | c in s[1..] :: c in s;
      LowerFixed(s[1..]);
    }
  }

  /** What SHA-256 produces: 64 lower-case hex digits. */
  predicate IsDigest(s: string) { |s| == 64 && forall c | c in s :: c in "0123456789abcdef" }

  lemma DigestIsHex(s: string)
    requires IsDigest(s)
    ensures IsHex64(s) && !("sha256:" <= s)
  {
    assert s[0] in s && "sha256:"[0] == 's';
  }

  /** The check passes exactly when the size is undeclared or the actual one as a number, and the digest is
      undeclared or a text that is the actual one, in any case and with or without "sha256:". */
  lemma DigestAccepted(metrics: map<string, Metric>, name: string, size: nat, digest: string)
    requires IsDigest(digest)
    ensures DeclaredMatches(metrics, name, size, digest) <==>
              && Declared(metrics, SizeKey(name)) in {Null, Number(size)}
              && (Declared(metrics, DigestKey(name)) == Null ||
                  exists text :: Declared(metrics, DigestKey(name)) == Text(text)
                                 && StoredNames.Lower(text) in {digest, "sha256:" + digest})
  {
    DigestIsHex(digest);
    assert ("sha256:" + digest)[7..] == digest;
    var m := Declared(metrics, DigestKey(name));
    if m.Text? {
      var lower := StoredNames.Lower(m.text);
      assert "sha256:" <= lower ==> lower == "sha256:" + lower[7..];
    }
  }

  /** The metrics retention writes pass its own check when the result is retained again, with the one
      exception above. */
  lemma RetainedMetricsVerify(metrics: map<string, Metric>, artifacts: seq<Artifact>, contents: seq<Octets>,
                              sha: Octets -> string, i: nat)
    requires i < |artifacts| == |contents| && NamesUnique(artifacts) && IsDigest(sha(contents[i]))
    ensures DeclaredMatches(FinalMetrics(metrics, artifacts, contents, sha), artifacts[i].name, |contents[i]|,
        sha(contents[i]))
            <==> artifacts[i].name != "retained" || Total(contents) == |contents[i]|
  {
    hide FinalMetrics, SizeKey, DigestKey, Total;
    var digest := sha(contents[i]);
    FinalMetricsMeaning(metrics, artifacts, contents, sha, i);
    SizeIsNumber(metrics, artifacts, contents, sha, i);
    LowerFixed(digest);
    DigestIsHex(digest);
  }

  lemma SizeIsNumber(metrics: map<string, Metric>, artifacts: seq<Artifact>, contents: seq<Octets>,
                     sha: Octets -> string, i: nat)
    requires i < |artifacts| == |contents| && NamesUnique(artifacts)
    ensures Declared(FinalMetrics(metrics, artifacts, contents, sha), SizeKey(artifacts[i].name)).Number?
  {
    hide SizeKey, DigestKey, Total;
    RetainedMetricsAt(metrics, artifacts, contents, sha, |artifacts|, i);
    KeysApart(artifacts[i].name, artifacts[i].name);
  }

  function RetainedRecords(oracle: Oracle, artifacts: seq<Artifact>, n: nat): (records: seq<Artifact>)
    requires n <= |artifacts|
    ensures |records| == n
    ensures forall i | 0 <= i < n ::
              records[i] == Artifact(artifacts[i].name, oracle.uri(Stored(oracle, artifacts, i)),
                  oracle.mediaType(artifacts[i]))
  {
    seq(n, i requires 0 <= i < n =>
      Artifact(artifacts[i].name, oracle.uri(Stored(oracle, artifacts, i)), oracle.mediaType(artifacts[i])))
  }

  function Reason(failure: Failure): string {
    if failure.Policy? then failure.reason else "artifact storage I/O did not complete"
  }

  /** The failed envelope that cannot carry unretained metadata. */
  function RetentionFailure(result: Envelope, failure: Failure): Envelope {
    var message := "artifact retention failed: " + Reason(failure);
    Envelope(false, result.body, [],
             map key | key in result.metrics && !("artifact." <= key) :: result.metrics[key],
             if result.error != "" then result.error + "; " + message else message)
  }

  /** A failed retention leaves no trace of the artifacts and keeps every other metric. */
  lemma FailureHidesArtifacts(result: Envelope, failure: Failure, key: string)
    ensures var out := RetentionFailure(result, failure);
            && !out.success && out.artifacts == [] && out.body == result.body && out.error != ""
            && out.error == result.error + (if result.error == "" then "" else "; ")
                            + ("artifact retention failed: " +
                               match failure
                               case Policy(reason) => reason
                               case StorageError => "artifact storage I/O did not complete")
            && (if "artifact." <= key then key !in out.metrics
                else
                  && Declared(out.metrics, key) == Declared(result.metrics, key)
                  && (key in out.metrics <==> key in result.metrics))
  {
    var message := "artifact retention failed: " + Reason(failure);
    if result.error == "" { assert result.error + "" + message == message; }
    if "artifact." <= key { assert key !in RetentionFailure(result, failure).metrics; }
  }

  // ---------------------------------------------------------------- comparing directories

  predicate EntriesMatch(t: Tree, a: Path, b: Path, sha: Octets -> string) {
    && (forall p | p in t.dirs && |p| == |a| + 1 :: !Under(a, p))
    && forall p | p in t.files && |p| == |a| + 1 && Under(a, p) ::
         b + [Name(p)] in t.files && sha(t.files[p]) == sha(t.files[b + [Name(p)]])
  }

  /** Same file names, same digests, no sub-directories. */
  predicate DirectoriesMatch(t: Tree, a: Path, b: Path, sha: Octets -> string) {
    EntriesMatch(t, a, b, sha) && EntriesMatch(t, b, a, sha)
  }

  /** d holds one file per name, whose digest is that of the content: the very bytes unless SHA-256
      collides. */
  ghost predicate HoldsDigests(t: Tree, d: Path, names: seq<string>, contents: seq<Octets>, sha: Octets -> string) {
    && |names| == |contents| && d in t.dirs
    && (forall p | p in t.dirs && |p| == |d| + 1 :: !Under(d, p))
    && (forall p | p in t.files && |p| == |d| + 1 && Under(d, p) :: exists i | 0 <= i < |names| :: p == d + [names[i]])
    && (forall i | 0 <= i < |names| :: d + [names[i]] in t.files && sha(t.files[d + [names[i]]]) == sha(contents[i]))
  }

  /** Against a directory that holds these files, the comparison holds exactly when every one of them is in
      the other directory with the same digest. */
  lemma EntriesFrom(t: Tree, a: Path, b: Path, names: seq<string>, contents: seq<Octets>, sha: Octets -> string)
    requires Holds(t, a, names, contents)
    ensures EntriesMatch(t, a, b, sha) <==>
              forall i | 0 <= i < |names| ::
                b + [names[i]] in t.files && sha(contents[i]) == sha(t.files[b + [names[i]]])
  {
    forall i | 0 <= i < |names|
      ensures a + [names[i]] in t.files && Under(a, a + [names[i]]) && Name(a + [names[i]]) == names[i]
    { }
    if forall i | 0 <= i < |names| :: b + [names[i]] in t.files && sha(contents[i]) == sha(t.files[b + [names[i]]]) {
      forall p | p in t.files && |p| == |a| + 1 && Under(a, p)
        ensures b + [Name(p)] in t.files && sha(t.files[p]) == sha(t.files[b + [Name(p)]])
      {
        var i :| 0 <= i < |names| && p == a + [names[i]];
      }
    }
  }

  lemma NamedEntries(t: Tree, a: Path, b: Path, names: seq<string>, contents: seq<Octets>, p: Path)
    requires Holds(t, a, names, contents) && |p| == |b| + 1 && Under(b, p) && a + [Name(p)] in t.files
    ensures exists i | 0 <= i < |names| :: p == b + [names[i]]
  {
    var q := a + [Name(p)];
    var i :| 0 <= i < |names| && q == a + [names[i]];
    assert q[|a|] == names[i] && p == b + [names[i]];
  }

  lemma HeldMatches(t: Tree, a: Path, b: Path, names: seq<string>, contents: seq<Octets>, sha: Octets -> string)
    requires Holds(t, a, names, contents) && HoldsDigests(t, b, names, contents, sha)
    ensures EntriesMatch(t, b, a, sha)
  {
    forall p | p in t.files && |p| == |b| + 1 && Under(b, p)
      ensures a + [Name(p)] in t.files && sha(t.files[p]) == sha(t.files[a + [Name(p)]])
    {
      var i :| 0 <= i < |names| && p == b + [names[i]];
      assert Name(p) == names[i];
    }
  }

  lemma MatchHolds(t: Tree, a: Path, b: Path, names: seq<string>, contents: seq<Octets>, sha: Octets -> string)
    requires Holds(t, a, names, contents) && b in t.dirs
    ensures DirectoriesMatch(t, a, b, sha) <==> HoldsDigests(t, b, names, contents, sha)
  {
    EntriesFrom(t, a, b, names, contents, sha);
    if DirectoriesMatch(t, a, b, sha) {
      forall p | p in t.files && |p| == |b| + 1 && Under(b, p)
        ensures exists i | 0 <= i < |names| :: p == b + [names[i]]
      {
        NamedEntries(t, a, b, names, contents, p);
      }
      assert HoldsDigests(t, b, names, contents, sha) by { hide Holds; }
    }
    if HoldsDigests(t, b, names, contents, sha) {
      HeldMatches(t, a, b, names, contents, sha);
    }
  }
}
