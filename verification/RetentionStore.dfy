/** The retention code on a volume whose operations can fail. */
module RetentionStore {
  import opened Wrappers
  import opened Bytes
  import opened FileTree
  import opened Retention
  import opened RetentionSpec
  import TornReads

  class ArtifactVolume {
    var tree: Tree
    // Whether each coming file operation fails with an OSError; an exhausted list means no more failures.
    var faults: seq<bool>
    // Every state the volume went through.
    ghost var seen: seq<Tree>

    constructor (tree: Tree, faults: seq<bool>)
      ensures this.tree == tree && this.faults == faults && seen == [tree]
    {
      this.tree, this.faults, seen := tree, faults, [tree];
    }

    /** One file operation: it happens as a whole or raises. */
    method Apply(next: Tree) returns (ok: bool)
      modifies this`tree, this`faults, this`seen
      ensures if ok then tree == next && seen == old(seen) + [next] else tree == old(tree) && seen == old(seen)
      ensures old(faults) == [] ==> ok && faults == []
      ensures old(faults) != [] ==> ok == !old(faults)[0] && faults == old(faults)[1..]
      ensures Failures(old(faults)) == Failures(faults) + if ok then 0 else 1
    {
      if faults != [] {
        var fails := faults[0];
        faults := faults[1..];
        if fails { return false; }
      }
      tree, seen := next, seen + [next];
      return true;
    }

    /** mkdir each directory on the way down. */
    method EnsureDirectoryTree(dir: Path) returns (ok: bool)
      requires WellFormed(tree)
      modifies this`tree, this`faults, this`seen
      ensures ParentsAdded(old(tree), tree, dir)
      ensures old(seen) <= seen && forall k | |old(seen)| <= k < |seen| :: ParentsAdded(old(tree), seen[k], dir)
      ensures ok ==> dir in tree.dirs && Failures(faults) == Failures(old(faults))
      ensures old(faults) == [] ==> faults == [] && (ok <==> NoFileOnTheWay(old(tree), dir))
    {
      for i := 0 to |dir|
        invariant ParentsAdded(old(tree), tree, dir) && dir[..i] in tree.dirs
        invariant old(seen) <= seen && forall k | |old(seen)| <= k < |seen| :: ParentsAdded(old(tree), seen[k], dir)
        invariant old(faults) == [] ==> faults == []
        invariant Failures(faults) == Failures(old(faults))
        invariant forall j | 0 <= j <= i :: dir[..j] !in tree.files
      {
        var current := dir[..i + 1];
        assert Parent(current) == dir[..i] && dir[..i + 1][..i] == dir[..i];
        if current in tree.files {
          assert Under(current, dir);
          return false;
        }
        var made := Apply(MakeDir(tree, current));
        if !made { return false; }
      }
      assert dir[..|dir|] == dir;
      forall p | p in old(tree).files ensures !Under(p, dir) {
        assert |p| <= |dir| ==> dir[..|p|] !in tree.files;
      }
      return true;
    }

    /** Create the file (it must not exist), copy into it, close it. */
    method StoreFile(source: Source, staging: Path, ghost names: seq<string>, ghost contents: seq<Octets>, name: string,
                     remaining: nat, sha: Octets -> string)
      returns (failure: Option<Failure>, size: nat, digest: string, ghost bytes: Octets)
      requires source.File? && source.at < |source.versions| && TornReads.Timeline(source.versions)
      requires WellFormed(tree) && staging != []
      requires Holds(tree, staging, names, contents) && forall j | 0 <= j < |names| :: names[j] != name
      modifies this`tree, this`faults, this`seen
      ensures WellFormed(tree) && RemoveTree(tree, staging) == RemoveTree(old(tree), staging)
      ensures old(seen) <= seen
      ensures forall k | |old(seen)| <= k < |seen| :: RemoveTree(seen[k], staging) == RemoveTree(old(tree), staging)
      ensures failure.None? ==> Failures(faults) == Failures(old(faults))
      ensures failure.None? ==>
                && size == |bytes| <= remaining && digest == sha(bytes) && FromSource(source, bytes)
                && Holds(tree, staging, names + [name], contents + [bytes])
      ensures old(faults) == [] ==> faults == []
      ensures old(faults) == [] && |source.versions| == 1 ==>
                var v := source.versions[0];
                && (failure.None? <==> TornReads.OpenedOf(v) == source.validated && |v.bytes| <= remaining)
                && (failure.None? ==> bytes == v.bytes)
    {
      hide Holds, RemoveTree, WellFormed, TornReads.Current, TornReads.Reads, TornReads.Timeline;
      size, digest, bytes := 0, "", [];
      var path := staging + [name];
      WriteWellFormed(tree, staging, names, contents, name);
      var created := Apply(WriteFile(tree, path, []));
      if !created { return Some(StorageError), size, digest, bytes; }
      WriteInside(old(tree), staging, path, []);
      var copied :=
        TornReads.CopyFdAndHash(source.versions, source.at, source.script, remaining, source.validated, sha);
      if copied.Err? {
        return Some(Policy("artifact changed or exceeds policy")), size, digest, bytes;
      }
      bytes := copied.value.destination;
      var written := Apply(WriteFile(tree, path, copied.value.destination));
      if !written { return Some(StorageError), size, digest, bytes; }
      assert tree == WriteFile(old(tree), path, bytes);
      WriteInside(old(tree), staging, path, bytes);
      StoredOne(old(tree), staging, names, contents, name, bytes);
      return None, copied.value.size, copied.value.digest, bytes;
    }

    /** Check, copy and verify one artifact. */
    method StoreOne(result: Envelope, request: Request, sources: seq<Source>, staging: Path, oracle: Oracle,
                    i: nat, total: nat, ghost contents: seq<Octets>)
      returns (failure: Option<Failure>, size: nat, digest: string, ghost bytes: Octets)
      requires i < |sources| == |result.artifacts| && SourcesOk(sources) && total <= request.maxBytes
      requires WellFormed(tree) && staging != []
      requires Holds(tree, staging, StoredAll(oracle, result.artifacts, i), contents)
      modifies this`tree, this`faults, this`seen
      ensures WellFormed(tree) && RemoveTree(tree, staging) == RemoveTree(old(tree), staging)
      ensures old(seen) <= seen
      ensures forall k | |old(seen)| <= k < |seen| :: RemoveTree(seen[k], staging) == RemoveTree(old(tree), staging)
      ensures failure.None? ==> Failures(faults) == Failures(old(faults))
      ensures failure.None? ==>
                && size == |bytes| && digest == oracle.sha(bytes) && total + size <= request.maxBytes
                && FromSource(sources[i], bytes) && Checked(result, oracle, i, bytes)
                && Holds(tree, staging, StoredAll(oracle, result.artifacts, i + 1), contents + [bytes])
      ensures old(faults) == [] ==> faults == []
      ensures old(faults) == [] && Quiet(sources) && total == Total(QuietContents(sources)[..i]) ==>
                && (failure.None? <==> ArtifactOk(result, request, sources, oracle, i))
                && (failure.None? ==> bytes == QuietContents(sources)[i])
    {
      hide Holds, WellFormed, RemoveTree, DeclaredMatches, StoredAll, FromSource, TornReads.Timeline;
      var artifact, source := result.artifacts[i], sources[i];
      size, digest, bytes := 0, "", [];
      QuietTotal(sources, i);
      if !SafeName(artifact.name) {
        return Some(Policy("artifact names must be safe single path segments")), size, digest, bytes;
      }
      if source.Unresolvable? {
        return Some(Policy("artifact is missing or outside the worker artifact root")), size, digest, bytes;
      }
      StoredNext(oracle, result.artifacts, i);
      failure, size, digest, bytes :=
        StoreFile(source, staging, StoredAll(oracle, result.artifacts, i), contents,
                  Stored(oracle, result.artifacts, i), request.maxBytes - total, oracle.sha);
      if failure.Some? { return; }
      if !DeclaredMatches(result.metrics, artifact.name, size, digest) {
        return Some(Policy("artifact does not match its metadata")), size, digest, bytes;
      }
      if oracle.mediaType(artifact).None? {
        return Some(Policy("artifact media type is invalid")), size, digest, bytes;
      }
    }

    /** Copy every artifact into the staging directory, checking it on the way. */
    method StoreArtifacts(result: Envelope, request: Request, sources: seq<Source>, staging: Path, oracle: Oracle)
      returns (failure: Option<Failure>, retained: Retained, ghost contents: seq<Octets>)
      requires |sources| == |result.artifacts| && SourcesOk(sources) && request.maxBytes >= 0
      requires WellFormed(tree) && staging != [] && Holds(tree, staging, [], [])
      modifies this`tree, this`faults, this`seen
      ensures WellFormed(tree) && RemoveTree(tree, staging) == RemoveTree(old(tree), staging)
      ensures old(seen) <= seen
      ensures forall k | |old(seen)| <= k < |seen| :: RemoveTree(seen[k], staging) == RemoveTree(old(tree), staging)
      ensures failure.None? ==> Failures(faults) == Failures(old(faults))
      ensures failure.None? ==>
                && Vetted(result, request, sources, oracle, contents)
                && Describes(retained, result, oracle, contents, |sources|)
                && Holds(tree, staging, StoredAll(oracle, result.artifacts, |sources|), contents)
      ensures old(faults) == [] ==> faults == []
      ensures old(faults) == [] && Quiet(sources) ==>
                && (failure.None? <==> forall i | 0 <= i < |sources| :: ArtifactOk(result, request, sources, oracle, i))
                && (failure.None? ==> contents == QuietContents(sources))
    {
      hide Holds, WellFormed, RemoveTree, StoredAll, FromSource, ArtifactOk, SourcesOk, RetainedMetrics,
           RetainedRecords, Quiet, Total, FromSources, QuietContents, Describes, Checked;
      contents := [];
      retained := Retained([], result.metrics, 0);
      DescribesNone(result, oracle);
      FromNoSources(sources);
      StoredNone(oracle, result.artifacts);
      for i := 0 to |sources|
        invariant WellFormed(tree) && RemoveTree(tree, staging) == RemoveTree(old(tree), staging)
        invariant old(seen) <= seen
        invariant forall k | |old(seen)| <= k < |seen| :: RemoveTree(seen[k], staging) == RemoveTree(old(tree), staging)
        invariant |contents| == i && FromSources(sources, contents)
        invariant retained.total == Total(contents) <= request.maxBytes
        invariant Describes(retained, result, oracle, contents, i)
        invariant Holds(tree, staging, StoredAll(oracle, result.artifacts, i), contents)
        invariant forall j | 0 <= j < i :: Checked(result, oracle, j, contents[j])
        invariant old(faults) == [] ==> faults == []
        invariant Failures(faults) == Failures(old(faults))
        invariant old(faults) == [] && Quiet(sources) ==>
                    && contents == QuietContents(sources)[..i]
                    && forall j | 0 <= j < i :: ArtifactOk(result, request, sources, oracle, j)
      {
        var artifact := result.artifacts[i];
        var size: nat, digest: string;
        ghost var bytes: Octets;
        ghost var before := retained;
        failure, size, digest, bytes :=
          StoreOne(result, request, sources, staging, oracle, i, retained.total, contents);
        if failure.Some? { return; }
        var uri := oracle.uri(Stored(oracle, result.artifacts, i));
        var record := Artifact(artifact.name, uri, oracle.mediaType(artifact));
        retained := Retained(
          retained.records + [record],
          retained.metrics[SizeKey(artifact.name) := Number(size)][DigestKey(artifact.name) := Text(digest)],
          retained.total + size);
        DescribesNext(before, result, oracle, contents, i, bytes, retained);
        FromSourcesNext(sources, contents, bytes);
        contents := contents + [bytes];
        assert QuietContents(sources)[..i + 1] == QuietContents(sources)[..i] + [QuietContents(sources)[i]];
      }
      failure := None;
      assert QuietContents(sources)[..|sources|] == QuietContents(sources);
    }

    /** The run directory already exists: keep it if it holds the same, and drop the staging copy. */
    method AcceptExisting(staging: Path, final: Path, ghost names: seq<string>, ghost contents: seq<Octets>,
                          sha: Octets -> string)
      returns (failure: Option<Failure>)
      requires WellFormed(tree) && |staging| == |final| && staging != final && final in tree.dirs && staging != []
      requires Holds(tree, staging, names, contents)
      modifies this`tree, this`faults, this`seen
      ensures WellFormed(tree) && SameUnder(old(tree), tree, final) && SameBut(old(tree), tree, staging, final)
      ensures old(seen) <= seen && forall k | |old(seen)| <= k < |seen| :: SameUnder(old(tree), seen[k], final)
      ensures failure.None? ==> Failures(faults) == Failures(old(faults))
      ensures failure.None? ==>
                && HoldsDigests(tree, final, names, contents, sha)
                && Absent(tree, staging)
      ensures old(faults) == [] ==>
                faults == [] && (failure.None? <==> HoldsDigests(old(tree), final, names, contents, sha))
    {
      hide Holds, HoldsDigests, DirectoriesMatch, SameBut, SameUnder, WellFormed, RemoveTree;
      SameSame(tree, staging, final);
      MatchHolds(tree, staging, final, names, contents, sha);
      if !DirectoriesMatch(tree, staging, final, sha) {
        return Some(Policy("retained artifact destination already contains other bytes"));
      }
      RemoveSame(tree, staging, final);
      RemoveWellFormed(tree, staging);
      var removed := Apply(RemoveTree(tree, staging));
      if !removed { return Some(StorageError); }
      DigestsFrame(old(tree), tree, final, names, contents, sha);
      var moded := Apply(tree);
      return if moded then None else Some(StorageError);
    }

    /** Our rename was refused because a rival's directory appeared after the check. */
    method LoseRace(staging: Path, final: Path, ghost names: seq<string>, ghost contents: seq<Octets>,
                    r: Rival, sha: Octets -> string)
      returns (failure: Option<Failure>)
      requires WellFormed(tree) && |staging| == |final| && staging != final && staging != []
      requires Parent(staging) == Parent(final) && Holds(tree, staging, names, contents)
      requires |r.names| == |r.contents| && Distinct(r.names) && !Exists(tree, final)
      modifies this`tree, this`faults, this`seen
      ensures WellFormed(tree) && SameBut(old(tree), tree, staging, final)
      ensures old(seen) <= seen && Holds(tree, final, r.names, r.contents)
      ensures forall k | |old(seen)| <= k < |seen| :: Holds(seen[k], final, r.names, r.contents)
      ensures old(faults) == [] ==> faults == []
      ensures failure.None? ==> Failures(faults) == Failures(old(faults))
      ensures failure.None? ==>
                && HoldsDigests(tree, final, names, contents, sha)
                && Absent(tree, staging)
      ensures !r.reportsExists ==> failure.Some?
      ensures old(faults) == [] ==>
                (failure.None? <==> r.reportsExists && HoldsDigests(tree, final, names, contents, sha))
    {
      hide Holds, HoldsDigests, SameUnder, SameBut, RemoveTree, WellFormed;
      Nothing(tree, final);
      ParentThere(tree, staging, names, contents);
      PlantHolds(tree, final, r.names, r.contents, |r.names|);
      assert r.names[..|r.names|] == r.names && r.contents[..|r.names|] == r.contents;
      tree := Plant(tree, final, r.names, r.contents, |r.names|);
      PlantSame(old(tree), tree, staging, final);
      seen := seen + [tree];
      if !r.reportsExists {
        return Some(StorageError);
      }
      HoldsFrame(old(tree), tree, staging, names, contents);
      HoldsThere(tree, final, r.names, r.contents);
      ghost var planted := tree;
      failure := AcceptExisting(staging, final, names, contents, sha);
      SameTrans(old(tree), planted, tree, staging, final);
      HoldsFrame(planted, tree, final, r.names, r.contents);
      SameDigests(planted, tree, final, names, contents, sha);
      forall k | |old(seen)| + 1 <= k < |seen| ensures Holds(seen[k], final, r.names, r.contents) {
        HoldsFrame(planted, seen[k], final, r.names, r.contents);
      }
    }

    /** Nothing is there yet: rename, then set the modes. */
    method MoveIntoPlace(staging: Path, final: Path, ghost names: seq<string>, ghost contents: seq<Octets>)
      returns (failure: Option<Failure>)
      requires WellFormed(tree) && |staging| == |final| && staging != final && staging != []
      requires Parent(staging) == Parent(final) && Holds(tree, staging, names, contents) && !Exists(tree, final)
      modifies this`tree, this`faults, this`seen
      ensures WellFormed(tree) && SameBut(old(tree), tree, staging, final)
      ensures old(seen) <= seen && forall k | |old(seen)| <= k < |seen| :: Holds(seen[k], final, names, contents)
      ensures tree == old(tree) || Holds(tree, final, names, contents)
      ensures failure.None? ==> Failures(faults) == Failures(old(faults))
      ensures failure.None? ==>
                && Holds(tree, final, names, contents)
                && RemoveTree(tree, final) == RemoveTree(old(tree), staging)
                && Absent(tree, staging)
      ensures old(faults) == [] ==> faults == [] && failure.None?
    {
      hide Holds, SameBut, RemoveTree, Rename, WellFormed;
      Nothing(tree, final);
      SameSame(tree, staging, final);
      RenameHolds(tree, staging, final, names, contents);
      RenameWellFormed(tree, staging, final, names, contents);
      RenameSame(tree, staging, final);
      var renamed := Apply(Rename(tree, staging, final));
      if !renamed { return Some(StorageError); }
      var moded := Apply(tree);
      return if moded then None else Some(StorageError);
    }

    /** Make the staged copy the run directory, or accept an identical one. */
    method CommitStaging(staging: Path, final: Path, ghost names: seq<string>, ghost contents: seq<Octets>,
                         rival: Option<Rival>, sha: Octets -> string)
      returns (failure: Option<Failure>)
      requires WellFormed(tree) && |staging| == |final| && staging != final && staging != []
      requires Parent(staging) == Parent(final) && Holds(tree, staging, names, contents)
      requires rival.Some? ==> |rival.value.names| == |rival.value.contents| && Distinct(rival.value.names)
      modifies this`tree, this`faults, this`seen
      ensures WellFormed(tree) && SameBut(old(tree), tree, staging, final)
      ensures old(seen) <= seen
      ensures forall k | |old(seen)| <= k < |seen| :: Allowed(seen[k], old(tree), final, names, contents, rival)
      ensures Allowed(tree, old(tree), final, names, contents, rival)
      ensures SameUnder(old(tree), tree, final) || !Exists(old(tree), final)
      ensures failure.None? ==> Failures(faults) == Failures(old(faults))
      ensures failure.None? ==>
                && HoldsDigests(tree, final, names, contents, sha) && Absent(tree, staging)
                && (!Exists(old(tree), final) && rival.None? ==>
                      Holds(tree, final, names, contents) && RemoveTree(tree, final) == RemoveTree(old(tree), staging))
      ensures old(faults) == [] ==> faults == []
      ensures rival.Some? && !Exists(old(tree), final) && !rival.value.reportsExists ==> failure.Some?
      ensures old(faults) == [] && rival.Some? && !Exists(old(tree), final) ==>
                (failure.None? <==> rival.value.reportsExists && HoldsDigests(tree, final, names, contents, sha))
      ensures old(faults) == [] && rival.None? ==>
                && (failure.None? <==>
                      !Exists(old(tree), final) ||
                      (final in old(tree).dirs && HoldsDigests(old(tree), final, names, contents, sha)))
    {
      hide Holds, HoldsDigests, SameUnder, SameBut, RemoveTree, WellFormed;
      SameSame(tree, staging, final);
      NotBoth(tree, final);
      if final in tree.files {
        return Some(StorageError);
      }
      if final in tree.dirs {
        failure := AcceptExisting(staging, final, names, contents, sha);
        SameFlip(old(tree), tree, final);
        forall k | |old(seen)| <= k < |seen| ensures SameUnder(seen[k], old(tree), final) {
          SameFlip(old(tree), seen[k], final);
        }
      } else if rival.Some? {
        failure := LoseRace(staging, final, names, contents, rival.value, sha);
      } else {
        failure := MoveIntoPlace(staging, final, names, contents);
        if failure.None? { HoldsIsHoldsDigests(tree, final, names, contents, sha); }
      }
    }

    /** mkdir the parents, then mkdtemp beside the run directory. */
    method OpenStaging(final: Path, name: string) returns (ok: bool)
      requires WellFormed(tree) && final != [] && StagingFree(tree, final, name)
      modifies this`tree, this`faults, this`seen
      ensures WellFormed(tree)
      ensures ParentsAdded(old(tree), RemoveTree(tree, Staging(final, name)), Parent(final))
      ensures old(seen) <= seen && forall k | |old(seen)| <= k < |seen| :: SameUnder(seen[k], old(tree), final)
      ensures if ok then Holds(tree, Staging(final, name), [], []) else Absent(tree, Staging(final, name))
      ensures ok ==> Failures(faults) == Failures(old(faults))
      ensures old(faults) == [] ==> faults == [] && (ok <==> NoFileOnTheWay(old(tree), Parent(final)))
    {
      hide SameUnder, Holds, RemoveTree, NoFileOnTheWay, Absent;
      var staging := Staging(final, name);
      ok := EnsureDirectoryTree(Parent(final));
      ghost var base := tree;
      StagingAbsent(old(tree), base, final, name);
      RemoveAbsent(base, staging);
      forall k | |old(seen)| <= k < |seen| ensures SameUnder(seen[k], old(tree), final) {
        StagingAbsent(old(tree), seen[k], final, name);
        RemoveAbsent(seen[k], staging);
        StagingInvisible(old(tree), seen[k], seen[k], staging, final);
      }
      if !ok { return; }
      EmptyStaging(tree, staging);
      StagingInvisible(old(tree), MakeDir(tree, staging), base, staging, final);
      ok := Apply(MakeDir(tree, staging));
    }

    /** rmtree with errors ignored. */
    method DropStaging(staging: Path, final: Path)
      requires WellFormed(tree) && |staging| == |final| && staging != final && staging != []
      modifies this`tree, this`faults, this`seen
      ensures WellFormed(tree) && SameBut(old(tree), tree, staging, final) && SameUnder(old(tree), tree, final)
      ensures old(seen) <= seen && forall k | |old(seen)| <= k < |seen| :: SameUnder(old(tree), seen[k], final)
      ensures old(faults) == [] ==> Absent(tree, staging)
    {
      hide WellFormed, SameUnder, RemoveTree, Absent;
      RemoveWellFormed(tree, staging);
      RemoveSame(tree, staging, final);
      SameSame(tree, staging, final);
      var _ := Apply(RemoveTree(tree, staging));
    }

    /** Fill the staging directory and commit it. */
    method StoreAndCommit(result: Envelope, request: Request, sources: seq<Source>, staging: Path, rival: Option<Rival>,
                          oracle: Oracle)
      returns (failure: Option<Failure>, retained: Retained, ghost contents: seq<Octets>)
      requires |sources| == |result.artifacts| && SourcesOk(sources) && LimitsOk(result, request)
      requires WellFormed(tree) && request.runDir != [] && |staging| == |request.runDir| && staging != request.runDir
      requires Parent(staging) == Parent(request.runDir) && Holds(tree, staging, [], [])
      requires rival.Some? ==> |rival.value.names| == |rival.value.contents| && Distinct(rival.value.names)
      modifies this`tree, this`faults, this`seen
      ensures WellFormed(tree) && SameBut(old(tree), tree, staging, request.runDir)
      ensures SameUnder(old(tree), tree, request.runDir) || !Exists(old(tree), request.runDir)
      ensures var names := StoredAll(oracle, result.artifacts, |sources|);
              && old(seen) <= seen
              && AllAllowed(seen, |old(seen)|, old(tree), request.runDir, names, contents, rival)
              && Allowed(tree, old(tree), request.runDir, names, contents, rival)
      ensures failure.None? ==> Failures(faults) == Failures(old(faults))
      ensures failure.None? ==>
                var names := StoredAll(oracle, result.artifacts, |sources|);
                && Vetted(result, request, sources, oracle, contents)
                && Describes(retained, result, oracle, contents, |sources|)
                && HoldsDigests(tree, request.runDir, names, contents, oracle.sha) && Absent(tree, staging)
                && (!Exists(old(tree), request.runDir) && rival.None? ==>
                      && Holds(tree, request.runDir, names, contents)
                      && RemoveTree(tree, request.runDir) == RemoveTree(old(tree), staging))
      ensures rival.Some? && !Exists(old(tree), request.runDir) && !rival.value.reportsExists ==> failure.Some?
      ensures old(faults) == [] ==> faults == []
      ensures old(faults) == [] && Quiet(sources) && rival.None? ==>
                && (failure.None? <==>
                      && (forall i | 0 <= i < |sources| :: ArtifactOk(result, request, sources, oracle, i))
                      && DestinationOk(old(tree), result, request, sources, oracle))
    {
      hide Holds, HoldsDigests, SameUnder, SameBut, RemoveTree, WellFormed, ArtifactOk, SourcesOk, Absent,
           StoredAll, Quiet, QuietContents, NamesUnique, Describes, FromSources, Total;
      ghost var final, names := request.runDir, StoredAll(oracle, result.artifacts, |sources|);
      failure, retained, contents := StoreArtifacts(result, request, sources, staging, oracle);
      ghost var staged, trail := tree, seen;
      SameOutside(old(tree), staged, staging, final);
      forall k | |old(seen)| <= k < |trail| ensures SameUnder(trail[k], old(tree), final) {
        SameOutside(old(tree), trail[k], staging, final);
      }
      if failure.Some? { return; }
      StoredDistinct(oracle, result.artifacts);
      failure := CommitStaging(staging, request.runDir, names, contents, rival, oracle.sha);
      SameTrans(old(tree), staged, tree, staging, final);
      SameExists(old(tree), staged, final);
      SameDigests(old(tree), staged, final, names, contents, oracle.sha);
      if SameUnder(staged, tree, final) { SameUnderTrans(old(tree), staged, tree, final); }
      AllowedBase(tree, staged, old(tree), final, names, contents, rival);
      forall k | |trail| <= k < |seen| ensures Allowed(seen[k], old(tree), final, names, contents, rival) {
        AllowedBase(seen[k], staged, old(tree), final, names, contents, rival);
      }
    }

    /** The checks before anything is touched. */
    static method CheckLimits(result: Envelope, request: Request) returns (failure: Option<Failure>)
      ensures failure == Refusal(result, request)
    {
      if !request.configured {
        return Some(Policy("durable Kubernetes artifact storage is not configured"));
      }
      if request.maxFiles < 0 || request.maxBytes < 0 {
        return Some(Policy("artifact limits must be non-negative"));
      }
      if |result.artifacts| > request.maxFiles {
        return Some(Policy("artifact file count exceeds policy"));
      }
      if !NamesUnique(result.artifacts) {
        return Some(Policy("artifact names must be unique within a result"));
      }
      return None;
    }

    /** Retain every artifact, or say why not. */
    method RetainAll(result: Envelope, request: Request, sources: seq<Source>, stagingName: string,
                     rival: Option<Rival>, oracle: Oracle)
      returns (failure: Option<Failure>, retained: Retained, ghost contents: seq<Octets>)
      requires |sources| == |result.artifacts| && SourcesOk(sources) && WellFormed(tree) && request.runDir != []
      requires StagingFree(tree, request.runDir, stagingName)
      requires rival.Some? ==> |rival.value.names| == |rival.value.contents| && Distinct(rival.value.names)
      modifies this`tree, this`faults, this`seen
      ensures WellFormed(tree) && OthersKept(old(tree), tree, Staging(request.runDir, stagingName), request.runDir)
      ensures SameUnder(old(tree), tree, request.runDir) || !Exists(old(tree), request.runDir)
      ensures Refusal(result, request).Some? ==>
                failure == Refusal(result, request) && tree == old(tree) && seen == old(seen)
      ensures old(seen) <= seen
      ensures AllAllowed(seen, |old(seen)|, old(tree), request.runDir, StoredAll(oracle, result.artifacts, |sources|),
                         contents, rival)
      ensures failure.None? ==> Failures(faults) == Failures(old(faults))
      ensures failure.None? ==>
                && LimitsOk(result, request) && Vetted(result, request, sources, oracle, contents)
                && Describes(retained, result, oracle, contents, |sources|)
                && HoldsDigests(tree, request.runDir, StoredAll(oracle, result.artifacts, |sources|), contents,
                                oracle.sha)
                && (!Exists(old(tree), request.runDir) && rival.None? ==>
                      && Holds(tree, request.runDir, StoredAll(oracle, result.artifacts, |sources|), contents)
                      && ParentsAdded(old(tree), RemoveTree(tree, request.runDir), Parent(request.runDir)))
      ensures rival.Some? && !Exists(old(tree), request.runDir) && !rival.value.reportsExists ==> failure.Some?
      ensures failure.None? || old(faults) == [] ==> Absent(tree, Staging(request.runDir, stagingName))
      ensures old(faults) == [] && rival.None? && Quiet(sources) ==>
                (failure.None? <==>
                  && Acceptable(result, request, sources, oracle)
                  && NoFileOnTheWay(old(tree), Parent(request.runDir))
                  && DestinationOk(old(tree), result, request, sources, oracle))
    {
      hide Holds, HoldsDigests, SameUnder, SameBut, RemoveTree, WellFormed, ArtifactOk, SourcesOk, Absent, StoredAll,
           Quiet, QuietContents, NamesUnique, ParentsAdded, OthersKept, NoFileOnTheWay, Allowed, Vetted, Describes,
           AllAllowed, DestinationOk, Total, Refusal;
      contents, retained := [], Retained([], result.metrics, 0);
      ghost var t, final, names := tree, request.runDir, StoredAll(oracle, result.artifacts, |sources|);
      var staging := Staging(request.runDir, stagingName);
      AbsentUnless(t, staging);
      AbsentUnless(t, final);
      KeptItself(t, staging, final);
      failure := CheckLimits(result, request);
      if failure.Some? {
        AllSame(seen, |seen|, t, final, names, contents, rival);
        return;
      }
      var ready := OpenStaging(request.runDir, stagingName);
      KeptWhileStaging(t, tree, staging, final);
      StagingAbsent(t, RemoveTree(tree, staging), final, stagingName);
      StagingInvisible(t, tree, RemoveTree(tree, staging), staging, final);
      SameFlip(tree, t, final);
      ghost var staged, trail := tree, seen;
      if !ready {
        AllSame(trail, |old(seen)|, t, final, names, contents, rival);
        return Some(StorageError), retained, contents;
      }
      failure, retained, contents := StoreAndCommit(result, request, sources, staging, rival, oracle);
      ghost var committed, trail' := tree, seen;
      TrailAllowed(trail', |old(seen)|, |trail|, committed, staged, t, final, names, contents, rival);
      SameExists(staged, t, final);
      SameDestination(staged, t, result, request, sources, oracle);
      KeptByCommit(t, staged, committed, staging, final);
      if SameUnder(staged, committed, final) { SameUnderTrans(t, staged, committed, final); }
      if failure.Some? {
        DropStaging(staging, request.runDir);
        KeptByCommit(t, committed, tree, staging, final);
        AllReframed(trail', seen, |old(seen)|, committed, t, final, names, contents, rival);
        if SameUnder(t, committed, final) { SameUnderTrans(t, committed, tree, final); }
      }
    }

    /** The entry point: a result without artifacts passes through, any other comes back retained or failed. */
    method RetainResultArtifacts(result: Envelope, request: Request, sources: seq<Source>, stagingName: string,
                                 rival: Option<Rival>, oracle: Oracle)
      returns (out: Envelope, ghost contents: seq<Octets>)
      requires |sources| == |result.artifacts| && SourcesOk(sources) && WellFormed(tree) && request.runDir != []
      requires StagingFree(tree, request.runDir, stagingName)
      requires rival.Some? ==> |rival.value.names| == |rival.value.contents| && Distinct(rival.value.names)
      modifies this`tree, this`faults, this`seen
      ensures WellFormed(tree) && OthersKept(old(tree), tree, Staging(request.runDir, stagingName), request.runDir)
      ensures old(seen) <= seen
      ensures AllAllowed(seen, |old(seen)|, old(tree), request.runDir, StoredAll(oracle, result.artifacts, |sources|),
                         contents, rival)
      ensures result.artifacts == [] ==> out == result && tree == old(tree) && seen == old(seen)
      ensures result.artifacts != [] && Refusal(result, request).Some? ==>
                && out == RetentionFailure(result, Refusal(result, request).value)
                && tree == old(tree) && seen == old(seen)
      ensures result.artifacts != [] && out.artifacts == [] ==>
                exists failure :: out == RetentionFailure(result, failure)
      ensures out.artifacts != [] ==> Failures(faults) == Failures(old(faults))
      ensures out.artifacts != [] ==>
                && LimitsOk(result, request) && Vetted(result, request, sources, oracle, contents)
                && HoldsDigests(tree, request.runDir, StoredAll(oracle, result.artifacts, |sources|), contents,
                                oracle.sha)
                && out == result.(artifacts := RetainedRecords(oracle, result.artifacts, |sources|),
                                  metrics := FinalMetrics(result.metrics, result.artifacts, contents, oracle.sha))
                && (!Exists(old(tree), request.runDir) && rival.None? ==>
                      && Holds(tree, request.runDir, StoredAll(oracle, result.artifacts, |sources|), contents)
                      && ParentsAdded(old(tree), RemoveTree(tree, request.runDir), Parent(request.runDir)))
      ensures rival.Some? && !Exists(old(tree), request.runDir) && !rival.value.reportsExists ==> out.artifacts == []
      ensures old(faults) == [] && request.runDir in old(tree).dirs ==> tree == old(tree)
      ensures old(faults) == [] && rival.None? && Quiet(sources) ==>
                (out.artifacts != [] <==>
                  && result.artifacts != [] && Acceptable(result, request, sources, oracle)
                  && NoFileOnTheWay(old(tree), Parent(request.runDir))
                  && DestinationOk(old(tree), result, request, sources, oracle))
    {
      hide Holds, HoldsDigests, SameUnder, SameBut, RemoveTree, WellFormed, ArtifactOk, SourcesOk, Absent, StoredAll,
           Quiet, QuietContents, LimitsOk, NamesUnique, ParentsAdded, OthersKept, NoFileOnTheWay, Allowed,
           DestinationOk, Acceptable, RetentionFailure, RetainedMetrics, Failures, Vetted, Total, Refusal;
      contents := [];
      if result.artifacts == [] {
        KeptItself(tree, Staging(request.runDir, stagingName), request.runDir);
        return result, contents;
      }
      var failure: Option<Failure>, retained: Retained;
      failure, retained, contents := RetainAll(result, request, sources, stagingName, rival, oracle);
      if old(faults) == [] && request.runDir in old(tree).dirs {
        KeptWhole(old(tree), tree, Staging(request.runDir, stagingName), request.runDir);
      }
      if failure.Some? {
        FailureHidesArtifacts(result, failure.value, "");
        return RetentionFailure(result, failure.value), contents;
      }
      var metrics := retained.metrics[FILES_KEY := Number(|retained.records|)][BYTES_KEY := Number(retained.total)];
      out := result.(artifacts := retained.records, metrics := metrics);
    }
  }
}
