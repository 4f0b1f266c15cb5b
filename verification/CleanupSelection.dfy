/** Which artifact files a cleanup removes. */
module CleanupSelection {
  import opened Wrappers

  datatype File = File(path: nat, mtime: real, size: nat)

  /** What project_artifact_paths delivers: distinct paths, oldest first. */
  ghost predicate OldestFirst(files: seq<File>) {
    && (forall i, j | 0 <= i < j < |files| :: files[i].mtime <= files[j].mtime)
    && (forall i, j | 0 <= i < j < |files| :: files[i].path != files[j].path)
  }

  function Bytes(files: seq<File>): nat {
    if files == [] then 0 else files[0].size + Bytes(files[1..])
  }

  predicate Expired(f: File, now: real, maxAge: int) { now - f.mtime >= maxAge as real }

  function Paths(files: seq<File>, k: nat): (s: set<nat>)
    requires k <= |files|
  {
    set i | 0 <= i < k :: files[i].path
  }

  /** The first k files are exactly the expired ones. */
  ghost predicate AgeCut(files: seq<File>, now: real, maxAge: Option<int>, k: nat) {
    && k <= |files|
    && forall i | 0 <= i < |files| :: i < k <==> maxAge.Some? && Expired(files[i], now, maxAge.value)
  }

  /** Dropping the first k files is enough for the byte limit, or all there is; dropping fewer is not. */
  ghost predicate SizeCut(files: seq<File>, maxTotal: Option<int>, k: nat) {
    && k <= |files|
    && (maxTotal.None? ==> k == 0)
    && (maxTotal.Some? ==>
          && (k == |files| || Bytes(files[k..]) <= maxTotal.value)
          && forall j | 0 <= j < k :: Bytes(files[j..]) > maxTotal.value)
  }

  lemma PathsGrow(files: seq<File>, k: nat)
    requires k < |files|
    ensures Paths(files, k + 1) == Paths(files, k) + {files[k].path}
  { }

  lemma BytesDrop(files: seq<File>, k: nat)
    requires k < |files|
    ensures Bytes(files[k..]) == files[k].size + Bytes(files[k + 1..])
  {
    assert files[k..][1..] == files[k + 1..];
  }

  /** sum(path.stat().st_size for path in paths). */
  method Sum(files: seq<File>) returns (total: nat)
    ensures total == Bytes(files)
  {
    total := 0;
    for i := |files| downto 0
      invariant total == Bytes(files[i..])
    {
      total := files[i].size + total;
      BytesDrop(files, i);
    }
    assert files[0..] == files;
  }

  function ExpiredPaths(files: seq<File>, now: real, maxAge: int): set<nat> {
    set i | 0 <= i < |files| && Expired(files[i], now, maxAge) :: files[i].path
  }

  /** The age policy: a file is as old as the limit, or older. */
  method SelectByAge(files: seq<File>, now: real, maxAge: int) returns (selected: set<nat>)
    ensures selected == ExpiredPaths(files, now, maxAge)
    ensures forall i | 0 <= i < |files| && files[i].mtime + maxAge as real <= now :: files[i].path in selected
    ensures forall p | p in selected ::
              exists i | 0 <= i < |files| :: files[i].path == p && files[i].mtime + maxAge as real <= now
  {
    selected := {};
    for i := 0 to |files|
      invariant selected == set j | 0 <= j < i && Expired(files[j], now, maxAge) :: files[j].path
    {
      if Expired(files[i], now, maxAge) {
        selected := selected + {files[i].path};
      }
    }
  }

  /** How many files the age policy takes from an oldest-first list. */
  function AgeLength(files: seq<File>, now: real, maxAge: Option<int>): (k: nat)
    ensures k <= |files|
  {
    if files == [] || maxAge.None? || !Expired(files[0], now, maxAge.value) then 0
    else 1 + AgeLength(files[1..], now, maxAge)
  }

  /** The expired files are a prefix. */
  lemma {:induction false} AgeLengthCuts(files: seq<File>, now: real, maxAge: Option<int>)
    requires OldestFirst(files)
    ensures AgeCut(files, now, maxAge, AgeLength(files, now, maxAge))
    ensures maxAge.Some? ==> ExpiredPaths(files, now, maxAge.value) == Paths(files, AgeLength(files, now, maxAge))
  {
    if files != [] && maxAge.Some? && Expired(files[0], now, maxAge.value) {
      AgeLengthCuts(files[1..], now, maxAge);
      var k := AgeLength(files[1..], now, maxAge);
      forall i | 0 <= i < |files| ensures i < k + 1 <==> Expired(files[i], now, maxAge.value) {
        assert i > 0 ==> files[i] == files[1..][i - 1];
      }
    } else if files != [] {
      forall i | 0 <= i < |files| ensures maxAge.Some? ==> !Expired(files[i], now, maxAge.value) {
        assert i > 0 ==> files[0].mtime <= files[i].mtime;
      }
    }
  }

  /** How many files the size policy takes. */
  function SizeLength(files: seq<File>, maxTotal: Option<int>): (k: nat)
    ensures k <= |files|
  {
    if files == [] || maxTotal.None? || Bytes(files) <= maxTotal.value then 0
    else 1 + SizeLength(files[1..], maxTotal)
  }

  lemma {:induction false} SizeLengthCuts(files: seq<File>, maxTotal: Option<int>)
    ensures SizeCut(files, maxTotal, SizeLength(files, maxTotal))
  {
    assert files[0..] == files;
    if files != [] && maxTotal.Some? && Bytes(files) > maxTotal.value {
      SizeLengthCuts(files[1..], maxTotal);
      forall j | 0 < j <= |files| ensures files[j..] == files[1..][j - 1..] { }
    }
  }

  lemma {:induction false} SizeLengthIs(files: seq<File>, maxTotal: int, k: nat)
    requires SizeCut(files, Some(maxTotal), k)
    ensures SizeLength(files, Some(maxTotal)) == k
  {
    SizeLengthCuts(files, Some(maxTotal));
  }

  /** The size policy: drop the oldest until what is left fits. */
  method SelectBySize(files: seq<File>, maxTotal: int, chosen: set<nat>) returns (selected: set<nat>)
    ensures selected == chosen + Paths(files, SizeLength(files, Some(maxTotal)))
  {
    selected := chosen;
    var total: int := Sum(files);
    assert files[0..] == files;
    for i := 0 to |files|
      invariant total == Bytes(files[i..]) && selected == chosen + Paths(files, i)
      invariant forall j | 0 <= j < i :: Bytes(files[j..]) > maxTotal
    {
      if total <= maxTotal {
        SizeLengthIs(files, maxTotal, i);
        return;
      }
      PathsGrow(files, i);
      BytesDrop(files, i);
      selected := selected + {files[i].path};
      total := total - files[i].size;
    }
    SizeLengthIs(files, maxTotal, |files|);
  }

  /** Both policies together select a prefix of the oldest-first list, the longer of the two. */
  method SelectArtifactCleanupCandidates(files: seq<File>, now: real, maxAge: Option<int>, maxTotal: Option<int>)
    returns (selected: set<nat>)
    requires OldestFirst(files)
    ensures var a, b := AgeLength(files, now, maxAge), SizeLength(files, maxTotal);
            selected == Paths(files, if a < b then b else a)
  {
    AgeLengthCuts(files, now, maxAge);
    selected := {};
    if maxAge.Some? { selected := SelectByAge(files, now, maxAge.value); }
    if maxTotal.Some? { selected := SelectBySize(files, maxTotal.value, selected); }
  }

  lemma {:induction false} BytesShrink(files: seq<File>, j: nat, k: nat)
    requires j <= k <= |files|
    ensures Bytes(files[k..]) <= Bytes(files[j..])
    decreases k - j
  {
    if j < k {
      BytesDrop(files, j);
      BytesShrink(files, j + 1, k);
    }
  }

  /** A prefix does the job: no expired file stays and what stays fits the limit. */
  ghost predicate Suffices(files: seq<File>, now: real, maxAge: Option<int>, maxTotal: Option<int>, k: nat) {
    && k <= |files|
    && (forall i | k <= i < |files| :: maxAge.None? || !Expired(files[i], now, maxAge.value))
    && (maxTotal.Some? ==> Bytes(files[k..]) <= maxTotal.value)
  }

  /** With limits as the request validates them, the selection is the shortest prefix that does the job. */
  lemma SelectionIsMinimal(files: seq<File>, now: real, maxAge: Option<int>, maxTotal: Option<int>, j: nat)
    requires OldestFirst(files) && j <= |files| && (maxTotal.Some? ==> maxTotal.value >= 0)
    ensures var a, b := AgeLength(files, now, maxAge), SizeLength(files, maxTotal);
            Suffices(files, now, maxAge, maxTotal, j) <==> j >= if a < b then b else a
  {
    hide AgeLength, SizeLength;
    var a, b := AgeLength(files, now, maxAge), SizeLength(files, maxTotal);
    AgeLengthCuts(files, now, maxAge);
    SizeLengthCuts(files, maxTotal);
    BytesShrink(files, if b <= j then b else j, j);
    assert files[|files|..] == [];
    if j < a {
      assert j <= a - 1 < |files| && maxAge.Some? && Expired(files[a - 1], now, maxAge.value);
    }
  }
}
