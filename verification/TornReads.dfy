/** Copying an artifact out of a directory its worker can still write to. */
module TornReads {
  import opened Wrappers
  import opened Bytes

  const CHUNK := 1024 * 1024

  /** What fstat tells about a file. */
  datatype Identity = Identity(device: nat, inode: nat, size: nat, mtime: nat, ctime: nat)

  /** The part of it that was compared when the path was resolved. */
  datatype Opened = Opened(device: nat, inode: nat, size: nat, mtime: nat)

  /** The file between two writes. */
  datatype Version = Version(identity: Identity, bytes: Octets)

  /** What happens just before one of our system calls: how many writes, and how much a read returns. */
  datatype Beat = Beat(writes: nat, take: nat)

  datatype Copied = Copied(size: nat, digest: string, destination: Octets)

  datatype CopyError = ChangedBefore | ExceedsPolicy | ChangedDuring

  function OpenedOf(v: Version): Opened {
    Opened(v.identity.device, v.identity.inode, v.identity.size, v.identity.mtime)
  }

  /** Every write leaves a new identity behind, and the size is that of the bytes. */
  ghost predicate Timeline(versions: seq<Version>) {
    && (forall i | 0 <= i < |versions| :: versions[i].identity.size == |versions[i].bytes|)
    && (forall i, j | 0 <= i < j < |versions| :: versions[i].identity != versions[j].identity)
  }

  function Min(a: nat, b: nat): nat { if a < b then a else b }

  /** The version that is current after the writes before call number k. */
  function Advance(versions: seq<Version>, current: nat, script: seq<Beat>, k: nat): (next: nat)
    requires current < |versions|
    ensures current <= next < |versions|
    ensures k < |script| && current + script[k].writes < |versions| ==> next == current + script[k].writes
  {
    if k < |script| then Min(current + script[k].writes, |versions| - 1) else current
  }

  /** read(fd, CHUNK): some prefix of what follows the offset, empty only at the end of the file. */
  function Read(v: Version, offset: nat, script: seq<Beat>, k: nat): (chunk: Octets)
    ensures offset >= |v.bytes| ==> chunk == []
    ensures offset < |v.bytes| ==> 0 < |chunk| <= CHUNK && offset + |chunk| <= |v.bytes|
    ensures offset <= |v.bytes| ==> chunk == v.bytes[offset..offset + |chunk|]
    ensures offset + CHUNK <= |v.bytes| && k < |script| && 0 < script[k].take <= CHUNK ==> |chunk| == script[k].take
  {
    if offset >= |v.bytes| then []
    else
      var take := if k < |script| && 0 < script[k].take < CHUNK then script[k].take else CHUNK;
      v.bytes[offset..Min(offset + take, |v.bytes|)]
  }

  /** The version that call number k meets, when version `at` is current to begin with. */
  function Current(versions: seq<Version>, at: nat, script: seq<Beat>, k: nat): (current: nat)
    requires at < |versions|
    ensures at <= current < |versions|
  {
    Advance(versions, if k == 0 then at else Current(versions, at, script, k - 1), script, k)
  }

  lemma {:induction false} CurrentGrows(versions: seq<Version>, at: nat, script: seq<Beat>, j: nat, k: nat)
    requires at < |versions| && j <= k
    ensures Current(versions, at, script, j) <= Current(versions, at, script, k)
  {
    if j < k { CurrentGrows(versions, at, script, j, k - 1); }
  }

  /** How many reads see an unchanging file through to its end, from call number k on. */
  function Reads(v: Version, offset: nat, script: seq<Beat>, k: nat): (n: nat)
    ensures n > 0
    decreases |v.bytes| - offset
  {
    var chunk := Read(v, offset, script, k);
    if chunk == [] then 1 else 1 + Reads(v, offset + |chunk|, script, k + 1)
  }

  /** The copy succeeds exactly when the first fstat meets the version that was validated, that version fits
      the remaining budget, and nothing is written until the fstat after its last read. Then the destination
      is that one version, byte for byte, and size and digest are that version's. */
  method CopyFdAndHash(versions: seq<Version>, at: nat, script: seq<Beat>, remaining: nat,
                       validated: Opened, sha: Octets -> string)
    returns (result: Result<Copied, CopyError>)
    requires at < |versions| && Timeline(versions)
    ensures var first := Current(versions, at, script, 0);
            var v, last := versions[first], 1 + Reads(versions[first], 0, script, 1);
            && (result.Ok? <==>
                  OpenedOf(v) == validated && |v.bytes| <= remaining && Current(versions, at, script, last) == first)
            && (result.Ok? ==> result.value == Copied(|v.bytes|, sha(v.bytes), v.bytes))
            && (result == Err(ChangedBefore) <==> OpenedOf(v) != validated)
            && (Current(versions, at, script, last) == first && OpenedOf(v) == validated && |v.bytes| > remaining ==>
                  result == Err(ExceedsPolicy))
  {
    hide Read, Reads, Advance, Current;
    FirstCall(versions, at, script);
    ghost var first := Current(versions, at, script, 0);
    ghost var last := 1 + Reads(versions[first], 0, script, 1);
    ghost var undisturbed := Current(versions, at, script, last) == first;
    var current := Advance(versions, at, script, 0);
    var before := versions[current].identity;
    if OpenedOf(versions[current]) != validated {
      return Err(ChangedBefore);
    }
    var destination: Octets, size, k := [], 0, 1;
    var done := false;
    while !done
      invariant k > 0 && first <= current == Current(versions, at, script, k - 1)
      invariant size == |destination| <= remaining
      invariant current == first ==> size <= |versions[first].bytes| && destination == versions[first].bytes[..size]
      invariant current == first ==>
                  if done then size == |versions[first].bytes| && k == last
                  else k + Reads(versions[first], size, script, k) == last
      invariant undisturbed ==> current == first
      decreases !done, remaining - size
    {
      current := Advance(versions, current, script, k);
      NextCall(versions, at, script, k);
      ReadsNext(versions[first], size, script, k);
      if undisturbed { Undisturbed(versions, at, script, k, last); }
      var chunk := Read(versions[current], size, script, k);
      k := k + 1;
      if chunk == [] {
        done := true;
      } else {
        size := size + |chunk|;
        if size > remaining {
          return Err(ExceedsPolicy);
        }
        destination := destination + chunk;
      }
    }
    current := Advance(versions, current, script, k);
    NextCall(versions, at, script, k);
    if undisturbed { Undisturbed(versions, at, script, k, last); }
    CurrentGrows(versions, at, script, k - 1, k);
    CurrentGrows(versions, at, script, 0, k - 1);
    if before != versions[current].identity || size != versions[current].identity.size {
      return Err(ChangedDuring);
    }
    assert versions[first].bytes[..size] == versions[first].bytes;
    return Ok(Copied(size, sha(destination), destination));
  }

  lemma FirstCall(versions: seq<Version>, at: nat, script: seq<Beat>)
    requires at < |versions|
    ensures Current(versions, at, script, 0) == Advance(versions, at, script, 0)
  { }

  lemma NextCall(versions: seq<Version>, at: nat, script: seq<Beat>, k: nat)
    requires at < |versions| && k > 0
    ensures Current(versions, at, script, k) == Advance(versions, Current(versions, at, script, k - 1), script, k)
  { }

  lemma ReadsNext(v: Version, offset: nat, script: seq<Beat>, k: nat)
    ensures var chunk := Read(v, offset, script, k);
            Reads(v, offset, script, k) == if chunk == [] then 1 else 1 + Reads(v, offset + |chunk|, script, k + 1)
  { }

  lemma Undisturbed(versions: seq<Version>, at: nat, script: seq<Beat>, k: nat, last: nat)
    requires at < |versions| && Current(versions, at, script, last) == Current(versions, at, script, 0)
    ensures k <= last ==> Current(versions, at, script, k) == Current(versions, at, script, 0)
  {
    if k <= last {
      CurrentGrows(versions, at, script, 0, k);
      CurrentGrows(versions, at, script, k, last);
    }
  }
}
