/** Deleting a retained run and pruning the directories that it leaves empty. */
module RetainedCleanup {
  import opened FileTree
  import opened RetentionSpec
  import opened RetentionStore

  /** Something is directly inside d. */
  predicate HasChild(t: Tree, d: Path) {
    || (exists p | p in t.dirs :: |p| == |d| + 1 && Under(d, p))
    || (exists p | p in t.files :: |p| == |d| + 1 && Under(d, p))
  }

  /** What rmdir after rmdir on the way up to the root leaves when no operation fails. */
  function Pruned(t: Tree, d: Path): Tree
    decreases |d|
  {
    if d == [] || HasChild(t, d) then t else Pruned(t.(dirs := t.dirs - {d}), Parent(d))
  }

  /** Only directories on the way to d, but not the root, were removed. */
  ghost predicate OnlyPruned(t: Tree, u: Tree, d: Path) {
    && WellFormed(u) && u.files == t.files && u.dirs <= t.dirs
    && forall p | p in t.dirs && p !in u.dirs :: p != [] && Under(p, d)
  }

  lemma RmdirOne(t: Tree, d: Path)
    requires WellFormed(t) && d != [] && !HasChild(t, d)
    ensures OnlyPruned(t, t.(dirs := t.dirs - {d}), d)
  {
    var u := t.(dirs := t.dirs - {d});
    forall p | p in u.dirs && p != [] ensures Parent(p) in u.dirs {
      assert Parent(p) == d ==> |p| == |d| + 1 && Under(d, p);
    }
    forall p | p in u.files ensures p != [] && Parent(p) in u.dirs && p !in u.dirs {
      assert Parent(p) == d ==> |p| == |d| + 1 && Under(d, p);
    }
  }

  lemma OnlyPrunedTrans(t: Tree, u: Tree, v: Tree, d: Path)
    requires d != [] && OnlyPruned(t, u, d) && OnlyPruned(u, v, Parent(d))
    ensures OnlyPruned(t, v, d)
  {
    forall p | p in t.dirs && p !in v.dirs ensures p != [] && Under(p, d) {
      assert p in u.dirs ==> Under(p, Parent(d));
    }
  }

  lemma {:induction false} PrunedOnly(t: Tree, d: Path)
    requires WellFormed(t)
    ensures OnlyPruned(t, Pruned(t, d), d)
    decreases |d|
  {
    if d != [] && !HasChild(t, d) {
      var u := t.(dirs := t.dirs - {d});
      RmdirOne(t, d);
      PrunedOnly(u, Parent(d));
      OnlyPrunedTrans(t, u, Pruned(u, Parent(d)), d);
    }
  }

  /** No empty directory is left between the root and d. */
  ghost predicate NoneEmpty(t: Tree, d: Path) {
    forall p | p in t.dirs && p != [] && Under(p, d) :: HasChild(t, p)
  }

  lemma AncestorHasChild(t: Tree, p: Path, d: Path)
    requires WellFormed(t) && d in t.dirs && Under(p, d) && p != d
    ensures HasChild(t, p)
  {
    var c := d[..|p| + 1];
    assert Under(c, d);
    AncestorsThere(t, c, d);
    assert c in t.dirs && |c| == |p| + 1 && Under(p, c);
  }

  lemma {:induction false} PrunedNoneEmpty(t: Tree, d: Path)
    requires WellFormed(t) && d in t.dirs
    ensures NoneEmpty(Pruned(t, d), d)
    decreases |d|
  {
    if d == [] {
    } else if HasChild(t, d) {
      forall p | p in t.dirs && p != [] && Under(p, d) ensures HasChild(t, p) {
        if p != d { AncestorHasChild(t, p, d); }
      }
    } else {
      var u := t.(dirs := t.dirs - {d});
      RmdirOne(t, d);
      PrunedNoneEmpty(u, Parent(d));
      PrunedOnly(u, Parent(d));
      forall p | p in Pruned(t, d).dirs && p != [] && Under(p, d) ensures Under(p, Parent(d)) {
        assert p != d;
      }
    }
  }

  /** Below a removed or added directory on the way to d there is nothing but such directories. */
  lemma {:induction false} ChainEnds(t: Tree, r: Tree, p: Path, d: Path)
    requires WellFormed(t) && WellFormed(r) && t.files == r.files
    requires forall q | q in t.dirs && q !in r.dirs :: Under(q, d)
    requires p in t.dirs && p !in r.dirs && NoneEmpty(t, d) && p != []
    ensures false
    decreases |d| - |p|
  {
    assert HasChild(t, p);
    assert forall q | q in t.files && |q| == |p| + 1 && Under(p, q) :: Parent(q) == p;
    var c :| c in t.dirs && |c| == |p| + 1 && Under(p, c);
    assert Parent(c) == p;
    ChainEnds(t, r, c, d);
  }

  /** Retaining a fresh run and cleaning it up again restores the volume exactly when no directory on the
      way to it was empty before: an empty one is pruned along with those the retention had made. */
  lemma CleanupInvertsRetention(t: Tree, u: Tree, final: Path)
    requires WellFormed(t) && final != [] && !Exists(t, final)
    requires ParentsAdded(t, RemoveTree(u, final), Parent(final)) && Parent(final) in RemoveTree(u, final).dirs
    ensures Pruned(RemoveTree(u, final), Parent(final)) == t <==> NoneEmpty(t, Parent(final))
  {
    var base, d := RemoveTree(u, final), Parent(final);
    var r := Pruned(base, d);
    PrunedOnly(base, d);
    PrunedNoneEmpty(base, d);
    if NoneEmpty(t, d) {
      forall p | p in t.dirs ensures p in r.dirs {
        if p !in r.dirs { ChainEnds(t, r, p, d); }
      }
      forall p | p in r.dirs ensures p in t.dirs {
        if p !in t.dirs { ChainEnds(r, t, p, d); }
      }
      assert r.dirs == t.dirs;
    }
  }

  /** rmtree of the run, then rmdir upwards until the root or the first directory that is not empty. */
  method CleanupRetainedRun(volume: ArtifactVolume, target: Path) returns (ok: bool)
    requires WellFormed(volume.tree) && target != []
    modifies volume
    ensures WellFormed(volume.tree)
    ensures !Exists(old(volume.tree), target) ==> ok && volume.tree == old(volume.tree)
    ensures !ok ==> volume.tree == old(volume.tree)
    ensures target in old(volume.tree).files ==> !ok
    ensures ok ==>
              && Absent(volume.tree, target)
              && OnlyPruned(RemoveTree(old(volume.tree), target), volume.tree, Parent(target))
    ensures old(volume.faults) == [] && target in old(volume.tree).dirs ==>
              && ok && volume.tree == Pruned(RemoveTree(old(volume.tree), target), Parent(target))
              && NoneEmpty(volume.tree, Parent(target))
  {
    var t := volume.tree;
    if !Exists(t, target) {
      Nothing(t, target);
      RemoveAbsent(t, target);
      return true;
    }
    if target in t.files { return false; }
    RemoveWellFormed(t, target);
    ghost var base := RemoveTree(t, target);
    ok := volume.Apply(RemoveTree(t, target));
    if !ok { return; }
    PrunedNoneEmpty(base, Parent(target));
    var parent := Parent(target);
    while parent != []
      invariant WellFormed(volume.tree) && OnlyPruned(base, volume.tree, Parent(target))
      invariant Under(parent, Parent(target))
      invariant old(volume.faults) == [] ==>
                  volume.faults == [] && Pruned(volume.tree, parent) == Pruned(base, Parent(target))
      decreases |parent|
    {
      if HasChild(volume.tree, parent) { break; }
      RmdirOne(volume.tree, parent);
      ghost var before := volume.tree;
      var removed := volume.Apply(volume.tree.(dirs := volume.tree.dirs - {parent}));
      if !removed { break; }
      parent := Parent(parent);
    }
  }
}
