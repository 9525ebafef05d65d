/** Where a block's release date and staff lock come from (cms/djangoapps/contentstore/utils.py). */
module Ancestors {
  import opened Wrappers

  type BlockId = nat

  /** `lock` is the explicit `visible_to_staff_only` of the block, if it sets one. */
  datatype Block = Block(isChapter: bool, start: Option<int>, lock: Option<bool>, parent: Option<BlockId>)

  type Tree = map<BlockId, Block>

  predicate Below(tree: Tree, height: map<BlockId, nat>, b: BlockId, parent: BlockId)
    requires b in height
  {
    parent in tree && parent in height && height[parent] < height[b]
  }

  /** Parents exist, and `height` falls on the way up, so there is no cycle. */
  predicate Acyclic(tree: Tree, height: map<BlockId, nat>) {
    forall b :: b in tree ==> b in height && (tree[b].parent.Some? ==> Below(tree, height, b, tree[b].parent.value))
  }

  function FindReleaseDateSource(tree: Tree, ghost height: map<BlockId, nat>, b: BlockId): (source: BlockId)
    requires Acyclic(tree, height) && b in tree
    ensures source in tree
    decreases height[b]
  {
    var block := tree[b];
    if block.isChapter || block.parent.None? then b
    else if tree[block.parent.value].start != block.start then b
    else FindReleaseDateSource(tree, height, block.parent.value)
  }

  function FindStaffLockSource(tree: Tree, ghost height: map<BlockId, nat>, b: BlockId): (source: Option<BlockId>)
    requires Acyclic(tree, height) && b in tree
    ensures source.Some? ==> source.value in tree
    decreases height[b]
  {
    var block := tree[b];
    if block.lock.Some? then Some(b)
    else if block.isChapter || block.parent.None? then None
    else FindStaffLockSource(tree, height, block.parent.value)
  }

  /** The ancestor `k` levels up, the block itself being level 0. */
  function Up(tree: Tree, b: BlockId, k: nat): Option<BlockId>
    requires b in tree
    decreases k
  {
    if k == 0 then Some(b)
    else if tree[b].parent.Some? && tree[b].parent.value in tree then Up(tree, tree[b].parent.value, k - 1)
    else None
  }

  /** Neither search looks above a chapter or an orphan. */
  predicate Stops(tree: Tree, b: BlockId)
    requires b in tree
  {
    tree[b].isChapter || tree[b].parent.None?
  }

  /** Levels `0..k` exist, and a search may pass through all of them but the last. */
  ghost predicate Reaches(tree: Tree, b: BlockId, k: nat)
    requires b in tree
  {
    Up(tree, b, k).Some? &&
    forall j: nat :: j < k && Up(tree, b, j).Some? && Up(tree, b, j).value in tree ==>
      !Stops(tree, Up(tree, b, j).value)
  }

  /** The run of ancestors with the block's own date goes up to level `k` and no further. */
  ghost predicate TopOfRun(tree: Tree, b: BlockId, k: nat, top: BlockId)
    requires b in tree
  {
    && Up(tree, b, k) == Some(top) && top in tree && Reaches(tree, b, k)
    && (forall j: nat :: j <= k && Up(tree, b, j).Some? && Up(tree, b, j).value in tree ==>
          tree[Up(tree, b, j).value].start == tree[b].start)
    && (Stops(tree, top) || (tree[top].parent.value in tree && tree[tree[top].parent.value].start != tree[b].start))
  }

  lemma UpOneMore(tree: Tree, b: BlockId, p: BlockId, k: nat)
    requires b in tree && tree[b].parent == Some(p) && p in tree
    ensures Up(tree, b, k + 1) == Up(tree, p, k)
  {
  }

  lemma ReachesOneMore(tree: Tree, b: BlockId, p: BlockId, k: nat)
    requires b in tree && tree[b].parent == Some(p) && p in tree && !tree[b].isChapter && Reaches(tree, p, k)
    ensures Reaches(tree, b, k + 1)
  {
    forall j: nat | j < k + 1 && Up(tree, b, j).Some? && Up(tree, b, j).value in tree
      ensures !Stops(tree, Up(tree, b, j).value)
    {
      if j > 0 {
        UpOneMore(tree, b, p, j - 1);
      }
    }
  }

  /** The release date source is the top of the maximal run of ancestors that share the block's date. */
  lemma {:induction false} ReleaseSourceIsTop(tree: Tree, height: map<BlockId, nat>, b: BlockId) returns (k: nat)
    requires Acyclic(tree, height) && b in tree
    ensures TopOfRun(tree, b, k, FindReleaseDateSource(tree, height, b))
    decreases height[b]
  {
    var block := tree[b];
    if block.isChapter || block.parent.None? || tree[block.parent.value].start != block.start {
      k := 0;
    } else {
      var p := block.parent.value;
      var i := ReleaseSourceIsTop(tree, height, p);
      k := i + 1;
      ReachesOneMore(tree, b, p, i);
      forall j: nat | j <= k && Up(tree, b, j).Some? && Up(tree, b, j).value in tree
        ensures tree[Up(tree, b, j).value].start == tree[b].start
      {
        if j > 0 {
          UpOneMore(tree, b, p, j - 1);
        }
      }
    }
  }

  /** The inherited value: the nearest explicit setting on the way to the root, chapters included; otherwise false. */
  function Flag(tree: Tree, ghost height: map<BlockId, nat>, b: BlockId): bool
    requires Acyclic(tree, height) && b in tree
    decreases height[b]
  {
    if tree[b].lock.Some? then tree[b].lock.value
    else if tree[b].parent.None? then false
    else Flag(tree, height, tree[b].parent.value)
  }

  /** `ancestor_has_staff_lock` without a parent passed in */
  predicate AncestorHasStaffLock(tree: Tree, ghost height: map<BlockId, nat>, b: BlockId)
    requires Acyclic(tree, height) && b in tree
  {
    tree[b].parent.Some? && Flag(tree, height, tree[b].parent.value)
  }

  /** No level below `k` sets the lock. */
  ghost predicate UnsetBelow(tree: Tree, b: BlockId, k: nat)
    requires b in tree
  {
    forall j: nat :: j < k && Up(tree, b, j).Some? && Up(tree, b, j).value in tree ==>
      tree[Up(tree, b, j).value].lock.None?
  }

  /**
    The staff lock source is the nearest block that sets the lock, no higher than the first chapter or
    orphan, and its value is the block's inherited flag. Without one, the flag is that of the chapter or
    orphan, which none of the levels up to it set.
   */
  lemma {:induction false} LockSourceIsNearest(tree: Tree, height: map<BlockId, nat>, b: BlockId) returns (k: nat)
    requires Acyclic(tree, height) && b in tree
    ensures Reaches(tree, b, k) && Up(tree, b, k).value in tree
    ensures match FindStaffLockSource(tree, height, b)
            case Some(source) =>
              && UnsetBelow(tree, b, k) && Up(tree, b, k) == Some(source) && tree[source].lock.Some?
              && Flag(tree, height, b) == tree[source].lock.value
            case None =>
              && UnsetBelow(tree, b, k + 1) && Stops(tree, Up(tree, b, k).value)
              && Flag(tree, height, b) == Flag(tree, height, Up(tree, b, k).value)
    decreases height[b]
  {
    var block := tree[b];
    if block.lock.Some? || block.isChapter || block.parent.None? {
      k := 0;
    } else {
      var p := block.parent.value;
      var i := LockSourceIsNearest(tree, height, p);
      k := i + 1;
      ReachesOneMore(tree, b, p, i);
      UpOneMore(tree, b, p, i);
      forall j: nat | j <= k && Up(tree, b, j).Some? && Up(tree, b, j).value in tree
        ensures j > 0 ==> Up(tree, p, j - 1) == Up(tree, b, j)
        ensures j == 0 ==> Up(tree, b, j) == Some(b)
      {
        if j > 0 {
          UpOneMore(tree, b, p, j - 1);
        }
      }
    }
  }

  /** Level `k` is the nearest to set the lock, a search gets there, and it locks. */
  ghost predicate LockedAt(tree: Tree, b: BlockId, k: nat)
    requires b in tree
  {
    && Reaches(tree, b, k) && UnsetBelow(tree, b, k)
    && Up(tree, b, k).value in tree && tree[Up(tree, b, k).value].lock == Some(true)
  }

  /** A search stops at level `k`; neither that level nor any below it sets the lock, and nothing above locks it. */
  ghost predicate UnlockedUpTo(tree: Tree, height: map<BlockId, nat>, b: BlockId, k: nat)
    requires Acyclic(tree, height) && b in tree
  {
    && Reaches(tree, b, k) && UnsetBelow(tree, b, k + 1)
    && Up(tree, b, k).value in tree && Stops(tree, Up(tree, b, k).value)
    && !AncestorHasStaffLock(tree, height, Up(tree, b, k).value)
  }

  /**
    What the docstring promises, that a source is returned if and only if the block is locked, is true of a
    block exactly when either the nearest setting on the way to the chapter locks, or there is no setting
    on that way and none above the chapter that locks it.
   */
  lemma LockSourceMeansLockedExactly(tree: Tree, height: map<BlockId, nat>, b: BlockId)
    requires Acyclic(tree, height) && b in tree
    ensures (FindStaffLockSource(tree, height, b).Some? <==> Flag(tree, height, b)) <==>
            (exists k: nat :: LockedAt(tree, b, k)) || (exists k: nat :: UnlockedUpTo(tree, height, b, k))
  {
    var k := LockSourceIsNearest(tree, height, b);
    var block := Up(tree, b, k).value;
    if FindStaffLockSource(tree, height, b).Some? {
      forall i: nat | LockedAt(tree, b, i) || UnlockedUpTo(tree, height, b, i)
        ensures LockedAt(tree, b, i) && i == k
      {
        NearestIsSingle(tree, b, k, i);
      }
      assert tree[block].lock == Some(true) ==> LockedAt(tree, b, k);
    } else {
      assert tree[block].lock.None?;
      forall i: nat | LockedAt(tree, b, i) || UnlockedUpTo(tree, height, b, i)
        ensures UnlockedUpTo(tree, height, b, i) && i == k
      {
      }
      assert !AncestorHasStaffLock(tree, height, block) ==> UnlockedUpTo(tree, height, b, k);
    }
  }

  /** A search that meets a setting at level `k` meets none, and cannot stop, at any other level. */
  lemma NearestIsSingle(tree: Tree, b: BlockId, k: nat, i: nat)
    requires b in tree && Reaches(tree, b, k) && UnsetBelow(tree, b, k)
    requires Up(tree, b, k).value in tree && tree[Up(tree, b, k).value].lock.Some?
    requires Reaches(tree, b, i) && UnsetBelow(tree, b, i) && Up(tree, b, i).value in tree
    requires tree[Up(tree, b, i).value].lock.Some? || Stops(tree, Up(tree, b, i).value)
    ensures i <= k && (tree[Up(tree, b, i).value].lock.Some? ==> i == k)
  {
  }

  /** An explicitly unlocked block is returned as the source of a lock it does not have. */
  lemma UnlockedBlockIsReturned() returns (tree: Tree, height: map<BlockId, nat>)
    ensures Acyclic(tree, height) && 1 in tree
    ensures FindStaffLockSource(tree, height, 1) == Some(1) && !Flag(tree, height, 1)
  {
    tree := map[1 := Block(false, None, Some(false), Some(2)), 2 := Block(true, None, Some(true), None)];
    height := map[1 := 1, 2 := 0];
  }

  /** No source is returned for a block locked from above its chapter. */
  lemma LockAboveChapterIsMissed() returns (tree: Tree, height: map<BlockId, nat>)
    ensures Acyclic(tree, height) && 1 in tree
    ensures FindStaffLockSource(tree, height, 1) == None && Flag(tree, height, 1)
  {
    tree := map[1 := Block(false, None, None, Some(2)), 2 := Block(true, None, None, Some(3)),
                3 := Block(false, None, Some(true), None)];
    height := map[1 := 2, 2 := 1, 3 := 0];
    assert Flag(tree, height, 3) && Flag(tree, height, 2);
    assert FindStaffLockSource(tree, height, 2) == None;
  }
}
