/**
 The allocator after a move: which blocks of the source come free, whether any
 stay behind, and whether the free chain survives.
 */
module MoveSettling {
  import opened Disk
  import opened Allocator
  import opened Tree
  import opened INodes
  import opened Directories
  import opened MakeDirectory
  import opened Freeing
  import opened DeleteFile
  import opened Subtree
  import opened DeleteDirectory
  import opened Outline
  import opened Paths
  import opened Resolve
  import opened Strays
  import opened CopyTree
  import opened MoveTree

  /** The blocks a move frees: all of a file, of a directory those the recursion frees. */
  ghost function MoveFrees(s: State, c: Cert, src: int): set<int>
    requires Placed(c)
  {
    if IsDir(INodeAt(s.img.inodes, src)) then Freed(s, c, Sub(c, src)) else OwnedIn(c, Sub(c, src))
  }

  /**
   Of the source's blocks exactly those stay allocated that the deletion does not
   free; a disk without leaks stays one exactly when there are none; the chain
   survives exactly when no free of the deletion started on a group boundary.
   */
  ghost predicate MoveSettled(s: State, c: Cert, s': State, c': Cert, src: int) {
    match c
    case Cert(place, _, _) =>
      && Placed(c) && src in place
      && |MoveFrees(s, c, src)| <= s'.super.freeBlocks
      && (forall b :: b in OwnedIn(c, Sub(c, src)) ==> (Used(s', b) <==> b !in MoveFrees(s, c, src)))
      && (LeakFree(s, c) ==>
            (LeakFree(s', c') <==> !IsDir(INodeAt(s.img.inodes, src)) || EveryBlockFreed(s, c, src)))
      && (ChainInv(s') <==> NoSpill(s'.super.freeBlocks - |MoveFrees(s, c, src)|, |MoveFrees(s, c, src)|))
  }

  /** A node that looks the same frees the same of its blocks. */
  lemma NodeFreesSame(s: State, c: Cert, s1: State, c1: Cert, j: int, k: int)
    requires TreeInv(s, c) && TreeInv(s1, c1) && j in c.place && j in c1.place && ViewOf(s1.img, j) == ViewOf(s.img, j)
    ensures NodeFrees(s1, j, k) == NodeFrees(s, j, k)
  {
    hide TreeInv;
    Reached(s, c, j);
    Reached(s1, c1, j);
  }

  /** The source subtree owns and would free after the copy what it did before. */
  lemma SourceFrees(s: State, c: Cert, s1: State, c1: Cert, src: int, tgt: int, name: string, i: int, doc: Doc)
    requires MoveReady(s, c, s1, c1, src, tgt, name, i, doc)
    ensures Placed(c) && Placed(c1) && Sub(c1, src) == Sub(c, src)
    ensures OwnedIn(c1, Sub(c1, src)) == OwnedIn(c, Sub(c, src)) && Freed(s1, c1, Sub(c1, src)) == Freed(s, c, Sub(c, src))
    ensures EveryBlockFreed(s1, c1, src) == EveryBlockFreed(s, c, src)
    ensures MoveFrees(s1, c1, src) == MoveFrees(s, c, src)
    ensures IsDir(INodeAt(s1.img.inodes, src)) == IsDir(INodeAt(s.img.inodes, src))
  {
    hide TreeInv, TargetHas, DiskInv, DocOf, NodeFrees, Below, EveryBlockFreed, Freed, Grew, ViewOf;
    SubtreeKept(s, c, s1, c1, src, tgt, name, i, doc);
    var sub := Sub(c, src);
    assert Sub(c1, src) == sub;
    SelfBelow(c, src);
    OwnedSame(s, s1, c, c1, sub, tgt);
    forall j, k | j in sub ensures NodeFrees(s1, j, k) == NodeFrees(s, j, k) { NodeFreesSame(s, c, s1, c1, j, k); }
    FreedAmong(s, c, sub);
    FreedAmong(s1, c1, sub);
    forall b ensures b in Freed(s1, c1, sub) <==> b in Freed(s, c, sub) {
      if b in OwnedIn(c, sub) { assert c.owner[b].0 in sub; }
    }
    AllFreedIff(s, c, src);
    AllFreedIff(s1, c1, src);
    SameKind(s, c, s1, c1, src);
  }

  lemma FreedAmong(s: State, c: Cert, sub: set<int>)
    ensures forall b :: b in Freed(s, c, sub) <==> b in OwnedIn(c, sub) && NodeFrees(s, c.owner[b].0, c.owner[b].1)
  {
    hide NodeFrees;
  }

  lemma OwnedSame(s: State, s1: State, c: Cert, c1: Cert, sub: set<int>, tgt: int)
    requires Grew(s, s1, c, c1) && GainedAt(c, c1, tgt) && tgt !in sub && sub <= c.place.Keys
    ensures OwnedIn(c1, sub) == OwnedIn(c, sub)
    ensures forall b :: b in OwnedIn(c, sub) ==> b in c1.owner && c1.owner[b] == c.owner[b]
  {
    forall b ensures b in OwnedIn(c1, sub) <==> b in OwnedIn(c, sub) {
      if b in c1.owner && b !in c.owner && c1.owner[b].0 in c.place { assert c1.owner[b].0 == tgt; }
      if b in c.owner { assert c1.owner[b] == c.owner[b]; }
    }
    forall b | b in c.owner ensures b in c1.owner && c1.owner[b] == c.owner[b] {}
  }

  lemma SameKind(s: State, c: Cert, s1: State, c1: Cert, j: int)
    requires TreeInv(s, c) && TreeInv(s1, c1) && j in c.place && j in c1.place && ViewOf(s1.img, j) == ViewOf(s.img, j)
    ensures IsDir(INodeAt(s1.img.inodes, j)) == IsDir(INodeAt(s.img.inodes, j))
  {
    hide TreeInv;
    Reached(s, c, j);
    Reached(s1, c1, j);
  }

  /** What is known of the allocator once the source is removed. */
  ghost predicate SourceRemoved(s1: State, c1: Cert, s2: State, src: int) {
    match c1
    case Cert(_, _, _) =>
      && Placed(c1)
      && s2.super.freeBlocks == s1.super.freeBlocks + |MoveFrees(s1, c1, src)|
      && (forall b :: Used(s2, b) <==> Used(s1, b) && b !in MoveFrees(s1, c1, src))
      && (ChainInv(s2) <==> ChainInv(s1) && NoSpill(s1.super.freeBlocks, |MoveFrees(s1, c1, src)|))
      && (LeakFree(s1, c1) ==>
            (LeakFree(s2, PruneCert(c1, Sub(c1, src))) <==> !IsDir(INodeAt(s1.img.inodes, src)) || EveryBlockFreed(s1, c1, src)))
  }

  lemma DirRemovedSettles(s1: State, c1: Cert, s2: State, d: int, name: string, h: int, src: int)
    requires TreeInv(s1, c1) && DirDeleted(s1, s2, c1, d, name, h, src)
    ensures SourceRemoved(s1, c1, s2, src)
  {
    hide TreeInv, ChainInv, NoSpill, Freed, EveryBlockFreed, Sub, Removed;
    if LeakFree(s1, c1) { DeleteLeaksIff(s1, s2, c1, d, name, h, src); }
  }

  lemma FileRemovedSettles(s1: State, c1: Cert, s2: State, d: int, name: string, h: int, src: int)
    requires TreeInv(s1, c1) && FileDeleted(s1, s2, c1, d, name, h, src)
    ensures SourceRemoved(s1, c1, s2, src)
  {
    hide TreeInv, ChainInv, NoSpill, Freed, EveryBlockFreed, Removed;
    TreePlaced(s1, c1);
    OnlyItself(s1, c1, src);
  }

  lemma OnlyItself(s: State, c: Cert, i: int)
    requires TreeInv(s, c) && Placed(c) && i in c.place && !IsDir(INodeAt(s.img.inodes, i))
    ensures Sub(c, i) == {i}
  {
    hide TreeInv;
    forall j | j in Sub(c, i) ensures j == i {
      if j != i { FileHasNoneBelow(s, c, i, j); }
    }
    SelfBelow(c, i);
  }

  lemma Settled(s: State, c: Cert, s1: State, c1: Cert, s2: State, src: int, tgt: int, name: string, i: int, doc: Doc)
    requires MoveReady(s, c, s1, c1, src, tgt, name, i, doc) && SourceRemoved(s1, c1, s2, src)
    ensures Placed(c1) && MoveSettled(s, c, s2, PruneCert(c1, Sub(c1, src)), src)
  {
    hide TreeInv, ChainInv, NoSpill, EveryBlockFreed, Sub, DocOf, MoveFrees, OwnedIn;
    SourceFrees(s, c, s1, c1, src, tgt, name, i, doc);
    AllOwnedUsed(s1, c1);
    OwnedMembers(c1, Sub(c1, src));
  }

  lemma OwnedMembers(c: Cert, gone: set<int>)
    ensures forall b :: b in OwnedIn(c, gone) ==> b in c.owner
  {
  }

  // ---------------------------------------------------------------------
  // Bundled for the methods
  // ---------------------------------------------------------------------

  lemma DirMoved(s: State, c: Cert, s1: State, c1: Cert, s2: State, p: string, q: string, i: int, h: int, x: int)
    requires TreeInv(s, c) && EntryCopied(s, c, s1, c1, p, q, i)
    requires
      var src := ResolvePath(s.img, p);
      src in c.place && TreeInv(s1, c1) && DirDeleted(s1, s2, c1, c.place[src].parent, LastPart(p), h, x)
    ensures
      var src := ResolvePath(s.img, p);
      && Placed(c1) && EntryMoved(s, c, s2, PruneCert(c1, Sub(c1, src)), p, q, i)
      && MoveSettled(s, c, s2, PruneCert(c1, Sub(c1, src)), src)
  {
    hide TreeInv, EntryCopied, EntryMoved, DirDeleted, ResolvePath, DocOf, MoveSettled, SourceRemoved, MoveReady, Names;
    var src := ResolvePath(s.img, p);
    var d := c.place[src].parent;
    DirGone(s1, s2, c1, d, LastPart(p), h, x);
    MoveDone(s, c, s1, c1, s2, p, q, i, h, x);
    CopyMakesReady(s, c, s1, c1, p, q, i);
    ParentFound(s, c, s1, c1, p, q, i);
    SourceGone(s1, s2, c1, d, h, x, src);
    DirRemovedSettles(s1, c1, s2, d, LastPart(p), h, src);
    Settled(s, c, s1, c1, s2, src, ResolvePath(s.img, q), LastPart(p), i, DocOf(s, c, src));
  }

  lemma FileMoved(s: State, c: Cert, s1: State, c1: Cert, s2: State, p: string, q: string, i: int, h: int, x: int)
    requires TreeInv(s, c) && EntryCopied(s, c, s1, c1, p, q, i)
    requires
      var src := ResolvePath(s.img, p);
      src in c.place && TreeInv(s1, c1) && FileDeleted(s1, s2, c1, c.place[src].parent, LastPart(p), h, x)
    ensures
      var src := ResolvePath(s.img, p);
      && Placed(c1) && EntryMoved(s, c, s2, PruneCert(c1, Sub(c1, src)), p, q, i)
      && MoveSettled(s, c, s2, PruneCert(c1, Sub(c1, src)), src)
  {
    hide TreeInv, EntryCopied, EntryMoved, FileDeleted, ResolvePath, DocOf, MoveSettled, SourceRemoved, MoveReady, Names;
    var src := ResolvePath(s.img, p);
    var d := c.place[src].parent;
    FileGone(s1, s2, c1, d, LastPart(p), h, x);
    MoveDone(s, c, s1, c1, s2, p, q, i, h, x);
    CopyMakesReady(s, c, s1, c1, p, q, i);
    ParentFound(s, c, s1, c1, p, q, i);
    SourceGone(s1, s2, c1, d, h, x, src);
    FileRemovedSettles(s1, c1, s2, d, LastPart(p), h, src);
    Settled(s, c, s1, c1, s2, src, ResolvePath(s.img, q), LastPart(p), i, DocOf(s, c, src));
  }

  // ---------------------------------------------------------------------
  // The removal beside stray pointers
  // ---------------------------------------------------------------------

  lemma StrayParent(s: State, t: State, clean: set<int>, path: string)
    requires Strayed(s, t, clean)
    ensures ResolvePath(s.img, path) == ResolvePath(t.img, path)
    ensures forall i :: IsDir(INodeAt(s.img.inodes, i)) == IsDir(INodeAt(t.img.inodes, i))
  {
    hide Strayed, Follow;
    StrayFollow(s, t, clean, ROOT, Parts(path));
    forall i ensures IsDir(INodeAt(s.img.inodes, i)) == IsDir(INodeAt(t.img.inodes, i)) { StrayReads(s, t, clean, i); }
  }

  /** The slot of the parent that carries the source's name is the source's. */
  lemma SlotIsSource(s: State, c: Cert, s1: State, c1: Cert, p: string, q: string, i: int, h: int)
    requires TreeInv(s, c) && EntryCopied(s, c, s1, c1, p, q, i) && 0 <= h < SLOTS
    requires
      var src := ResolvePath(s.img, p);
      && src in c.place && |INodeAt(s1.img.inodes, c.place[src].parent).direct| == DIRECT
      && Slots(s1.img.blocks, INodeAt(s1.img.inodes, c.place[src].parent).direct)[h].name == LastPart(p)
    ensures
      var src := ResolvePath(s.img, p);
      Slots(s1.img.blocks, INodeAt(s1.img.inodes, c.place[src].parent).direct)[h].ino == src
  {
    hide TreeInv, ResolvePath, NameOf, DocOf, Names, Slots;
    ParentFound(s, c, s1, c1, p, q, i);
    HangsUnder(s1, c1, ResolvePath(s.img, p));
  }

  /** What DeleteDir will find is the source, and the source has no stray pointer. */
  lemma SourceClean(s: State, c: Cert, s1: State, c1: Cert, p: string, q: string, i: int, h: int, x: int)
    requires TreeInv(s, c) && EntryCopied(s, c, s1, c1, p, q, i)
    requires var src := ResolvePath(s.img, p); src in c.place && DirFound(s1, c1, c.place[src].parent, LastPart(p), h, x)
    ensures Placed(c1) && Sub(c1, x) <= c.place.Keys
  {
    hide TreeInv, ResolvePath, NameOf, DocOf, Names, Slots, BitsInv, MoveReady;
    var src, tgt := ResolvePath(s.img, p), ResolvePath(s.img, q);
    SlotIsSource(s, c, s1, c1, p, q, i, h);
    CopyMakesReady(s, c, s1, c1, p, q, i);
    SubtreeKept(s, c, s1, c1, src, tgt, LastPart(p), i, DocOf(s, c, src));
  }

  lemma FoundIsSource(s: State, c: Cert, s1: State, c1: Cert, p: string, q: string, i: int)
    requires TreeInv(s, c) && EntryCopied(s, c, s1, c1, p, q, i)
    requires var src := ResolvePath(s.img, p); src in c.place && |INodeAt(s1.img.inodes, c.place[src].parent).direct| == DIRECT
    ensures
      var n := INodeAt(s1.img.inodes, c.place[ResolvePath(s.img, p)].parent);
      var h := FindKind(s1.img, n.direct, LastPart(p), false, 0);
      h < SLOTS ==> Slots(s1.img.blocks, n.direct)[h].ino in c.place.Keys
  {
    hide TreeInv, ResolvePath, DocOf, Names, Slots, FindKind, EntryCopied;
    var n := INodeAt(s1.img.inodes, c.place[ResolvePath(s.img, p)].parent);
    var h := FindKind(s1.img, n.direct, LastPart(p), false, 0);
    if h < SLOTS { SlotIsSource(s, c, s1, c1, p, q, i, h); }
  }
}
