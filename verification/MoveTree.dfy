/**
 CopyEntry and MoveEntry (src/filesystem_adapter.cpp): what the checks before the
 copy admit, and why a move is a clone followed by the removal of the source.
 */
module MoveTree {
  import opened Disk
  import opened Allocator
  import opened Tree
  import opened INodes
  import opened Directories
  import opened MakeDirectory
  import opened Freeing
  import opened DeleteFile
  import opened Subtree
  import opened DeleteDirectory
  import opened Outline
  import opened Paths
  import opened Resolve
  import opened CopyTree

  datatype CopyAnswer = RootRefused | SourceMissing | TargetMissing | TargetNotDirectory | IntoItself | Ran(result: CopyResult)

  datatype MoveAnswer = MoveRootRefused | MoveIntoItself | MoveSourceMissing | NotCopied(answer: CopyAnswer)
                      | ParentMissing | NotRemoved | Moved

  /** The checks of CopyEntry, on normalised paths. */
  function CopyGuard(img: Image, p: string, q: string): CopyAnswer {
    var src, tgt := ResolvePath(img, p), ResolvePath(img, q);
    if p == "/" then RootRefused
    else if src == -1 then SourceMissing
    else if tgt == -1 then TargetMissing
    else if !IsDir(INodeAt(img.inodes, tgt)) then TargetNotDirectory
    else if IsDir(INodeAt(img.inodes, src)) && (p == q || IsDescendant(p, q)) then IntoItself
    else Ran(Copied)
  }

  function LastPart(path: string): string {
    if Parts(path) == [] then "" else Parts(path)[|Parts(path)| - 1]
  }

  /** The parent path resolveParentDirectory builds. */
  function ParentPath(path: string): string {
    if Parts(path) == [] then "/" else Join(Parts(path)[..|Parts(path)| - 1])
  }

  // ---------------------------------------------------------------------
  // The guard
  // ---------------------------------------------------------------------

  lemma FileHasNoneBelow(s: State, c: Cert, src: int, tgt: int)
    requires TreeInv(s, c) && Placed(c) && src in c.place && tgt in c.place
    requires !IsDir(INodeAt(s.img.inodes, src)) && tgt != src
    ensures !Below(c, tgt, src)
  {
    forall k | k in c.place && k != ROOT ensures c.place[k].parent != src {
      assert ParentOk(s, c, k);
    }
    if Below(c, tgt, src) { var k := BelowChild(c, tgt, src); }
  }

  /** Both paths name nodes of the tree. */
  ghost predicate Ends(s: State, c: Cert, p: string, src: int, q: string, tgt: int) {
    match c
    case Cert(_, _, _) =>
      Placed(c) && Names(s, c, p, src) && Names(s, c, q, tgt) && src in c.place && tgt in c.place && p != "/"
  }

  lemma EndsNamed(s: State, c: Cert, base: string, p: string, base': string, q: string)
    requires TreeInv(s, c)
    requires
      var p', q' := Normalize(base, p), Normalize(base', q);
      p' != "/" && ResolvePath(s.img, p') != -1 && ResolvePath(s.img, q') != -1
    ensures
      var p', q' := Normalize(base, p), Normalize(base', q);
      Ends(s, c, p', ResolvePath(s.img, p'), q', ResolvePath(s.img, q'))
  {
    TreePlaced(s, c);
    NormalizeNormal(base, p);
    NormalizeNormal(base', q);
    ResolvedNames(s, c, Normalize(base, p));
    ResolvedNames(s, c, Normalize(base', q));
  }

  /**
   The checks are sound and complete: they let a copy start only where the target
   is a directory outside the source, and refuse a directory source for its place
   exactly when the target is the source or hangs below it.
   */
  lemma GuardAdmits(s: State, c: Cert, p: string, q: string)
    requires DiskInv(s) && TreeInv(s, c)
    requires
      var src, tgt := ResolvePath(s.img, p), ResolvePath(s.img, q);
      p != "/" && src != -1 && tgt != -1 ==> Ends(s, c, p, src, q, tgt)
    ensures
      var src, tgt := ResolvePath(s.img, p), ResolvePath(s.img, q);
      && (CopyGuard(s.img, p, q) == Ran(Copied) ==> Ends(s, c, p, src, q, tgt) && CanCopy(s, c, src, tgt))
      && (p != "/" && src != -1 && tgt != -1 ==>
            Placed(c) && src in c.place && tgt in c.place
            && (CopyGuard(s.img, p, q) == IntoItself <==>
                  IsDir(INodeAt(s.img.inodes, src)) && IsDir(INodeAt(s.img.inodes, tgt)) && Below(c, tgt, src)))
  {
    hide TreeInv, DiskInv, Names, ResolvePath, IsDescendant, Below, Placed;
    var src, tgt := ResolvePath(s.img, p), ResolvePath(s.img, q);
    if p != "/" && src != -1 && tgt != -1 && IsDir(INodeAt(s.img.inodes, tgt)) {
      GuardExact(s, c, p, src, q, tgt);
      if IsDir(INodeAt(s.img.inodes, src)) {
        SelfBelow(c, src);
      } else {
        FileHasNoneBelow(s, c, src, tgt);
      }
    }
  }

  lemma SelfBelow(c: Cert, i: int)
    requires Placed(c) && i in c.place
    ensures Below(c, i, i)
  {
  }

  // ---------------------------------------------------------------------
  // What CopyEntry has done
  // ---------------------------------------------------------------------

  /** The node `i` new under the target path says what the source path said. */
  ghost predicate EntryCopied(s: State, c: Cert, s': State, c': Cert, p: string, q: string, i: int) {
    match (ResolvePath(s.img, p), ResolvePath(s.img, q))
    case (src, tgt) =>
      && Ends(s, c, p, src, q, tgt) && CanCopy(s, c, src, tgt)
      && ClonedAt(s, c, s', c', tgt, LastPart(p), i, DocOf(s, c, src))
  }

  lemma SourceNamed(s: State, c: Cert, p: string, src: int)
    requires Placed(c) && Names(s, c, p, src) && p != "/"
    ensures src in c.place && src != ROOT && LastPart(p) == NameOf(s, c, src)
    ensures LastPart(p) != "" && LastPart(p) != "." && LastPart(p) != ".."
    ensures PathOf(s, c, c.place[src].parent) == Parts(ParentPath(p)) && c.place[src].parent in c.place
    ensures Normal(Parts(ParentPath(p))) && ParentPath(p) == Join(Parts(ParentPath(p)))
  {
    assert Parts(p) == [] ==> p == "/";
    var up := Parts(p)[..|Parts(p)| - 1];
    assert PathOf(s, c, src) == PathOf(s, c, c.place[src].parent) + [NameOf(s, c, src)];
    assert up == PathOf(s, c, c.place[src].parent);
    SplitInvertsJoin(up);
  }

  // ---------------------------------------------------------------------
  // The source after the copy
  // ---------------------------------------------------------------------

  /** A node that was there keeps its name. */
  lemma NameKept(s: State, c: Cert, s1: State, c1: Cert, tgt: int, name: string, i: int, x: int)
    requires TreeInv(s, c) && TreeInv(s1, c1) && GrownAt(s, c, s1, c1, tgt) && TargetHas(s, c, s1, c1, tgt, name, i)
    requires x in c.place && x != ROOT
    ensures x in c1.place && c1.place[x] == c.place[x] && NameOf(s1, c1, x) == NameOf(s, c, x)
  {
    hide TreeInv, NodeOk, DiskInv;
    HangsUnder(s, c, x);
    HangsUnder(s1, c1, x);
  }

  /** Where a node hangs, as the parent's view shows it. */
  lemma HangsUnder(s: State, c: Cert, x: int)
    requires TreeInv(s, c) && x in c.place && x != ROOT
    ensures
      var place := c.place[x];
      && place.parent in c.place && ViewOf(s.img, place.parent).DirView?
      && |ViewOf(s.img, place.parent).slots| == SLOTS && Base(place.parent) <= place.slot < SLOTS
      && ViewOf(s.img, place.parent).slots[place.slot] == Entry(NameOf(s, c, x), x) && NameOf(s, c, x) != ""
      && (forall t :: 0 <= t < SLOTS && t != place.slot ==> ViewOf(s.img, place.parent).slots[t].name != NameOf(s, c, x))
  {
    hide NodeOk;
    assert ParentOk(s, c, x);
    ReachedDir(s, c, c.place[x].parent);
  }

  /** The clone hangs in the target's first hole. */
  lemma NewNamed(s: State, c: Cert, s1: State, c1: Cert, tgt: int, name: string, i: int)
    requires TreeInv(s, c) && TreeInv(s1, c1) && tgt in c.place && TargetHas(s, c, s1, c1, tgt, name, i)
    ensures i in c1.place && i != ROOT && NameOf(s1, c1, i) == name
    ensures ViewOf(s.img, tgt).DirView? && c1.place[i].slot == FirstHole(ViewOf(s.img, tgt).slots, 0)
  {
    hide TreeInv, NodeOk, NameOf;
    HangsUnder(s1, c1, i);
    ReachedDirView(s, c, tgt);
    var slots, t := ViewOf(s.img, tgt).slots, c1.place[i].slot;
    assert t != FirstHole(slots, 0) ==> KidOk(c, tgt, t, slots[t]);
  }

  lemma ReachedDirView(s: State, c: Cert, d: int)
    requires TreeInv(s, c) && d in c.place && ViewOf(s.img, d).DirView?
    ensures IsDir(INodeAt(s.img.inodes, d)) && |ViewOf(s.img, d).slots| == SLOTS
    ensures exists cnt: nat :: DirOk(c, d, cnt, ViewOf(s.img, d).slots)
  {
    hide TreeInv, NodeOk, DirOk;
    ReachedDir(s, c, d);
  }

  lemma ResolvesTo(s: State, c: Cert, path: string, d: int)
    requires TreeInv(s, c) && Placed(c) && d in c.place && Parts(path) == PathOf(s, c, d)
    ensures ResolvePath(s.img, path) == d != -1
  {
    PathFollows(s, c, d);
  }

  lemma {:induction false} PathKept(s: State, c: Cert, s1: State, c1: Cert, tgt: int, name: string, i: int, x: int)
    requires TreeInv(s, c) && TreeInv(s1, c1) && Placed(c) && Placed(c1) && x in c.place
    requires GrownAt(s, c, s1, c1, tgt) && TargetHas(s, c, s1, c1, tgt, name, i)
    ensures x in c1.place && PathOf(s1, c1, x) == PathOf(s, c, x)
    decreases c.place[x].depth
  {
    hide TreeInv, NameOf, TargetHas, DiskInv;
    if x != ROOT {
      NameKept(s, c, s1, c1, tgt, name, i, x);
      PathKept(s, c, s1, c1, tgt, name, i, c.place[x].parent);
    }
  }

  /** The parent path resolves to the source's parent, which is not the target and still holds the source under its name. */
  lemma ParentFound(s: State, c: Cert, s1: State, c1: Cert, p: string, q: string, i: int)
    requires TreeInv(s, c) && EntryCopied(s, c, s1, c1, p, q, i)
    ensures
      var src, tgt := ResolvePath(s.img, p), ResolvePath(s.img, q);
      && src in c.place && src in c1.place && src != ROOT && Placed(c) && Placed(c1)
      && c1.place[src] == c.place[src]
      && c.place[src].parent in c.place && c.place[src].parent in c1.place
      && ResolvePath(s1.img, ParentPath(p)) == c.place[src].parent != -1
      && c.place[src].parent != tgt
      && IsDir(INodeAt(s1.img.inodes, c.place[src].parent))
      && |INodeAt(s1.img.inodes, c.place[src].parent).direct| == DIRECT
      && NameOf(s1, c1, src) == LastPart(p) != ""
  {
    hide TreeInv, Names, ResolvePath, Below, NameOf, DocOf;
    var src, tgt := ResolvePath(s.img, p), ResolvePath(s.img, q);
    var name := LastPart(p);
    SourceNamed(s, c, p, src);
    NameKept(s, c, s1, c1, tgt, name, i, src);
    HangsUnder(s, c, src);
    HangsUnder(s1, c1, src);
    HangsUnder(s1, c1, i);
    var d := c.place[src].parent;
    PathKept(s, c, s1, c1, tgt, name, i, d);
    ResolvesTo(s1, c1, ParentPath(p), d);
    NewNamed(s, c, s1, c1, tgt, name, i);
    ReachedDir(s1, c1, d);
  }

  // ---------------------------------------------------------------------
  // New nodes are the clone
  // ---------------------------------------------------------------------

  /** A new node hangs from a new node, but for the clone itself, which hangs from the target. */
  lemma ParentOfNew(s: State, c: Cert, s1: State, c1: Cert, tgt: int, name: string, i: int, x: int)
    requires TreeInv(s, c) && TreeInv(s1, c1) && tgt in c.place
    requires GrownAt(s, c, s1, c1, tgt) && TargetHas(s, c, s1, c1, tgt, name, i)
    requires x in c1.place && x !in c.place
    ensures x != ROOT && c1.place[x].parent in c1.place
    ensures c1.place[x].parent in c.place ==> x == i && c1.place[x].parent == tgt
  {
    hide TreeInv, NodeOk, DiskInv, NameOf;
    RootTop(s, c);
    HangsUnder(s1, c1, x);
    var d, t := c1.place[x].parent, c1.place[x].slot;
    if d in c.place {
      if d == tgt { ReachedDirView(s, c, tgt); } else { ReachedDirView(s, c, d); }
      var slots := ViewOf(s.img, d).slots;
      assert slots[t] == Entry(NameOf(s1, c1, x), x) ==> KidOk(c, d, t, slots[t]);
    }
  }

  /** New nodes are those of the clone, and none of them hangs below a node the target does not hang below. */
  lemma {:induction false} NewApart(s: State, c: Cert, s1: State, c1: Cert, tgt: int, name: string, i: int,
                                    x: int, src: int)
    requires TreeInv(s, c) && TreeInv(s1, c1) && Placed(c) && Placed(c1) && tgt in c.place && src in c.place
    requires GrownAt(s, c, s1, c1, tgt) && TargetHas(s, c, s1, c1, tgt, name, i) && !Below(c, tgt, src)
    requires x in c1.place && x !in c.place
    ensures Below(c1, x, i) && !Below(c1, x, src)
    decreases c1.place[x].depth
  {
    hide TreeInv, TargetHas, DiskInv, ViewOf, NodeOk;
    ParentOfNew(s, c, s1, c1, tgt, name, i, x);
    var d := c1.place[x].parent;
    if d in c.place {
      BelowFrame(c, c1, tgt, src);
    } else {
      NewApart(s, c, s1, c1, tgt, name, i, d, src);
    }
  }

  // ---------------------------------------------------------------------
  // The removal
  // ---------------------------------------------------------------------

  /** Slot `h` of `d`, which held `x` under the name, was emptied and everything below `x` is gone. */
  ghost predicate EntryGone(s: State, s': State, c: Cert, d: int, name: string, h: int, x: int) {
    match c
    case Cert(place, _, _) =>
      && Placed(c) && d in place && x in place && x != ROOT && place[x].parent == d && place[x].slot == h
      && NameOf(s, c, x) == name
      && BitsInv(s') && TreeInv(s', PruneCert(c, Sub(c, x))) && Removed(s, s', c, d, h, Sub(c, x))
  }

  lemma DirGone(s: State, s': State, c: Cert, d: int, name: string, h: int, x: int)
    requires TreeInv(s, c) && DirDeleted(s, s', c, d, name, h, x)
    ensures EntryGone(s, s', c, d, name, h, x)
  {
    hide TreeInv, Removed, BitsInv, ChainInv;
    RootTop(s, c);
  }

  lemma FileGone(s: State, s': State, c: Cert, d: int, name: string, h: int, x: int)
    requires TreeInv(s, c) && FileDeleted(s, s', c, d, name, h, x)
    ensures EntryGone(s, s', c, d, name, h, x)
  {
    hide TreeInv, Removed, BitsInv, ChainInv;
    RootTop(s, c);
    TreePlaced(s, c);
    forall j | j in Sub(c, x) ensures j == x {
      if j != x { FileHasNoneBelow(s, c, x, j); }
    }
    assert Sub(c, x) == {x};
  }

  /** The one entry with the source's name is the source's. */
  lemma SourceGone(s: State, s': State, c: Cert, d: int, h: int, x: int, src: int)
    requires TreeInv(s, c) && src in c.place && src != ROOT && c.place[src].parent == d
    requires EntryGone(s, s', c, d, NameOf(s, c, src), h, x)
    ensures x == src
  {
    hide TreeInv, Removed, BitsInv, NameOf;
    HangsUnder(s, c, src);
    HangsUnder(s, c, x);
  }

  /**
   A completed move. The nodes left are the old ones outside the source subtree,
   whose inodes are blank now, and those of the clone; the source's parent has lost the source's entry, the
   target has gained the clone's, and every other node looks as before.
   */
  ghost predicate EntryMoved(s: State, c: Cert, s': State, c': Cert, p: string, q: string, i: int) {
    match (ResolvePath(s.img, p), ResolvePath(s.img, q))
    case (src, tgt) =>
      && Ends(s, c, p, src, q, tgt) && CanCopy(s, c, src, tgt)
      && BitsInv(s') && TreeInv(s', c') && Placed(c')
      && (forall j :: j in c.place ==> (j in c'.place <==> !Below(c, j, src)))
      && (forall j :: j in c.place && j in c'.place ==> c'.place[j] == c.place[j])
      && (forall j :: j in c.place && Below(c, j, src) ==> INodeAt(s'.img.inodes, j) == BLANK)
      && i !in c.place && i in c'.place && i != ROOT && c'.place[i].parent == tgt && NameOf(s', c', i) == LastPart(p)
      && (forall j :: j in c'.place && j !in c.place ==> Below(c', j, i))
      && DocOf(s', c', i) == DocOf(s, c, src)
      && (forall j {:trigger ViewOf(s'.img, j)} {:trigger ViewOf(s.img, j)} ::
            j in c.place && j in c'.place && j != tgt && j != c.place[src].parent ==> ViewOf(s'.img, j) == ViewOf(s.img, j))
      && c.place[src].parent != tgt
      && HoleAt(s, s', c.place[src].parent, c.place[src].slot)
      && EntryIn(s, s', tgt, Entry(LastPart(p), i))
  }

  /** The view of `d` differs by an emptied slot. */
  ghost predicate HoleAt(s: State, s': State, d: int, h: int) {
    match ViewOf(s.img, d)
    case DirView(attr, slots) => 0 <= h < |slots| && ViewOf(s'.img, d) == DirView(attr, slots[h := Entry("", -1)])
    case _ => false
  }

  /** The view of `d` differs by an entry in the first hole. */
  ghost predicate EntryIn(s: State, s': State, d: int, e: Entry) {
    match ViewOf(s.img, d)
    case DirView(attr, slots) =>
      FirstHole(slots, 0) < |slots| && ViewOf(s'.img, d) == DirView(attr, slots[FirstHole(slots, 0) := e])
    case _ => false
  }

  /** The copy is done and the source's entry is about to go. */
  ghost predicate MoveReady(s: State, c: Cert, s1: State, c1: Cert, src: int, tgt: int, name: string, i: int, doc: Doc) {
    match c1
    case Cert(_, _, _) =>
      && TreeInv(s, c) && CanCopy(s, c, src, tgt) && ClonedAt(s, c, s1, c1, tgt, name, i, doc) && src != ROOT
      && Placed(c) && Placed(c1) && TreeInv(s1, c1) && src in c.place && tgt in c.place && src in c1.place
      && i !in c.place && i in c1.place && i != ROOT && !Below(c, tgt, src)
  }

  lemma CopyMakesReady(s: State, c: Cert, s1: State, c1: Cert, p: string, q: string, i: int)
    requires TreeInv(s, c) && EntryCopied(s, c, s1, c1, p, q, i)
    ensures
      var src, tgt := ResolvePath(s.img, p), ResolvePath(s.img, q);
      && Placed(c) && src in c.place && Names(s, c, p, src)
      && MoveReady(s, c, s1, c1, src, tgt, LastPart(p), i, DocOf(s, c, src))
  {
    hide TreeInv, Names, Below, DocOf, ResolvePath;
    SourceNamed(s, c, p, ResolvePath(s.img, p));
  }

  /** The source subtree is what it was before the copy. */
  lemma SubtreeKept(s: State, c: Cert, s1: State, c1: Cert, src: int, tgt: int, name: string, i: int, doc: Doc)
    requires MoveReady(s, c, s1, c1, src, tgt, name, i, doc)
    ensures Placed(c) && Placed(c1)
    ensures forall x :: x in c1.place ==> (x in Sub(c1, src) <==> x in c.place && Below(c, x, src))
    ensures forall x :: x in c.place ==> x in c1.place && c1.place[x] == c.place[x]
  {
    hide TreeInv, TargetHas, DiskInv, DocOf;
    forall x | x in c1.place ensures x in Sub(c1, src) <==> x in c.place && Below(c, x, src) {
      if x in c.place {
        BelowFrame(c, c1, x, src);
      } else {
        NewApart(s, c, s1, c1, tgt, name, i, x, src);
      }
    }
  }

  /** The clone says what it said once the source is gone. */
  lemma CloneKept(s: State, c: Cert, s1: State, c1: Cert, s2: State, src: int, tgt: int, name: string, i: int,
                  doc: Doc, h: int)
    requires MoveReady(s, c, s1, c1, src, tgt, name, i, doc) && Placed(c) && Placed(c1) && src in c.place
    requires EntryGone(s1, s2, c1, c.place[src].parent, name, h, src) && c.place[src].parent in c.place
    ensures
      var c2 := PruneCert(c1, Sub(c1, src));
      Placed(c2) && TreeInv(s2, c2) && i in c2.place && DocOf(s2, c2, i) == doc
  {
    hide TreeInv, TargetHas, DiskInv, Closed, BitsInv, Below;
    var c2 := PruneCert(c1, Sub(c1, src));
    TreePlaced(s2, c2);
    SubtreeKept(s, c, s1, c1, src, tgt, name, i, doc);
    CloneIsFresh(s, c, s1, c1, tgt, name, i, doc);
    forall x | x in Sub(c1, i)
      ensures Closed(s1, c1, x) && x in c2.place && c2.place[x] == c1.place[x] && ViewOf(s2.img, x) == ViewOf(s1.img, x)
    {
      TreeClosed(s1, c1, x);
    }
    SelfBelow(c1, i);
    DocFrame(s1, c1, s2, c2, i);
  }

  lemma {:induction false} CloneBelow(s: State, c: Cert, s1: State, c1: Cert, c2: Cert, src: int, tgt: int,
                                      name: string, i: int, doc: Doc, x: int)
    requires MoveReady(s, c, s1, c1, src, tgt, name, i, doc) && Placed(c1) && Placed(c2) && c2 == PruneCert(c1, Sub(c1, src))
    requires x in c2.place && x !in c.place
    ensures Below(c2, x, i)
    decreases c2.place[x].depth
  {
    hide TreeInv, TargetHas, DiskInv, DocOf;
    ParentOfNew(s, c, s1, c1, tgt, name, i, x);
    var d := c1.place[x].parent;
    if d !in c.place {
      SubtreeKept(s, c, s1, c1, src, tgt, name, i, doc);
      CloneBelow(s, c, s1, c1, c2, src, tgt, name, i, doc, d);
    }
  }

  /** A node whose parent looks the same and that hangs the same keeps its name. */
  lemma NameStays(s: State, c: Cert, s': State, c': Cert, x: int)
    requires TreeInv(s, c) && TreeInv(s', c') && x in c.place && x in c'.place && x != ROOT && c'.place[x] == c.place[x]
    requires ViewOf(s'.img, c.place[x].parent) == ViewOf(s.img, c.place[x].parent)
    ensures NameOf(s', c', x) == NameOf(s, c, x)
  {
    hide TreeInv, NameOf, ViewOf;
    HangsUnder(s, c, x);
    HangsUnder(s', c', x);
  }

  /** A move is a clone followed by the removal of the source. */
  lemma MoveDone(s: State, c: Cert, s1: State, c1: Cert, s2: State, p: string, q: string, i: int, h: int, x: int)
    requires TreeInv(s, c) && EntryCopied(s, c, s1, c1, p, q, i)
    requires
      var src := ResolvePath(s.img, p);
      src in c.place && TreeInv(s1, c1) && EntryGone(s1, s2, c1, c.place[src].parent, LastPart(p), h, x)
    ensures
      var src := ResolvePath(s.img, p);
      Placed(c1) && EntryMoved(s, c, s2, PruneCert(c1, Sub(c1, src)), p, q, i)
  {
    hide TreeInv, Names, DocOf, ResolvePath, DiskInv, BitsInv, NameOf, Below, CanCopy, ViewOf;
    var src, tgt, name := ResolvePath(s.img, p), ResolvePath(s.img, q), LastPart(p);
    var d := c.place[src].parent;
    var c2 := PruneCert(c1, Sub(c1, src));
    var doc := DocOf(s, c, src);
    CopyMakesReady(s, c, s1, c1, p, q, i);
    ParentFound(s, c, s1, c1, p, q, i);
    SourceGone(s1, s2, c1, d, h, x, src);
    SubtreeKept(s, c, s1, c1, src, tgt, name, i, doc);
    CloneKept(s, c, s1, c1, s2, src, tgt, name, i, doc, h);
    forall j | j in c2.place && j !in c.place ensures Below(c2, j, i) {
      CloneBelow(s, c, s1, c1, c2, src, tgt, name, i, doc, j);
    }
    NewNamed(s, c, s1, c1, tgt, name, i);
    NameStays(s1, c1, s2, c2, i);
  }

  // ---------------------------------------------------------------------
  // The paths after a move
  // ---------------------------------------------------------------------

  /** A slot in use stays as it was, but for the source's. */
  lemma SlotStays(s: State, c: Cert, s': State, c': Cert, p: string, q: string, i: int, d: int, t: int)
    requires TreeInv(s, c) && EntryMoved(s, c, s', c', p, q, i) && d in c.place && d in c'.place
    requires ViewOf(s.img, d).DirView? && 0 <= t < |ViewOf(s.img, d).slots| && ViewOf(s.img, d).slots[t].name != ""
    requires ResolvePath(s.img, p) in c.place
    requires var src := ResolvePath(s.img, p); d != c.place[src].parent || t != c.place[src].slot
    ensures ViewOf(s'.img, d).DirView? && t < |ViewOf(s'.img, d).slots| && ViewOf(s'.img, d).slots[t] == ViewOf(s.img, d).slots[t]
  {
    hide TreeInv, Names, DocOf, ResolvePath, BitsInv, NameOf, CanCopy, Below;
  }

  lemma {:induction false} PathStays(s: State, c: Cert, s': State, c': Cert, p: string, q: string, i: int, x: int)
    requires TreeInv(s, c) && EntryMoved(s, c, s', c', p, q, i) && Placed(c) && Placed(c')
    requires x in c.place && x in c'.place
    ensures PathOf(s', c', x) == PathOf(s, c, x)
    decreases c.place[x].depth
  {
    hide TreeInv, Names, DocOf, ResolvePath, BitsInv, NameOf, CanCopy, HoleAt, EntryIn;
    if x != ROOT {
      var d, src := c.place[x].parent, ResolvePath(s.img, p);
      PathStays(s, c, s', c', p, q, i, d);
      HangsUnder(s, c, x);
      HangsUnder(s, c, src);
      HangsUnder(s', c', x);
      SlotStays(s, c, s', c', p, q, i, d, c.place[x].slot);
    }
  }

  /** After a move the source path leads nowhere and the same name under the target leads to the clone. */
  lemma MovedPaths(s: State, c: Cert, s': State, c': Cert, p: string, q: string, i: int)
    requires TreeInv(s, c) && EntryMoved(s, c, s', c', p, q, i)
    ensures ResolvePath(s'.img, p) == -1
    ensures ResolvePath(s'.img, Join(Parts(q) + [LastPart(p)])) == i
  {
    hide TreeInv, DocOf, BitsInv, NameOf, CanCopy, HoleAt, EntryIn;
    var src, tgt := ResolvePath(s.img, p), ResolvePath(s.img, q);
    SourceNamed(s, c, p, src);
    PathStays(s, c, s', c', p, q, i, tgt);
    SplitInvertsJoin(Parts(q) + [LastPart(p)]);
    ResolvesTo(s', c', Join(Parts(q) + [LastPart(p)]), i);
    if ResolvePath(s'.img, p) != -1 { SourceNowhere(s, c, s', c', p, q, i); }
  }

  lemma UpNotBelow(c: Cert, i: int)
    requires Placed(c) && i in c.place && i != ROOT
    ensures c.place[i].parent in c.place && !Below(c, c.place[i].parent, i)
  {
    var d := c.place[i].parent;
    assert c.place[d].depth < c.place[i].depth;
    if Below(c, d, i) { BelowDepth(c, d, i); }
  }

  /** Once its slot is empty, the source's name is gone from its parent. */
  lemma NameGone(s: State, c: Cert, s': State, c': Cert, d: int, src: int, x: int)
    requires TreeInv(s, c) && TreeInv(s', c') && src in c.place && src != ROOT && c.place[src].parent == d
    requires HoleAt(s, s', d, c.place[src].slot) && x in c'.place && x != ROOT && c'.place[x].parent == d
    ensures NameOf(s', c', x) != NameOf(s, c, src)
  {
    hide TreeInv, NameOf, ViewOf;
    HangsUnder(s', c', x);
    HangsUnder(s, c, src);
  }

  lemma SourceNowhere(s: State, c: Cert, s': State, c': Cert, p: string, q: string, i: int)
    requires TreeInv(s, c) && EntryMoved(s, c, s', c', p, q, i)
    ensures ResolvePath(s'.img, p) == -1
  {
    hide TreeInv, DocOf, BitsInv, NameOf, CanCopy, EntryIn, HoleAt, Below, ResolvePath;
    var src, x := ResolvePath(s.img, p), ResolvePath(s'.img, p);
    var d := c.place[src].parent;
    SourceNamed(s, c, p, src);
    if x != -1 {
      UpNotBelow(c, src);
      ResolvedNames(s', c', p);
      SourceNamed(s', c', p, x);
      PathStays(s, c, s', c', p, q, i, d);
      PathInjective(s', c', c'.place[x].parent, d);
      NameGone(s, c, s', c', d, src, x);
    }
  }

  // ---------------------------------------------------------------------
  // Bundled for the methods
  // ---------------------------------------------------------------------

  /** Where MoveEntry stands once the copy is made: what the deletion needs, and what it will prove. */
  lemma RemovalReady(s: State, c: Cert, s1: State, c1: Cert, p: string, q: string, i: int)
    requires TreeInv(s, c) && EntryCopied(s, c, s1, c1, p, q, i)
    ensures
      var src := ResolvePath(s.img, p);
      && src in c.place && BitsInv(s1) && TreeInv(s1, c1)
      && ResolvePath(s1.img, ParentPath(p)) == c.place[src].parent != -1 && c.place[src].parent in c1.place
      && IsDir(INodeAt(s1.img.inodes, c.place[src].parent))
      && |INodeAt(s1.img.inodes, c.place[src].parent).direct| == DIRECT && LastPart(p) != ""
      && |s1.super.stack| == GROUP
  {
    hide TreeInv, DocOf, ResolvePath;
    ParentFound(s, c, s1, c1, p, q, i);
    DiskBits(s1);
  }

  /** What CopyRecursive asks, once the checks have passed. */
  lemma CopyAdmitted(s: State, c: Cert, base: string, p: string, q: string)
    requires DiskInv(s) && TreeInv(s, c)
    requires CopyGuard(s.img, Normalize(base, p), Normalize(base, q)) == Ran(Copied)
    ensures
      var p', q' := Normalize(base, p), Normalize(base, q);
      var src, tgt := ResolvePath(s.img, p'), ResolvePath(s.img, q');
      && Placed(c) && src in c.place && CanCopy(s, c, src, tgt) && Ends(s, c, p', src, q', tgt)
      && LastPart(p') != ".."
  {
    hide TreeInv, DiskInv, ResolvePath, CanCopy;
    var p', q' := Normalize(base, p), Normalize(base, q);
    EndsNamed(s, c, base, p, base, q);
    GuardAdmits(s, c, p', q');
    SourceNamed(s, c, p', ResolvePath(s.img, p'));
  }

  lemma CloneIsEntry(s: State, c: Cert, s': State, c': Cert, p: string, q: string, i: int)
    requires
      var src, tgt := ResolvePath(s.img, p), ResolvePath(s.img, q);
      && Ends(s, c, p, src, q, tgt) && CanCopy(s, c, src, tgt) && Placed(c) && src in c.place
      && ClonedAt(s, c, s', c', tgt, LastPart(p), i, DocOf(s, c, src))
    ensures EntryCopied(s, c, s', c', p, q, i)
  {
    hide ClonedAt, CanCopy, ResolvePath;
  }
}
