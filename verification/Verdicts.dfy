/**
 Which answer CopyEntry and MoveEntry (src/filesystem_adapter.cpp) give, told from
 the state before the call.
 */
module Verdicts {
  import opened Disk
  import opened Allocator
  import opened Tree
  import opened INodes
  import opened Directories
  import opened MakeDirectory
  import opened FileData
  import opened Freeing
  import opened DeleteFile
  import opened Subtree
  import opened DeleteDirectory
  import opened Outline
  import opened Paths
  import opened Resolve
  import opened CopyTree
  import opened MoveTree
  import opened MoveSettling
  import opened Room
  import opened Outcomes
  import opened CopyPlan

  /** What a node says; a node that is not of the tree says nothing. */
  ghost function OutlineOf(s: State, c: Cert, i: int): Doc { if Placed(c) && i in c.place then DocOf(s, c, i) else Folder([]) }

  ghost function CopyVerdict(s: State, c: Cert, who: Session, p: string, q: string): CopyAnswer {
    if CopyGuard(s.img, p, q) != Ran(Copied) then CopyGuard(s.img, p, q)
    else Ran(ResultOf(PlanAt(s, who, ResolvePath(s.img, q), LastPart(p), OutlineOf(s, c, ResolvePath(s.img, p)))))
  }

  /** The source, the target and the name the copy gets are the tree's. */
  ghost predicate CopyPlaces(s: State, c: Cert, p: string, q: string) {
    match c
    case Cert(place, _, _) =>
      var src, tgt := ResolvePath(s.img, p), ResolvePath(s.img, q);
      && Placed(c) && p != "/" && src in place && tgt in place && src != ROOT && IsDir(INodeAt(s.img.inodes, tgt))
      && (IsDir(INodeAt(s.img.inodes, src)) ==> !Below(c, tgt, src))
  }

  /** The target has a slot left and, for a directory, lets the user make one; nothing in it has the name. */
  ghost predicate TargetTakes(s: State, c: Cert, who: Session, p: string, q: string) {
    match INodeAt(s.img.inodes, ResolvePath(s.img, q))
    case n =>
      && |n.direct| == DIRECT
      && (forall i :: !ChildNamed(s, c, ResolvePath(s.img, q), LastPart(p), i))
      && (exists t :: 0 <= t < SLOTS && Slots(s.img.blocks, n.direct)[t].name == "")
      && (IsDir(INodeAt(s.img.inodes, ResolvePath(s.img, p))) ==> MayMakeDir(who, n))
  }

  /** Inodes for the nodes of the source, and blocks for its texts, its entries and the target's new entry. */
  ghost predicate RoomFor(s: State, c: Cert, who: Session, p: string, q: string) {
    match OutlineOf(s, c, ResolvePath(s.img, p))
    case doc =>
      && Nodes(doc) <= s.super.freeInodes
      && SpotOf(s, who, ResolvePath(s.img, q), LastPart(p)).needs + Blocks(doc) <= s.super.freeBlocks
  }

  lemma SomeHole(slots: seq<Entry>)
    ensures FirstHole(slots, 0) < |slots| <==> exists t :: 0 <= t < |slots| && slots[t].name == ""
  {
    var h := FirstHole(slots, 0);
    assert h < |slots| ==> slots[h].name == "";
  }

  /** The name a copy gets is a child's name without a slash. */
  lemma CopyName(s: State, c: Cert, p: string)
    requires TreeInv(s, c) && Placed(c) && p != "/" && Names(s, c, p, ResolvePath(s.img, p))
    ensures KidName(LastPart(p)) && '/' !in LastPart(p)
    ensures var src := ResolvePath(s.img, p); src in c.place && src != ROOT && LastPart(p) == NameOf(s, c, src)
  {
    hide TreeInv, NameOf, KidName, ResolvePath;
    var src := ResolvePath(s.img, p);
    SourceNamed(s, c, p, src);
    NameClean(p);
    ChildKidName(s, c, src);
  }

  lemma NameClean(p: string)
    requires Normal(Parts(p)) && Parts(p) != []
    ensures '/' !in LastPart(p)
  {
    assert Clean(Parts(p)[|Parts(p)| - 1]);
  }

  lemma ChildKidName(s: State, c: Cert, i: int)
    requires TreeInv(s, c) && i in c.place && i != ROOT
    ensures KidName(NameOf(s, c, i))
  {
    hide TreeInv, NameOf, KidName;
    var h := ChildHasSlot(s, c, c.place[i].parent, NameOf(s, c, i), i);
  }

  /** The checks before a copy pass exactly where source and target are the tree's and the target lies outside a source directory. */
  lemma GuardPasses(s: State, c: Cert, base: string, p: string, q: string)
    requires DiskInv(s) && TreeInv(s, c)
    ensures
      var p', q' := Normalize(base, p), Normalize(base, q);
      && (CopyGuard(s.img, p', q') == Ran(Copied) <==> CopyPlaces(s, c, p', q'))
      && (CopyPlaces(s, c, p', q') ==> Names(s, c, p', ResolvePath(s.img, p')) && Names(s, c, q', ResolvePath(s.img, q')))
  {
    hide TreeInv, DiskInv, ResolvePath, Below, IsDescendant, Normalize, Names, CanCopy;
    var p', q' := Normalize(base, p), Normalize(base, q);
    var src, tgt := ResolvePath(s.img, p'), ResolvePath(s.img, q');
    TreePlaced(s, c);
    if src in c.place { PlacedAddress(s, c, src); }
    if tgt in c.place { PlacedAddress(s, c, tgt); }
    if p' != "/" && src != -1 && tgt != -1 {
      EndsNamed(s, c, base, p, base, q);
      SourceNamed(s, c, p', src);
      GuardAdmits(s, c, p', q');
    }
  }

  /**
   A copy is made if and only if source and target are in the tree and the target is a
   directory not inside the source; the target has no child of the name, a free slot and,
   for a directory, the permission; no name in the source has a slash or backslash and
   every text in it is free of NULs; and there is room.
   */
  lemma CopySucceedsIff(s: State, c: Cert, who: Session, base: string, p: string, q: string)
    requires DiskInv(s) && TreeInv(s, c)
    ensures
      var p', q' := Normalize(base, p), Normalize(base, q);
      CopyVerdict(s, c, who, p', q') == Ran(Copied) <==>
        && CopyPlaces(s, c, p', q') && TargetTakes(s, c, who, p', q')
        && '\\' !in LastPart(p') && Plain(OutlineOf(s, c, ResolvePath(s.img, p'))) && RoomFor(s, c, who, p', q')
  {
    hide TreeInv, DiskInv, ResolvePath, Normalize, CopyGuard, PlanCopy, Plain, Nodes, Blocks, DocOf, Names, MayMakeDir, ChildNamed,
      KidName, LastPart, Slots, FindChild, EntryNeeds, FirstHole;
    var p', q' := Normalize(base, p), Normalize(base, q);
    GuardPasses(s, c, base, p, q);
    if CopyPlaces(s, c, p', q') {
      CopySpot(s, c, who, p', q');
      var doc := OutlineOf(s, c, ResolvePath(s.img, p'));
      var spot := SpotOf(s, who, ResolvePath(s.img, q'), LastPart(p'));
      CopiedIff(spot, LastPart(p'), doc, s.super.freeBlocks, s.super.freeInodes);
      NameAnswers(spot, LastPart(p'), doc, s.super.freeBlocks, s.super.freeInodes);
    }
  }

  /** The plan's view of the target, in terms of the tree. */
  lemma CopySpot(s: State, c: Cert, who: Session, p: string, q: string)
    requires TreeInv(s, c) && CopyPlaces(s, c, p, q) && Placed(c) && Names(s, c, p, ResolvePath(s.img, p))
    ensures
      var name := LastPart(p);
      var src, tgt := ResolvePath(s.img, p), ResolvePath(s.img, q);
      var spot := SpotOf(s, who, tgt, name);
      && src in c.place && tgt in c.place && |INodeAt(s.img.inodes, tgt).direct| == DIRECT
      && |name| < MAX_NAME && name != "." && name != ".." && (Refused(name) <==> '\\' in name)
      && (spot.taken <==> exists i :: ChildNamed(s, c, tgt, name, i))
      && (!spot.full <==> exists t :: 0 <= t < SLOTS && Slots(s.img.blocks, INodeAt(s.img.inodes, tgt).direct)[t].name == "")
      && spot.may == MayMakeDir(who, INodeAt(s.img.inodes, tgt))
      && (DocOf(s, c, src).Folder? <==> IsDir(INodeAt(s.img.inodes, src)))
  {
    hide TreeInv, ResolvePath, Names, MayMakeDir, ChildNamed, LastPart, Slots, FindChild, EntryNeeds, NameOf, Below, DocOf;
    var src, tgt := ResolvePath(s.img, p), ResolvePath(s.img, q);
    CopyName(s, c, p);
    ReachedDir(s, c, tgt);
    TakenIff(s, c, tgt, LastPart(p));
    SomeHole(Slots(s.img.blocks, INodeAt(s.img.inodes, tgt).direct));
    DocKind(s, c, src);
  }

  lemma DocKind(s: State, c: Cert, i: int)
    requires TreeInv(s, c) && Placed(c) && i in c.place
    ensures DocOf(s, c, i).Folder? <==> IsDir(INodeAt(s.img.inodes, i))
  {
    hide TreeInv;
    Reached(s, c, i);
  }

  /**
   Which name draws which refusal: Exists is answered exactly where the checks pass and
   the target has a child of the name, which has no backslash; a name is never too long; a
   backslash in the name is refused, and InvalidName is answered for nothing but a
   backslash or slash in a name of the source.
   */
  lemma CopyNameAnswers(s: State, c: Cert, who: Session, base: string, p: string, q: string)
    requires DiskInv(s) && TreeInv(s, c)
    ensures
      var p', q' := Normalize(base, p), Normalize(base, q);
      var verdict := CopyVerdict(s, c, who, p', q');
      && (verdict == Ran(Exists) <==>
            CopyPlaces(s, c, p', q') && '\\' !in LastPart(p')
            && exists i :: ChildNamed(s, c, ResolvePath(s.img, q'), LastPart(p'), i))
      && verdict != Ran(NameTooLong)
      && (CopyPlaces(s, c, p', q') && '\\' in LastPart(p') ==> verdict == Ran(InvalidName))
      && (verdict == Ran(InvalidName) ==>
            CopyPlaces(s, c, p', q') && ('\\' in LastPart(p') || !Plain(OutlineOf(s, c, ResolvePath(s.img, p')))))
  {
    hide TreeInv, DiskInv, ResolvePath, Normalize, PlanCopy, Plain, ShortNames, DocOf, Names, MayMakeDir, ChildNamed,
      KidName, LastPart, Slots, FindChild, EntryNeeds, FirstHole, IsDescendant;
    var p', q' := Normalize(base, p), Normalize(base, q);
    GuardPasses(s, c, base, p, q);
    if CopyPlaces(s, c, p', q') {
      CopySpot(s, c, who, p', q');
      var src := ResolvePath(s.img, p');
      var spot := SpotOf(s, who, ResolvePath(s.img, q'), LastPart(p'));
      TreeShort(s, c, src);
      NameAnswers(spot, LastPart(p'), OutlineOf(s, c, src), s.super.freeBlocks, s.super.freeInodes);
    }
  }

  // ---------------------------------------------------------------------
  // MoveEntry
  // ---------------------------------------------------------------------

  /** The permission of DeleteDir or of DelFile on the directory the source hangs in. */
  ghost predicate MayRemove(s: State, c: Cert, who: Session, src: int) {
    match c
    case Cert(place, _, _) =>
      && src in place
      && (var parent := INodeAt(s.img.inodes, place[src].parent);
          if IsDir(INodeAt(s.img.inodes, src)) then MayDeleteDir(who, parent) else MayWrite(who, parent))
  }

  ghost function MoveVerdict(s: State, c: Cert, who: Session, p: string, q: string): MoveAnswer {
    if p == "/" then MoveRootRefused
    else if p == q || IsDescendant(p, q) then MoveIntoItself
    else if ResolvePath(s.img, p) == -1 then MoveSourceMissing
    else if CopyVerdict(s, c, who, p, q) != Ran(Copied) then NotCopied(CopyVerdict(s, c, who, p, q))
    else if MayRemove(s, c, who, ResolvePath(s.img, p)) then Moved
    else NotRemoved
  }

  /** A move is made if and only if the copy is, the target is not inside the source, and the user may delete in the source's parent. */
  lemma MoveSucceedsIff(s: State, c: Cert, who: Session, base: string, p: string, q: string)
    requires DiskInv(s) && TreeInv(s, c)
    ensures
      var p', q' := Normalize(base, p), Normalize(base, q);
      var src, tgt := ResolvePath(s.img, p'), ResolvePath(s.img, q');
      var copies := CopyVerdict(s, c, who, p', q') == Ran(Copied);
      && (copies ==> Placed(c) && src in c.place && tgt in c.place && !Below(c, tgt, src))
      && (MoveVerdict(s, c, who, p', q') == Moved <==> copies && MayRemove(s, c, who, src))
      && (MoveVerdict(s, c, who, p', q') == NotRemoved <==> copies && !MayRemove(s, c, who, src))
  {
    hide TreeInv, DiskInv, ResolvePath, Normalize, CopyVerdict, Names, Below, IsDescendant, MayDeleteDir, MayWrite;
    var p', q' := Normalize(base, p), Normalize(base, q);
    var src, tgt := ResolvePath(s.img, p'), ResolvePath(s.img, q');
    VerdictGuard(s, c, who, p', q');
    GuardPasses(s, c, base, p, q);
    if CopyPlaces(s, c, p', q') {
      if !IsDir(INodeAt(s.img.inodes, src)) { FileHasNoneBelow(s, c, src, tgt); }
      OutsideSource(s, c, p', src, q', tgt);
      PlacedAddress(s, c, src);
    }
  }

  lemma VerdictGuard(s: State, c: Cert, who: Session, p: string, q: string)
    ensures CopyVerdict(s, c, who, p, q) == Ran(Copied) ==> CopyGuard(s.img, p, q) == Ran(Copied)
  {
    hide PlanAt, CopyGuard, OutlineOf, ResolvePath;
  }

  lemma OutsideSource(s: State, c: Cert, p: string, src: int, q: string, tgt: int)
    requires TreeInv(s, c) && Placed(c) && Names(s, c, p, src) && Names(s, c, q, tgt) && p != "/"
    requires src in c.place && tgt in c.place && IsDir(INodeAt(s.img.inodes, tgt))
    requires IsDir(INodeAt(s.img.inodes, src)) ==> !Below(c, tgt, src)
    requires !IsDir(INodeAt(s.img.inodes, src)) && tgt != src ==> !Below(c, tgt, src)
    ensures !Below(c, tgt, src) && p != q && !IsDescendant(p, q)
  {
    hide TreeInv, Names, IsDescendant, Below;
    GuardExact(s, c, p, src, q, tgt);
    SelfBelow(c, src);
  }

  /** Once the copy is made, the removal is decided by what the state before it says of the source's parent. */
  lemma RemovalDecided(s: State, c: Cert, who: Session, s1: State, c1: Cert, p: string, q: string, i: int)
    requires TreeInv(s, c) && EntryCopied(s, c, s1, c1, p, q, i)
    ensures
      var src := ResolvePath(s.img, p);
      && src in c.place && TreeInv(s1, c1) && |s1.super.stack| == GROUP
      && |INodeAt(s1.img.inodes, c.place[src].parent).direct| == DIRECT
      && (IsDir(INodeAt(s.img.inodes, src)) ==>
            (DeletesDir(s1, c1, who, c.place[src].parent, LastPart(p)) <==> MayRemove(s, c, who, src)))
      && (!IsDir(INodeAt(s.img.inodes, src)) ==>
            (DeleteFile.DelFile(s1, who, c.place[src].parent, LastPart(p)).1 == Done <==> MayRemove(s, c, who, src)))
  {
    hide TreeInv, DocOf, ResolvePath, EntryCopied, MayDeleteDir, MayWrite, KidName, NameOf, DeleteFile.DelFile, IsDir, BitsInv;
    RemovalReady(s, c, s1, c1, p, q, i);
    var src := ResolvePath(s.img, p);
    var d, name := c.place[src].parent, LastPart(p);
    SourceStill(s, c, s1, c1, p, q, i);
    var h := ChildHasSlot(s1, c1, d, name, src);
    NotDots(name);
    DelFileAnswers(s1, c1, who, d, name);
    SameAttrDeletes(INodeAt(s.img.inodes, d), INodeAt(s1.img.inodes, d), who);
    forall j | ChildNamed(s1, c1, d, name, j) ensures j == src { OneOfName(s1, c1, d, name, src, j); }
  }

  /** The source hangs where it hung, of the same kind, in a directory with the same owner, group and mode. */
  lemma SourceStill(s: State, c: Cert, s1: State, c1: Cert, p: string, q: string, i: int)
    requires TreeInv(s, c) && EntryCopied(s, c, s1, c1, p, q, i) && TreeInv(s1, c1) && ResolvePath(s.img, p) in c.place
    ensures
      var src := ResolvePath(s.img, p);
      && ChildNamed(s1, c1, c.place[src].parent, LastPart(p), src)
      && IsDir(INodeAt(s1.img.inodes, src)) == IsDir(INodeAt(s.img.inodes, src))
      && AttrOf(INodeAt(s1.img.inodes, c.place[src].parent)) == AttrOf(INodeAt(s.img.inodes, c.place[src].parent))
  {
    hide TreeInv, DocOf, ResolvePath, NameOf, ViewOf, DiskInv, Names, Below;
    var src := ResolvePath(s.img, p);
    ParentFound(s, c, s1, c1, p, q, i);
    SourceNotTarget(s, c, p, q, i, s1, c1);
    SameKind(s, c, s1, c1, src);
    HangsUnder(s, c, src);
    ViewAttr(s, s1, c.place[src].parent);
  }

  lemma SourceNotTarget(s: State, c: Cert, p: string, q: string, i: int, s1: State, c1: Cert)
    requires TreeInv(s, c) && EntryCopied(s, c, s1, c1, p, q, i) && ResolvePath(s.img, p) in c.place
    ensures ResolvePath(s.img, p) != ResolvePath(s.img, q)
  {
    hide TreeInv, DocOf, ResolvePath, Names, DiskInv;
    SelfBelow(c, ResolvePath(s.img, p));
  }

  lemma ViewAttr(s: State, s1: State, d: int)
    requires ViewOf(s.img, d).DirView? && ViewOf(s1.img, d) == ViewOf(s.img, d)
    ensures AttrOf(INodeAt(s1.img.inodes, d)) == AttrOf(INodeAt(s.img.inodes, d))
  {
  }

  lemma SameAttrDeletes(m: INode, n: INode, who: Session)
    requires AttrOf(m) == AttrOf(n)
    ensures MayDeleteDir(who, m) == MayDeleteDir(who, n) && MayWrite(who, m) == MayWrite(who, n)
  {
  }
}
