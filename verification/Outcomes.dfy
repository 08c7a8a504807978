/**
 When a deletion and a Chmod take effect, said of the tree: which child has the
 name, of which kind it is, and what the permissions allow.
 */
module Outcomes {
  import opened Disk
  import opened Allocator
  import opened Tree
  import opened INodes
  import opened Directories
  import opened MakeDirectory
  import opened Freeing
  import opened DeleteFile
  import opened Subtree
  import opened DeleteDirectory
  import opened Resolve
  import opened Permissions

  /** A slot with a child's name holds that child. */
  lemma SlotIsChild(s: State, c: Cert, d: int, h: int)
    requires TreeInv(s, c) && d in c.place && IsDir(INodeAt(s.img.inodes, d)) && |INodeAt(s.img.inodes, d).direct| == DIRECT
    requires 0 <= h < SLOTS && RealChild(Slots(s.img.blocks, INodeAt(s.img.inodes, d).direct)[h])
    ensures var e := Slots(s.img.blocks, INodeAt(s.img.inodes, d).direct)[h]; ChildNamed(s, c, d, e.name, e.ino)
  {
    hide TreeInv;
    EntryPlaced(s, c, d, h);
  }

  /** A child is held by a slot of an allocated block, under its name. */
  lemma ChildHasSlot(s: State, c: Cert, d: int, name: string, i: int) returns (h: int)
    requires TreeInv(s, c) && ChildNamed(s, c, d, name, i)
    ensures d in c.place && IsDir(INodeAt(s.img.inodes, d)) && |INodeAt(s.img.inodes, d).direct| == DIRECT && 0 <= h < SLOTS
    ensures
      var direct := INodeAt(s.img.inodes, d).direct;
      Slots(s.img.blocks, direct)[h] == Entry(name, i) && direct[h / PER_BLOCK] != -1 && KidName(name)
  {
    hide TreeInv, NodeOk, DirOk;
    Hangs(s, c, i);
    h := c.place[i].slot;
    var direct := INodeAt(s.img.inodes, d).direct;
    NamedSlot(s.img.blocks, direct, h);
    ReachedDir(s, c, d);
    ChildAt(c, d, INodeAt(s.img.inodes, d).cnt, Slots(s.img.blocks, direct), h);
  }

  lemma DotsNoFiles(s: State, c: Cert, d: int, name: string, h: int)
    requires TreeInv(s, c) && d in c.place && IsDir(INodeAt(s.img.inodes, d)) && |INodeAt(s.img.inodes, d).direct| == DIRECT
    requires 0 <= h < SLOTS && IsMatch(s.img, INodeAt(s.img.inodes, d).direct, name, false, h) && name != ""
    ensures name != "." && name != ".."
  {
    if name == "." || name == ".." { DotsAreDirs(s, c, d, h); }
  }

  /** The search of DelFile and DeleteDir finds the child of the name if it is of the kind looked for, and else nothing. */
  lemma KindFound(s: State, c: Cert, d: int, name: string, dir: bool)
    requires TreeInv(s, c) && d in c.place && IsDir(INodeAt(s.img.inodes, d)) && |INodeAt(s.img.inodes, d).direct| == DIRECT
    requires name != "" && (dir ==> name != "." && name != "..")
    ensures
      var direct := INodeAt(s.img.inodes, d).direct;
      var h := FindKind(s.img, direct, name, dir, 0);
      && (h < SLOTS <==> exists i :: ChildNamed(s, c, d, name, i) && IsDir(INodeAt(s.img.inodes, i)) == dir)
      && (h < SLOTS ==> ChildNamed(s, c, d, name, Slots(s.img.blocks, direct)[h].ino))
  {
    hide TreeInv, ChildNamed, Slots, IsDir;
    var direct := INodeAt(s.img.inodes, d).direct;
    var h := FindKind(s.img, direct, name, dir, 0);
    if h < SLOTS {
      if !dir { DotsNoFiles(s, c, d, name, h); }
      SlotIsChild(s, c, d, h);
    }
    if i :| ChildNamed(s, c, d, name, i) && IsDir(INodeAt(s.img.inodes, i)) == dir {
      var t := ChildHasSlot(s, c, d, name, i);
      assert IsMatch(s.img, direct, name, dir, t);
    }
  }

  /**
   Which answer DelFile gives: a name of 28 characters or more is too long; then the
   permission decides; then whether the directory has a file of that name.
   */
  lemma DelFileAnswers(s: State, c: Cert, who: Session, d: int, name: string)
    requires TreeInv(s, c) && d in c.place && IsDir(INodeAt(s.img.inodes, d))
    requires |INodeAt(s.img.inodes, d).direct| == DIRECT && |s.super.stack| == GROUP && name != ""
    ensures
      var out := DelFile(s, who, d, name).1;
      var may := MayWrite(who, INodeAt(s.img.inodes, d));
      var there := exists i :: ChildNamed(s, c, d, name, i) && !IsDir(INodeAt(s.img.inodes, i));
      && (out == TooLong <==> |name| >= MAX_NAME)
      && (out == Denied <==> |name| < MAX_NAME && !may)
      && (out == Done <==> |name| < MAX_NAME && may && there)
      && (out == NotFound <==> |name| < MAX_NAME && may && !there)
  {
    hide TreeInv, ChildNamed, Slots, IsDir, MayWrite, FreeAll, FreeINode, StoreHole;
    KindFound(s, c, d, name, false);
  }

  /** What DeleteDir of a nonempty name needs: the name, the permission, and a directory of that name. */
  ghost predicate DeletesDir(s: State, c: Cert, who: Session, d: int, name: string) {
    && |name| < MAX_NAME && name != "." && name != ".." && MayDeleteDir(who, INodeAt(s.img.inodes, d))
    && exists i :: ChildNamed(s, c, d, name, i) && IsDir(INodeAt(s.img.inodes, i))
  }

  /** For a name in a tree, being taken is being a child's name, or "." or, below the root, "..". */
  lemma TakenIff(s: State, c: Cert, d: int, name: string)
    requires TreeInv(s, c) && d in c.place && IsDir(INodeAt(s.img.inodes, d)) && |INodeAt(s.img.inodes, d).direct| == DIRECT
    requires name != ""
    ensures
      var taken := (exists i :: ChildNamed(s, c, d, name, i)) || name == "." || (name == ".." && d != ROOT);
      && (Taken(s.img.blocks, INodeAt(s.img.inodes, d).direct, name, -1) <==> taken)
      && (FindChild(s.img, d, name) != -1 <==> taken)
  {
    hide TreeInv, ChildNamed, Slots, IsDir, NodeOk, DirOk;
    var direct := INodeAt(s.img.inodes, d).direct;
    var slots := Slots(s.img.blocks, direct);
    ReachedDir(s, c, d);
    DotSlots(c, d, INodeAt(s.img.inodes, d).cnt, slots);
    if name == "." { NamedSlot(s.img.blocks, direct, 0); assert Bears(s.img.blocks, direct, name, 0); }
    if name == ".." && d != ROOT { NamedSlot(s.img.blocks, direct, 1); assert Bears(s.img.blocks, direct, name, 1); }
    if i :| ChildNamed(s, c, d, name, i) {
      var t := ChildHasSlot(s, c, d, name, i);
      assert Bears(s.img.blocks, direct, name, t);
    }
    if t :| 0 <= t < SLOTS && slots[t].name == name { NameTaken(s, c, d, t); }
    FoundPlaced(s, c, d, name);
  }

  lemma DotSlots(c: Cert, d: int, cnt: nat, slots: seq<Entry>)
    requires d in c.place && |slots| == SLOTS && DirOk(c, d, cnt, slots)
    ensures slots[0].name == "." && (d != ROOT ==> slots[1].name == "..")
  {
  }

  lemma NameTaken(s: State, c: Cert, d: int, t: int)
    requires TreeInv(s, c) && d in c.place && IsDir(INodeAt(s.img.inodes, d)) && |INodeAt(s.img.inodes, d).direct| == DIRECT
    requires 0 <= t < SLOTS && Slots(s.img.blocks, INodeAt(s.img.inodes, d).direct)[t].name != ""
    ensures
      var name := Slots(s.img.blocks, INodeAt(s.img.inodes, d).direct)[t].name;
      (exists i :: ChildNamed(s, c, d, name, i)) || name == "." || (name == ".." && d != ROOT)
  {
    hide TreeInv, ChildNamed;
    var slots := Slots(s.img.blocks, INodeAt(s.img.inodes, d).direct);
    if slots[t].name != "." && (slots[t].name != ".." || d == ROOT) {
      if d == ROOT { RootHasNoUp(s, c, d, t); }
      SlotIsChild(s, c, d, t);
    }
  }

  lemma RootHasNoUp(s: State, c: Cert, d: int, t: int)
    requires TreeInv(s, c) && d in c.place && IsDir(INodeAt(s.img.inodes, d)) && |INodeAt(s.img.inodes, d).direct| == DIRECT
    requires 0 <= t < SLOTS && d == ROOT
    ensures Slots(s.img.blocks, INodeAt(s.img.inodes, d).direct)[t].name != ".."
  {
    hide TreeInv, NodeOk;
    ReachedDir(s, c, d);
    var slots := Slots(s.img.blocks, INodeAt(s.img.inodes, d).direct);
    if slots[t].name == ".." { ChildSlot(c, d, INodeAt(s.img.inodes, d).cnt, slots, t); }
  }

  /** The address findChild returns is an inode's, never -1 itself. */
  lemma FoundPlaced(s: State, c: Cert, d: int, name: string)
    requires TreeInv(s, c) && d in c.place && IsDir(INodeAt(s.img.inodes, d)) && |INodeAt(s.img.inodes, d).direct| == DIRECT
    ensures FindChild(s.img, d, name) != -1 <==> FindName(s.img.blocks, INodeAt(s.img.inodes, d).direct, name, 0) < SLOTS
  {
    hide TreeInv, DirOk, FileOk;
    var direct := INodeAt(s.img.inodes, d).direct;
    var h := FindName(s.img.blocks, direct, name, 0);
    if h < SLOTS { SlotPlaced(s, c, d, h); }
  }

  lemma SlotPlaced(s: State, c: Cert, d: int, h: int)
    requires TreeInv(s, c) && d in c.place && IsDir(INodeAt(s.img.inodes, d)) && |INodeAt(s.img.inodes, d).direct| == DIRECT
    requires 0 <= h < SLOTS && Slots(s.img.blocks, INodeAt(s.img.inodes, d).direct)[h].name != ""
    ensures Slots(s.img.blocks, INodeAt(s.img.inodes, d).direct)[h].ino != -1
  {
    hide TreeInv, KidOk;
    var slots := Slots(s.img.blocks, INodeAt(s.img.inodes, d).direct);
    ReachedDir(s, c, d);
    PlacedAddress(s, c, d);
    if h >= Base(d) {
      ChildAt(c, d, INodeAt(s.img.inodes, d).cnt, slots, h);
      KidAddress(s, c, d, h, slots[h]);
    } else if h == 1 {
      Hangs(s, c, d);
      PlacedAddress(s, c, c.place[d].parent);
    }
  }

  lemma PlacedAddress(s: State, c: Cert, i: int)
    requires TreeInv(s, c) && i in c.place
    ensures i != -1
  {
    hide TreeInv, DirOk, FileOk;
    Reached(s, c, i);
  }

  lemma KidAddress(s: State, c: Cert, d: int, h: int, e: Entry)
    requires TreeInv(s, c) && d in c.place && KidOk(c, d, h, e)
    ensures e.ino != -1
  {
    PlacedAddress(s, c, e.ino);
  }

  // ---------------------------------------------------------------------
  // Chmod
  // ---------------------------------------------------------------------

  /** Chmod of a child acts for its owner and for root and for nobody else; without a child of the name it does nothing. */
  lemma ChmodActs(s: State, c: Cert, who: Session, d: int, name: string, permissions: nat)
    requires TreeInv(s, c) && d in c.place && IsDir(INodeAt(s.img.inodes, d)) && |INodeAt(s.img.inodes, d).direct| == DIRECT
    requires name != ""
    ensures
      var s' := Chmod(s, who, d, name, permissions);
      && (forall i :: ChildNamed(s, c, d, name, i) ==>
            s' == if who.user == INodeAt(s.img.inodes, i).user || who.user == "root" then WriteMode(s, i, permissions) else s)
      && ((forall i :: !ChildNamed(s, c, d, name, i)) ==> s' == s)
  {
    hide TreeInv, ChildNamed, Slots, WithPermissions, KidName;
    var direct := INodeAt(s.img.inodes, d).direct;
    var h := FindSlot(s.img.blocks, direct, name, 0);
    if h < SLOTS && name != "." && name != ".." { SlotIsChild(s, c, d, h); }
    forall i | ChildNamed(s, c, d, name, i)
      ensures h < SLOTS && Slots(s.img.blocks, direct)[h].ino == i && name != "." && name != ".."
    {
      var t := ChildHasSlot(s, c, d, name, i);
      NotDots(name);
      assert Carries(s.img.blocks, direct, name, t);
      SlotIsChild(s, c, d, h);
      OneOfName(s, c, d, name, i, Slots(s.img.blocks, direct)[h].ino);
    }
  }

  lemma NotDots(name: string)
    requires KidName(name)
    ensures name != "." && name != ".." && name != "" && |name| < MAX_NAME
  {
  }

  lemma OneOfName(s: State, c: Cert, d: int, name: string, i: int, j: int)
    requires TreeInv(s, c) && ChildNamed(s, c, d, name, i) && ChildNamed(s, c, d, name, j)
    ensures i == j
  {
    hide TreeInv;
    TreePlaced(s, c);
    NameFinds(s, c, i);
    NameFinds(s, c, j);
  }
}
