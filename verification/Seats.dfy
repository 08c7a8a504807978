/**
 The current directory: what keeps a session's place in the tree, and the one
 operation that can lose it (src/filesystem_adapter.cpp, src/filesystem_path.cpp).
 */
module Seats {
  import opened Disk
  import opened Allocator
  import opened Tree
  import opened INodes
  import opened Directories
  import opened MakeDirectory
  import opened Freeing
  import opened DeleteFile
  import opened Subtree
  import opened DeleteDirectory
  import opened Outline
  import opened Paths
  import opened Resolve
  import opened Navigation
  import opened CopyTree
  import opened MoveTree
  import opened Runs
  import opened Permissions

  /** The user, cur_dir_addr and cur_dir_name. */
  datatype Seat = Seat(who: Session, dir: int, name: string)

  /** The user may enter the directory and every directory above it. */
  ghost predicate Admitted(s: State, c: Cert, who: Session, d: int)
    requires Placed(c) && d in c.place
  {
    MayEnter(who, INodeAt(s.img.inodes, d)) && MayClimb(s, c, who, d)
  }

  /**
   The session stands in a directory of the tree, its name string is the
   directory's path, the user was admitted all the way down, and the root is as
   open as Format made it.
   */
  ghost predicate Here(s: State, c: Cert, seat: Seat) {
    match c
    case Cert(place, _, _) =>
      && Placed(c) && At(s, c, seat.dir, seat.name) && seat.dir in place && Admitted(s, c, seat.who, seat.dir)
      && INodeAt(s.img.inodes, ROOT).mode == DIR_MODE
  }

  // ---------------------------------------------------------------------
  // Looking up from a directory
  // ---------------------------------------------------------------------

  /** Node `x` hangs where it hung, under its name, with its type, permissions and owner. */
  ghost predicate Stays(s: State, c: Cert, s': State, c': Cert, x: int) {
    match c'
    case Cert(place, _, _) =>
      && x in c.place && x in place && place[x] == c.place[x]
      && AttrOf(INodeAt(s'.img.inodes, x)) == AttrOf(INodeAt(s.img.inodes, x))
      && (x != ROOT ==> NameOf(s', c', x) == NameOf(s, c, x))
  }

  /** `d` and everything above it stays. */
  ghost predicate UpStays(s: State, c: Cert, s': State, c': Cert, d: int) {
    match c'
    case Cert(_, _, _) =>
      && Placed(c) && Placed(c') && d in c.place
      && forall x :: x in c.place && Below(c, d, x) ==> Stays(s, c, s', c', x)
  }

  lemma UpStaysAbove(s: State, c: Cert, s': State, c': Cert, d: int)
    requires UpStays(s, c, s', c', d) && d != ROOT
    ensures c.place[d].parent in c.place && UpStays(s, c, s', c', c.place[d].parent)
  {
    hide Stays;
  }

  lemma UpStaysHere(s: State, c: Cert, s': State, c': Cert, d: int)
    requires UpStays(s, c, s', c', d)
    ensures Stays(s, c, s', c', d)
  {
    SelfBelow(c, d);
  }

  lemma {:induction false} UpPath(s: State, c: Cert, s': State, c': Cert, d: int)
    requires UpStays(s, c, s', c', d)
    ensures Placed(c) && Placed(c') && d in c.place && d in c'.place && PathOf(s', c', d) == PathOf(s, c, d)
    decreases if d in c.place then c.place[d].depth else 0
  {
    hide NameOf, UpStays;
    UpStaysIs(s, c, s', c', d);
    UpStaysHere(s, c, s', c', d);
    if d != ROOT {
      UpStaysAbove(s, c, s', c', d);
      UpPath(s, c, s', c', c.place[d].parent);
    }
  }

  lemma UpStaysIs(s: State, c: Cert, s': State, c': Cert, d: int)
    requires UpStays(s, c, s', c', d)
    ensures Placed(c) && Placed(c') && d in c.place
  {
  }

  lemma {:induction false} UpClimb(s: State, c: Cert, s': State, c': Cert, who: Session, d: int)
    requires UpStays(s, c, s', c', d)
    ensures Placed(c) && Placed(c') && d in c.place && d in c'.place
    ensures MayClimb(s', c', who, d) == MayClimb(s, c, who, d)
    decreases if d in c.place then c.place[d].depth else 0
  {
    hide NameOf, UpStays, MayEnter;
    UpStaysIs(s, c, s', c', d);
    UpStaysHere(s, c, s', c', d);
    if d != ROOT {
      UpStaysAbove(s, c, s', c', d);
      UpStaysHere(s, c, s', c', c.place[d].parent);
      SameAttrEnter(INodeAt(s.img.inodes, c.place[d].parent), INodeAt(s'.img.inodes, c.place[d].parent), who);
      UpClimb(s, c, s', c', who, c.place[d].parent);
    }
  }

  lemma SameAttrEnter(m: INode, n: INode, who: Session)
    requires AttrOf(m) == AttrOf(n)
    ensures MayEnter(who, m) == MayEnter(who, n) && IsDir(m) == IsDir(n)
  {
  }

  lemma {:induction false} BelowRoot(c: Cert, d: int)
    requires Placed(c) && d in c.place
    ensures Below(c, d, ROOT)
    decreases c.place[d].depth
  {
    if d != ROOT { BelowRoot(c, c.place[d].parent); }
  }

  /** A session whose directory and all above it stay keeps its place. */
  lemma SeatStays(s: State, c: Cert, s': State, c': Cert, seat: Seat)
    requires Here(s, c, seat) && UpStays(s, c, s', c', seat.dir)
    ensures Here(s', c', seat)
  {
    hide NameOf, MayEnter, UpStays, PathOf, MayClimb, Stays, IsDir;
    var d := seat.dir;
    UpStaysIs(s, c, s', c', d);
    UpPath(s, c, s', c', d);
    UpClimb(s, c, s', c', seat.who, d);
    UpStaysHere(s, c, s', c', d);
    StaysAttr(s, c, s', c', d);
    SameAttrEnter(INodeAt(s.img.inodes, d), INodeAt(s'.img.inodes, d), seat.who);
    RootStays(s, c, s', c', d);
  }

  lemma StaysAttr(s: State, c: Cert, s': State, c': Cert, x: int)
    requires Stays(s, c, s', c', x)
    ensures x in c'.place && AttrOf(INodeAt(s'.img.inodes, x)) == AttrOf(INodeAt(s.img.inodes, x))
  {
  }

  lemma RootStays(s: State, c: Cert, s': State, c': Cert, d: int)
    requires UpStays(s, c, s', c', d)
    ensures INodeAt(s'.img.inodes, ROOT).mode == INodeAt(s.img.inodes, ROOT).mode
  {
    BelowRoot(c, d);
    assert Stays(s, c, s', c', ROOT);
  }

  // ---------------------------------------------------------------------
  // Views that leave the way up alone
  // ---------------------------------------------------------------------

  /** Directory `x` has its attributes, and its slots that hold `d` or a directory above `d`. */
  ghost predicate Face(s: State, c: Cert, s': State, d: int, x: int)
    requires Placed(c) && d in c.place
  {
    match (ViewOf(s.img, x), ViewOf(s'.img, x))
    case (DirView(attr, slots), DirView(attr', slots')) =>
      && attr' == attr && |slots'| == |slots|
      && forall t :: 0 <= t < |slots| && slots[t].name != "" && slots[t].ino in c.place && Below(c, d, slots[t].ino) ==>
           slots'[t] == slots[t]
    case _ => false
  }

  /** What is above a directory is a directory. */
  lemma AboveShown(s: State, c: Cert, d: int, x: int)
    requires TreeInv(s, c) && Placed(c) && d in c.place && IsDir(INodeAt(s.img.inodes, d)) && x in c.place && Below(c, d, x)
    ensures ViewOf(s.img, x).DirView? && |ViewOf(s.img, x).slots| == SLOTS
  {
    hide TreeInv, NameOf;
    if x == d {
      ReachedDir(s, c, d);
    } else {
      var k := BelowChild(c, d, x);
      HangsUnder(s, c, k);
    }
  }

  lemma SameFace(s: State, c: Cert, s': State, d: int, x: int)
    requires TreeInv(s, c) && Placed(c) && d in c.place && IsDir(INodeAt(s.img.inodes, d)) && x in c.place && Below(c, d, x)
    requires ViewOf(s'.img, x) == ViewOf(s.img, x)
    ensures Face(s, c, s', d, x)
  {
    hide TreeInv, ViewOf;
    AboveShown(s, c, d, x);
  }

  /** Where the faces are kept, everything stays. */
  lemma FacesStay(s: State, c: Cert, s': State, c': Cert, d: int)
    requires TreeInv(s, c) && TreeInv(s', c') && Placed(c) && Placed(c') && d in c.place
    requires forall x :: x in c.place && Below(c, d, x) ==> x in c'.place && c'.place[x] == c.place[x] && Face(s, c, s', d, x)
    ensures UpStays(s, c, s', c', d)
  {
    hide TreeInv, NameOf, ViewOf;
    forall x | x in c.place && Below(c, d, x) ensures Stays(s, c, s', c', x) {
      assert Face(s, c, s', d, x);
      ShownAttr(s, x);
      ShownAttr(s', x);
      if x != ROOT {
        var p := c.place[x].parent;
        HangsUnder(s, c, x);
        HangsUnder(s', c', x);
        ParentBelow(c, d, x);
        assert Face(s, c, s', d, p);
      }
    }
  }

  lemma ParentBelow(c: Cert, d: int, x: int)
    requires Placed(c) && d in c.place && x in c.place && Below(c, d, x) && x != ROOT
    ensures c.place[x].parent in c.place && Below(c, d, c.place[x].parent)
  {
    var p := c.place[x].parent;
    SelfBelow(c, p);
    assert Below(c, x, p);
    BelowTrans(c, d, x, p);
  }

  lemma ShownAttr(s: State, x: int)
    requires ViewOf(s.img, x).DirView?
    ensures ViewOf(s.img, x).attr == AttrOf(INodeAt(s.img.inodes, x))
  {
  }

  // ---------------------------------------------------------------------
  // The operations
  // ---------------------------------------------------------------------

  /** Nodes that look the same stay. */
  lemma ViewsStay(s: State, c: Cert, s': State, c': Cert, d: int)
    requires TreeInv(s, c) && TreeInv(s', c') && d in c.place && IsDir(INodeAt(s.img.inodes, d)) && Placed(c)
    requires forall x :: x in c.place && Below(c, d, x) ==>
      x in c'.place && c'.place[x] == c.place[x] && ViewOf(s'.img, x) == ViewOf(s.img, x)
    ensures UpStays(s, c, s', c', d)
  {
    hide TreeInv, ViewOf, Face, UpStays;
    TreePlaced(s', c');
    forall x | x in c.place && Below(c, d, x) ensures Face(s, c, s', d, x) { SameFace(s, c, s', d, x); }
    FacesStay(s, c, s', c', d);
  }

  /** One more entry in some directory. */
  lemma AddedStays(s: State, c: Cert, s': State, c': Cert, top: int, e: Entry, d: int)
    requires TreeInv(s, c) && TreeInv(s', c') && d in c.place && IsDir(INodeAt(s.img.inodes, d)) && Placed(c)
    requires Added(s, s', c, top, e) && forall x :: x in c.place ==> x in c'.place && c'.place[x] == c.place[x]
    ensures UpStays(s, c, s', c', d)
  {
    hide TreeInv, ViewOf, UpStays;
    TreePlaced(s', c');
    forall x | x in c.place && Below(c, d, x) ensures Face(s, c, s', d, x) {
      if x != top { SameFace(s, c, s', d, x); }
    }
    FacesStay(s, c, s', c', d);
  }

  /** A copy into some directory, or part of one. */
  lemma GrownStays(s: State, c: Cert, s': State, c': Cert, tgt: int, name: string, d: int)
    requires TreeInv(s, c) && d in c.place && IsDir(INodeAt(s.img.inodes, d)) && Placed(c)
    requires GrownAt(s, c, s', c', tgt) && OneMore(s, s', tgt, name)
    ensures UpStays(s, c, s', c', d)
  {
    hide TreeInv, ViewOf, UpStays, DiskInv;
    forall x | x in c.place && Below(c, d, x) ensures Face(s, c, s', d, x) {
      if x != tgt { SameFace(s, c, s', d, x); }
    }
    FacesStay(s, c, s', c', d);
  }

  /** A subtree that `d` is not part of is removed. */
  lemma RemovedStays(s: State, c: Cert, s': State, c': Cert, top: int, h: int, i: int, d: int)
    requires TreeInv(s, c) && TreeInv(s', c') && d in c.place && IsDir(INodeAt(s.img.inodes, d)) && Placed(c)
    requires i in c.place && i != ROOT && c.place[i].parent == top && c.place[i].slot == h && !Below(c, d, i)
    requires Removed(s, s', c, top, h, Sub(c, i)) && c' == PruneCert(c, Sub(c, i))
    ensures UpStays(s, c, s', c', d)
  {
    hide TreeInv, ViewOf, UpStays, NameOf;
    TreePlaced(s', c');
    HangsUnder(s, c, i);
    forall x | x in c.place && Below(c, d, x) ensures x in c'.place && c'.place[x] == c.place[x] && Face(s, c, s', d, x) {
      if Below(c, x, i) { BelowTrans(c, d, x, i); }
      if x != top { SameFace(s, c, s', d, x); } else { HoleFace(s, c, s', top, h, i, d); }
    }
    FacesStay(s, c, s', c', d);
  }

  lemma HoleFace(s: State, c: Cert, s': State, top: int, h: int, i: int, d: int)
    requires Placed(c) && d in c.place && i in c.place && !Below(c, d, i) && HoleAt(s, s', top, h)
    requires ViewOf(s.img, top).DirView? && 0 <= h < |ViewOf(s.img, top).slots| && ViewOf(s.img, top).slots[h].ino == i
    ensures Face(s, c, s', d, top)
  {
    hide ViewOf, Below;
  }

  /** The permission bits of a node that `d` is not below are replaced. */
  lemma ModeStays(s: State, c: Cert, s': State, top: int, name: string, i: int, permissions: nat, d: int)
    requires TreeInv(s, c) && TreeInv(s', c) && d in c.place && IsDir(INodeAt(s.img.inodes, d)) && Placed(c)
    requires ModeChanged(s, s', c, top, name, i, permissions) && !Below(c, d, i)
    ensures UpStays(s, c, s', c, d)
  {
    hide TreeInv, ViewOf, UpStays, Permitted;
    ViewsStay(s, c, s', c, d);
  }

  /** The source of a move, which `d` is not part of, is gone and its clone there. */
  lemma MovedStays(s: State, c: Cert, s': State, c': Cert, p: string, q: string, i: int, d: int)
    requires TreeInv(s, c) && EntryMoved(s, c, s', c', p, q, i) && d in c.place && IsDir(INodeAt(s.img.inodes, d)) && Placed(c)
    requires ResolvePath(s.img, p) in c.place && !Below(c, d, ResolvePath(s.img, p))
    ensures UpStays(s, c, s', c', d)
  {
    hide TreeInv, ViewOf, UpStays, NameOf, DocOf, ResolvePath, BitsInv, CanCopy, Names;
    var src, tgt := ResolvePath(s.img, p), ResolvePath(s.img, q);
    SourceBelowRoot(s, c, p, src);
    HangsUnder(s, c, src);
    forall x | x in c.place && Below(c, d, x) ensures x in c'.place && c'.place[x] == c.place[x] && Face(s, c, s', d, x) {
      if Below(c, x, src) { BelowTrans(c, d, x, src); }
      if x == tgt {
        EntryFace(s, c, s', tgt, Entry(LastPart(p), i), d);
      } else if x == c.place[src].parent {
        HoleFace(s, c, s', x, c.place[src].slot, src, d);
      } else {
        SameFace(s, c, s', d, x);
      }
    }
    FacesStay(s, c, s', c', d);
  }

  lemma SourceBelowRoot(s: State, c: Cert, p: string, src: int)
    requires Placed(c) && Names(s, c, p, src) && p != "/"
    ensures src != ROOT
  {
    RootNamed(s, c, p, src);
  }

  lemma EntryFace(s: State, c: Cert, s': State, top: int, e: Entry, d: int)
    requires Placed(c) && d in c.place && EntryIn(s, s', top, e)
    ensures Face(s, c, s', d, top)
  {
    hide ViewOf, Below;
  }

  // ---------------------------------------------------------------------
  // ChangeDirectory
  // ---------------------------------------------------------------------

  /** The root's own permissions let everyone in. */
  lemma RootOpen(who: Session, n: INode)
    requires n.mode == DIR_MODE
    ensures MayEnter(who, n)
  {
    assert Pow2(0) == 1 && Pow2(1) == 2 && Pow2(2) == 4 && Pow2(3) == 8 && Pow2(4) == 16;
    assert Pow2(5) == 32 && Pow2(6) == 64 && Pow2(7) == 128 && Pow2(8) == 256;
  }

  /** One component: the session is admitted where it goes, up or down. */
  lemma EnterHere(s: State, c: Cert, seat: Seat, part: string)
    requires TreeInv(s, c) && Here(s, c, seat) && Clean(part) && part != "."
    ensures
      match Enter(s.img, seat.who, seat.dir, seat.name, part)
      case Entered(k, name) => Here(s, c, Seat(seat.who, k, name))
      case _ => true
  {
    hide TreeInv, Enter, MayEnter, Names, IsDir;
    EnterFollows(s, c, seat.who, seat.dir, seat.name, part);
    EnterRenames(s.img, seat.who, seat.dir, seat.name, part);
    match Enter(s.img, seat.who, seat.dir, seat.name, part)
    case Entered(k, name) => EnterIff(s, c, seat.who, seat.dir, seat.name, part, k);
    case _ =>
  }

  lemma {:induction false} CdPartsHere(s: State, c: Cert, seat: Seat, parts: seq<string>)
    requires TreeInv(s, c) && Here(s, c, seat) && AllClean(parts)
    ensures
      var w := CdParts(s.img, seat.who, seat.dir, seat.name, parts);
      w.answer != Stuck && Here(s, c, Seat(seat.who, w.dir, w.name))
    decreases |parts|
  {
    hide TreeInv, Here, Enter;
    if parts != [] {
      if parts[0] == "." {
        CdPartsHere(s, c, seat, parts[1..]);
      } else {
        EnterHere(s, c, seat, parts[0]);
        match Enter(s.img, seat.who, seat.dir, seat.name, parts[0])
        case Entered(k, name) => CdPartsHere(s, c, Seat(seat.who, k, name), parts[1..]);
        case _ =>
      }
    }
  }

  /** The climb of an absolute `cd` arrives at the root. */
  lemma ClimbArrives(s: State, c: Cert, seat: Seat)
    requires TreeInv(s, c) && Here(s, c, seat)
    ensures Climb(s.img, seat.who, seat.dir, seat.name) == Where(Arrived, ROOT, "/")
    ensures Here(s, c, Seat(seat.who, ROOT, "/"))
  {
    hide TreeInv, Climb, Enter, Names, MayEnter;
    ClimbIff(s, c, seat.who, seat.dir, seat.name);
    RootOpen(seat.who, INodeAt(s.img.inodes, ROOT));
  }

  /** Whatever the path, `cd` ends, and the session stands where it ended. */
  lemma CdHere(s: State, c: Cert, seat: Seat, path: string)
    requires TreeInv(s, c) && Here(s, c, seat)
    ensures
      var w := Cd(s.img, seat.who, seat.dir, seat.name, path);
      w.answer != Stuck && Here(s, c, Seat(seat.who, w.dir, w.name))
  {
    hide TreeInv, Here, CdParts, Climb;
    PartsClean(path, "");
    if path != "" && path[0] == '/' {
      ClimbArrives(s, c, seat);
      CdPartsHere(s, c, Seat(seat.who, ROOT, "/"), Parts(path));
    } else {
      CdPartsHere(s, c, seat, Parts(path));
    }
  }

  // ---------------------------------------------------------------------
  // MoveEntry
  // ---------------------------------------------------------------------

  /** The moved entry is the current directory or one above it, as the path strings say it. */
  predicate MovesSeat(p: string, seat: Seat) { p == seat.name || IsDescendant(p, seat.name) }

  lemma MovesSeatIs(s: State, c: Cert, s': State, c': Cert, p: string, q: string, i: int, seat: Seat)
    requires TreeInv(s, c) && EntryMoved(s, c, s', c', p, q, i) && Placed(c) && At(s, c, seat.dir, seat.name)
    ensures seat.dir in c.place && ResolvePath(s.img, p) in c.place
    ensures MovesSeat(p, seat) <==> Below(c, seat.dir, ResolvePath(s.img, p))
  {
    hide TreeInv, DocOf, ResolvePath, BitsInv, CanCopy, HoleAt, EntryIn, NameOf, IsDescendant, Below;
    var src := ResolvePath(s.img, p);
    GuardExact(s, c, p, src, seat.name, seat.dir);
    SelfBelow(c, src);
  }

  /**
   A move leaves the current directory in the tree if and only if what moved was
   neither it nor a directory above it. Then the session keeps its place;
   otherwise the inode the session stands on is blank.
   */
  lemma MoveSeatIff(s: State, c: Cert, s': State, c': Cert, p: string, q: string, i: int, seat: Seat)
    requires TreeInv(s, c) && EntryMoved(s, c, s', c', p, q, i) && Here(s, c, seat)
    ensures (exists c'' :: TreeInv(s', c'') && seat.dir in c''.place) <==> !MovesSeat(p, seat)
    ensures !MovesSeat(p, seat) ==> Here(s', c', seat)
    ensures MovesSeat(p, seat) ==> INodeAt(s'.img.inodes, seat.dir) == BLANK && seat.name != "/"
  {
    hide TreeInv, EntryMoved, Admitted, Names, MovesSeat, ResolvePath, IsDir;
    MovesSeatIs(s, c, s', c', p, q, i, seat);
    MovedPlaces(s, c, s', c', p, q, i, seat.dir);
    if MovesSeat(p, seat) {
      RootNamed(s, c, seat.name, seat.dir);
      forall c'' | TreeInv(s', c'') ensures seat.dir !in c''.place { TreeUnique(s', c', c''); }
    } else {
      MovedStays(s, c, s', c', p, q, i, seat.dir);
      SeatStays(s, c, s', c', seat);
    }
  }

  lemma MovedPlaces(s: State, c: Cert, s': State, c': Cert, p: string, q: string, i: int, d: int)
    requires TreeInv(s, c) && EntryMoved(s, c, s', c', p, q, i) && Placed(c) && d in c.place && ResolvePath(s.img, p) in c.place
    ensures TreeInv(s', c') && (d in c'.place <==> !Below(c, d, ResolvePath(s.img, p)))
    ensures Below(c, d, ResolvePath(s.img, p)) ==> INodeAt(s'.img.inodes, d) == BLANK && d != ROOT
  {
    hide TreeInv, DocOf, ResolvePath, BitsInv, CanCopy, HoleAt, EntryIn, NameOf;
    SourceBelowRoot(s, c, p, ResolvePath(s.img, p));
  }

  /** On a blank inode every pointer is 0: each of the ten directory blocks reads what lies at address 0. */
  lemma BlankSlots(img: Image, d: int, t: int)
    requires INodeAt(img.inodes, d) == BLANK && 0 <= t < SLOTS
    ensures Slots(img.blocks, BLANK.direct)[t] == EntriesAt(img.blocks, 0)[t % PER_BLOCK]
  {
    assert 0 <= t / PER_BLOCK < DIRECT;
  }

  /** MakeDir from there finds a name taken exactly if what lies at address 0 reads as an entry with the name. */
  lemma LostSeatTaken(img: Image, d: int, name: string)
    requires INodeAt(img.inodes, d) == BLANK
    ensures Taken(img.blocks, BLANK.direct, name, -1)
      <==> exists j :: 0 <= j < PER_BLOCK && EntriesAt(img.blocks, 0)[j].name == name
  {
    hide EntriesAt;
    if t :| 0 <= t < SLOTS && t != -1 && BLANK.direct[t / PER_BLOCK] != -1 && Slots(img.blocks, BLANK.direct)[t].name == name {
      BlankSlots(img, d, t);
    }
    if j :| 0 <= j < PER_BLOCK && EntriesAt(img.blocks, 0)[j].name == name {
      BlankSlots(img, d, j);
      assert Slots(img.blocks, BLANK.direct)[j].name == name;
    }
  }

  /**
   The session left on a blank inode: unless what lies at address 0 reads as an
   entry "..", no absolute `cd` ever arrives, for any user.
   */
  lemma LostSeatStuck(img: Image, seat: Seat, path: string)
    requires INodeAt(img.inodes, seat.dir) == BLANK && seat.name != "/" && path != "" && path[0] == '/'
    requires forall j :: 0 <= j < PER_BLOCK ==> EntriesAt(img.blocks, 0)[j].name != ".."
    ensures Cd(img, seat.who, seat.dir, seat.name, path) == Where(Stuck, seat.dir, seat.name)
  {
    hide EntriesAt, CdParts;
    forall t | 0 <= t < SLOTS ensures !IsMatch(img, BLANK.direct, "..", true, t) { BlankSlots(img, seat.dir, t); }
    NothingFound(img, BLANK.direct, "..");
  }

  lemma NothingFound(img: Image, direct: seq<int>, name: string)
    requires |direct| == DIRECT && forall t :: 0 <= t < SLOTS ==> !IsMatch(img, direct, name, true, t)
    ensures FindKind(img, direct, name, true, 0) == SLOTS
  {
    hide IsMatch;
  }
}
