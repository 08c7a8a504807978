/**
 A session from login on: the user, the current directory and its name string
 (src/filesystem_adapter.cpp, src/filesystem_session.cpp), through any number of
 commands.
 */
module Sessions {
  import opened Disk
  import opened Allocator
  import opened Tree
  import opened INodes
  import opened Directories
  import opened MakeDirectory
  import opened FileData
  import opened CreateFile
  import opened Freeing
  import opened DeleteFile
  import opened Subtree
  import opened DeleteDirectory
  import opened Outline
  import opened Paths
  import opened Resolve
  import opened Navigation
  import opened CopyTree
  import opened MoveTree
  import opened MoveSettling
  import opened Permissions
  import opened Repair
  import opened SteadyState
  import opened Runs
  import opened SmallDirs
  import opened Seats

  datatype Deed =
    | Login(who: Session)
    | GoTo(path: string)
    | Act(a: Action)
    | ChangeMode(name: string, permissions: nat)
    | Copy(p: string, q: string)
    | Move(p: string, q: string)

  /** DelFile and DeleteDir are of entries of the current directory; an upload may create anywhere. */
  predicate ActsIn(a: Action, d: int) {
    match a
    case DelFileAct(top, _) => top == d
    case DeleteDirAct(top, _) => top == d
    case _ => true
  }

  /** CopyEntry on normalised paths, known by what it is proved to do: refused, failed part-way or done. */
  ghost predicate CopyLeaves(s: State, c: Cert, p: string, q: string, s': State) {
    s' == s ||
    ((Steady(s) ==> Steady(s'))
     && exists c' :: GrownAt(s, c, s', c', ResolvePath(s.img, q)) && OneMore(s, s', ResolvePath(s.img, q), LastPart(p)))
  }

  /** A completed MoveEntry, known likewise, whose frees left the count within its group. */
  ghost predicate MoveLeaves(s: State, c: Cert, p: string, q: string, s': State) {
    && (Steady(s) ==> Steady(s'))
    && exists c', i :: EntryMoved(s, c, s', c', p, q, i) && MoveSettled(s, c, s', c', ResolvePath(s.img, p)) && FreesInGroup(s, c, p, s')
  }

  ghost predicate FreesInGroup(s: State, c: Cert, p: string, s': State) {
    match c
    case Cert(_, _, _) =>
      Placed(c) &&
      var k := |MoveFrees(s, c, ResolvePath(s.img, p))|;
      k <= s'.super.freeBlocks && NoSpill(s'.super.freeBlocks - k, k)
  }

  /**
   What one command does to the state and the session. A move of the current
   directory, or of one above it, is left out, and so are a Chmod that finds a free
   slot or makes a file a directory, and a `cd` that overruns the name buffer.
   */
  ghost predicate Does(s: State, c: Cert, seat: Seat, deed: Deed, s': State, seat': Seat) {
    match deed
    case Login(who) => s' == s && seat' == Seat(who, ROOT, "/")
    case GoTo(path) =>
      var w := Cd(s.img, seat.who, seat.dir, seat.name, path);
      s' == s && w.answer != Overrun && seat' == Seat(seat.who, w.dir, w.name)
    case Act(a) =>
      && seat' == seat && ActsIn(a, seat.dir) && |s.super.stack| == GROUP
      && Fits(seat.who, s, c, a) && Did(seat.who, s, c, a, s') && (s' == s || StaysInGroup(s, c, a))
    case ChangeMode(name, permissions) =>
      var direct := INodeAt(s.img.inodes, seat.dir).direct;
      && seat' == seat && |direct| == DIRECT && s' == Chmod(s, seat.who, seat.dir, name, permissions)
      && (s' != s ==> name != "" && forall i :: Finds(s, seat.dir, name, i) ==> !TurnsDir(INodeAt(s.img.inodes, i), permissions))
    case Copy(p, q) => seat' == seat && CopyLeaves(s, c, Normalize(seat.name, p), Normalize(seat.name, q), s')
    case Move(p, q) =>
      var p', q' := Normalize(seat.name, p), Normalize(seat.name, q);
      && seat' == seat
      && (CopyLeaves(s, c, p', q', s') || (MoveLeaves(s, c, p', q', s') && !MovesSeat(p', seat)))
  }

  /** From `s` and `seat` the commands lead to `s'` and `seat'`. */
  ghost predicate SessionRun(s: State, seat: Seat, deeds: seq<Deed>, s': State, seat': Seat)
    decreases |deeds|
  {
    if deeds == [] then s' == s && seat' == seat
    else exists c, s1, seat1 ::
      TreeInv(s, c) && Does(s, c, seat, deeds[0], s1, seat1) && SessionRun(s1, seat1, deeds[1..], s', seat')
  }

  // ---------------------------------------------------------------------
  // One command
  // ---------------------------------------------------------------------

  /** Sound, and the session has its place. */
  ghost predicate Settles(s: State, c: Cert, seat: Seat) {
    match c
    case Cert(_, _, _) => Sound(s, c) && Here(s, c, seat)
  }

  lemma SettlesParts(s: State, c: Cert, seat: Seat)
    requires Settles(s, c, seat)
    ensures Sound(s, c) && Here(s, c, seat) && DiskInv(s) && TreeInv(s, c) && Steady(s)
    ensures Placed(c) && seat.dir in c.place && IsDir(INodeAt(s.img.inodes, seat.dir)) && At(s, c, seat.dir, seat.name)
  {
    hide TreeInv, DiskInv, Steady, Names;
  }

  /** MakeDir, Create and WriteFile keep what is above the current directory; so do deletions in it. */
  lemma ActSettles(s: State, c: Cert, seat: Seat, a: Action, s': State) returns (c': Cert)
    requires Settles(s, c, seat) && |s.super.stack| == GROUP && ActsIn(a, seat.dir)
    requires Fits(seat.who, s, c, a) && Did(seat.who, s, c, a, s') && (s' == s || StaysInGroup(s, c, a))
    ensures Settles(s', c', seat)
  {
    hide Here, Sound, IsDirectory, UsableName, MakeDir, Create, WriteFile, DelFile, Fill, DirDeleted, StaysInGroup, Steady,
      TreeInv, DiskInv, IsDir, At, StrLen;
    SettlesParts(s, c, seat);
    var who := seat.who;
    var c1 := StepKeeps(who, s, c, a, s');
    c' := c;
    if s' != s {
      match a {
        case MakeDirAct(d, name) => c' := MakeDirUp(s, c, seat, d, name);
        case CreateAct(d, name, buf, junk) => c' := CreateUp(s, c, seat, d, name, buf, junk);
        case WriteAct(i, buf) => c' := WriteUp(s, c, seat, i, buf);
        case DelFileAct(d, name) => c' := DelFileUp(s, c, seat, name);
        case DeleteDirAct(d, name) =>
          var h, i :| DirDeleted(s, s', c, d, name, h, i);
          c' := DeleteDirUp(s, c, seat, name, h, i, s');
      }
      SoundAny(s', c1, c');
      SeatStays(s, c, s', c', seat);
    }
  }

  lemma SoundAny(s: State, c: Cert, c': Cert)
    requires Sound(s, c) && TreeInv(s, c')
    ensures Sound(s, c')
  {
    hide TreeInv, DiskInv, Steady;
  }

  lemma MakeDirUp(s: State, c: Cert, seat: Seat, d: int, name: string) returns (c': Cert)
    requires Settles(s, c, seat) && IsDirectory(s, c, d) && |s.super.stack| == GROUP
    requires MakeDir(s, seat.who, d, name).1 ==> UsableName(d, name)
    ensures var s' := MakeDir(s, seat.who, d, name).0; TreeInv(s', c') && UpStays(s, c, s', c', seat.dir)
  {
    hide Here, MakeDir, TreeInv, DiskInv, Steady, Grown, Grew, Added, UsableName, UpStays, ViewOf, Below;
    SettlesParts(s, c, seat);
    var (s', ok) := MakeDir(s, seat.who, d, name);
    var i;
    c', i := MakeDirKeeps(s, c, seat.who, d, name);
    if ok {
      AddedStays(s, c, s', c', d, Entry(name, i), seat.dir);
    } else {
      GrownKeeps(s, s', c);
      ViewsStay(s, c, s', c', seat.dir);
    }
  }

  lemma CreateUp(s: State, c: Cert, seat: Seat, d: int, name: string, buf: seq<char>, junk: int) returns (c': Cert)
    requires Settles(s, c, seat) && IsDirectory(s, c, d) && TextBuffer(buf) && |s.super.stack| == GROUP
    requires Create(s, seat.who, d, name, buf, junk).1 ==> UsableName(d, name) && (LeavesJunk(StrLen(buf)) ==> junk == -1)
    ensures var s' := Create(s, seat.who, d, name, buf, junk).0; TreeInv(s', c') && UpStays(s, c, s', c', seat.dir)
  {
    hide Here, Create, TreeInv, DiskInv, Steady, Grew, Added, UsableName, StrLen, UpStays, ViewOf, Below;
    SettlesParts(s, c, seat);
    var (s', ok) := Create(s, seat.who, d, name, buf, junk);
    var i;
    c', i := CreateKeeps(s, c, seat.who, d, name, buf, junk);
    if ok {
      AddedStays(s, c, s', c', d, Entry(name, i), seat.dir);
    } else {
      ViewsStay(s, c, s', c', seat.dir);
    }
  }

  lemma WriteUp(s: State, c: Cert, seat: Seat, i: int, buf: seq<char>) returns (c': Cert)
    requires Settles(s, c, seat) && i in c.place && !IsDir(INodeAt(s.img.inodes, i))
    requires |INodeAt(s.img.inodes, i).direct| == DIRECT && TextBuffer(buf) && |s.super.stack| == GROUP
    ensures
      var s' := WriteFile(s, INodeAt(s.img.inodes, i), i, buf);
      TreeInv(s', c') && UpStays(s, c, s', c', seat.dir)
  {
    hide Here, WriteFile, TreeInv, DiskInv, Steady, Fill, UpStays, ViewOf, Below;
    SettlesParts(s, c, seat);
    c' := WriteFileKeeps(s, c, i, buf);
    FileHasNoneBelow(s, c, i, seat.dir);
    ViewsStay(s, c, WriteFile(s, INodeAt(s.img.inodes, i), i, buf), c', seat.dir);
  }

  lemma DelFileUp(s: State, c: Cert, seat: Seat, name: string) returns (c': Cert)
    requires Settles(s, c, seat) && IsDirectory(s, c, seat.dir) && |s.super.stack| == GROUP
    requires DelFile(s, seat.who, seat.dir, name).1 == Done ==> name != ""
    ensures var s' := DelFile(s, seat.who, seat.dir, name).0; TreeInv(s', c') && UpStays(s, c, s', c', seat.dir)
  {
    hide Here, DelFile, TreeInv, DiskInv, Steady, Removed, UpStays, ViewOf, BitsInv, EntryGone;
    SettlesParts(s, c, seat);
    DiskBits(s);
    var d := seat.dir;
    var h, i := DelFileKeeps(s, c, seat.who, d, name);
    var s' := DelFile(s, seat.who, d, name).0;
    if DelFile(s, seat.who, d, name).1 == Done {
      FileGone(s, s', c, d, name, h, i);
      c' := PruneCert(c, Sub(c, i));
      GoneUp(s, s', c, d, name, h, i);
    } else {
      c' := c;
      ViewsStay(s, c, s', c', d);
    }
  }

  lemma DeleteDirUp(s: State, c: Cert, seat: Seat, name: string, h: int, i: int, s': State) returns (c': Cert)
    requires Settles(s, c, seat) && DirDeleted(s, s', c, seat.dir, name, h, i)
    ensures TreeInv(s', c') && UpStays(s, c, s', c', seat.dir)
  {
    hide Here, TreeInv, DiskInv, Steady, DirDeleted, UpStays, EntryGone;
    SettlesParts(s, c, seat);
    DirGone(s, s', c, seat.dir, name, h, i);
    c' := PruneCert(c, Sub(c, i));
    GoneUp(s, s', c, seat.dir, name, h, i);
  }

  /** An entry of `d` was removed with everything below it. */
  lemma GoneUp(s: State, s': State, c: Cert, d: int, name: string, h: int, i: int)
    requires TreeInv(s, c) && EntryGone(s, s', c, d, name, h, i) && IsDir(INodeAt(s.img.inodes, d))
    ensures Placed(c) && TreeInv(s', PruneCert(c, Sub(c, i))) && UpStays(s, c, s', PruneCert(c, Sub(c, i)), d)
  {
    hide TreeInv, Removed, BitsInv, NameOf, UpStays;
    UpNotBelow(c, i);
    RemovedStays(s, c, s', PruneCert(c, Sub(c, i)), d, h, i, d);
  }

  /** Chmod in the current directory. */
  lemma ModeSettles(s: State, c: Cert, seat: Seat, name: string, permissions: nat)
    requires Settles(s, c, seat) && |INodeAt(s.img.inodes, seat.dir).direct| == DIRECT
    requires Chmod(s, seat.who, seat.dir, name, permissions) != s ==>
      name != "" && forall i :: Finds(s, seat.dir, name, i) ==> !TurnsDir(INodeAt(s.img.inodes, i), permissions)
    ensures Settles(Chmod(s, seat.who, seat.dir, name, permissions), c, seat)
  {
    hide Here, TreeInv, DiskInv, Steady, Chmod, ModeChanged, UpStays, FindSlot, Below, Finds, TurnsDir;
    SettlesParts(s, c, seat);
    var s' := Chmod(s, seat.who, seat.dir, name, permissions);
    var i := ChmodKeeps(s, c, seat.who, seat.dir, name, permissions);
    if s' != s {
      ModeChild(s, s', c, seat.dir, name, i, permissions);
      ModeStays(s, c, s', seat.dir, name, i, permissions, seat.dir);
      SeatStays(s, c, s', c, seat);
      ChmodSteady(s, seat.who, seat.dir, name, permissions);
    }
  }

  lemma ModeChild(s: State, s': State, c: Cert, d: int, name: string, i: int, permissions: nat)
    requires Placed(c) && ModeChanged(s, s', c, d, name, i, permissions)
    ensures d in c.place && !Below(c, d, i)
  {
    UpNotBelow(c, i);
  }

  lemma ChmodSteady(s: State, who: Session, d: int, name: string, permissions: nat)
    requires Steady(s) && |INodeAt(s.img.inodes, d).direct| == DIRECT
    ensures Steady(Chmod(s, who, d, name, permissions))
  {
    hide FindSlot, Slots, WithPermissions;
  }

  lemma CopySettles(s: State, c: Cert, seat: Seat, p: string, q: string, s': State) returns (c': Cert)
    requires Settles(s, c, seat) && CopyLeaves(s, c, p, q, s')
    ensures Settles(s', c', seat)
  {
    hide Here, TreeInv, DiskInv, Steady, GrownAt, OneMore, UpStays, ResolvePath;
    SettlesParts(s, c, seat);
    c' := c;
    if s' != s {
      var tgt := ResolvePath(s.img, q);
      c' :| GrownAt(s, c, s', c', tgt) && OneMore(s, s', tgt, LastPart(p));
      GrownStays(s, c, s', c', tgt, LastPart(p), seat.dir);
      SeatStays(s, c, s', c', seat);
      GrownSound(s, c, s', c', tgt);
    }
  }

  lemma GrownSound(s: State, c: Cert, s': State, c': Cert, tgt: int)
    requires GrownAt(s, c, s', c', tgt)
    ensures DiskInv(s') && TreeInv(s', c')
  {
    hide TreeInv, DiskInv;
  }

  lemma MoveSettles(s: State, c: Cert, seat: Seat, p: string, q: string, s': State) returns (c': Cert)
    requires Settles(s, c, seat) && MoveLeaves(s, c, p, q, s') && !MovesSeat(p, seat)
    ensures Settles(s', c', seat)
  {
    hide Here, TreeInv, Steady, EntryMoved, MoveSettled, MovesSeat, ResolvePath, FreesInGroup;
    SettlesParts(s, c, seat);
    var i;
    c', i :| EntryMoved(s, c, s', c', p, q, i) && MoveSettled(s, c, s', c', ResolvePath(s.img, p)) && FreesInGroup(s, c, p, s');
    MoveSeatIff(s, c, s', c', p, q, i, seat);
    MovedSound(s, c, s', c', p, q, i);
  }

  lemma MovedSound(s: State, c: Cert, s': State, c': Cert, p: string, q: string, i: int)
    requires EntryMoved(s, c, s', c', p, q, i) && MoveSettled(s, c, s', c', ResolvePath(s.img, p)) && FreesInGroup(s, c, p, s')
    ensures DiskInv(s') && TreeInv(s', c')
  {
    hide TreeInv, ChainInv, CanCopy, Names, DocOf, Below, MoveFrees, NameOf, HoleAt, EntryIn, ResolvePath, OwnedIn, Sub;
  }

  /** Whatever the command, sound state and place are kept. */
  lemma DeedSettles(s: State, c: Cert, seat: Seat, deed: Deed, s': State, seat': Seat) returns (c': Cert)
    requires Settles(s, c, seat) && Does(s, c, seat, deed, s', seat')
    ensures Settles(s', c', seat')
  {
    hide Here, Sound, TreeInv, Fits, Did, StaysInGroup, CopyLeaves, MoveLeaves, MovesSeat, Chmod, FindSlot, Cd, Normalize;
    SettlesParts(s, c, seat);
    c' := c;
    match deed
    case Login(who) =>
      ClimbArrives(s, c, seat);
      RootSeat(s, c, seat, who);
    case GoTo(path) => CdHere(s, c, seat, path);
    case Act(a) => c' := ActSettles(s, c, seat, a, s');
    case ChangeMode(name, permissions) => ModeSettles(s, c, seat, name, permissions);
    case Copy(p, q) => c' := CopySettles(s, c, seat, Normalize(seat.name, p), Normalize(seat.name, q), s');
    case Move(p, q) =>
      var p', q' := Normalize(seat.name, p), Normalize(seat.name, q);
      if CopyLeaves(s, c, p', q', s') {
        c' := CopySettles(s, c, seat, p', q', s');
      } else {
        c' := MoveSettles(s, c, seat, p', q', s');
      }
  }

  /** At the root every user has a place. */
  lemma RootSeat(s: State, c: Cert, seat: Seat, who: Session)
    requires TreeInv(s, c) && Here(s, c, seat)
    ensures Here(s, c, Seat(who, ROOT, "/"))
  {
    hide TreeInv, MayEnter;
    ClimbArrives(s, c, seat);
    RootOpen(who, INodeAt(s.img.inodes, ROOT));
  }

  // ---------------------------------------------------------------------
  // Runs
  // ---------------------------------------------------------------------

  /** From a session that has its place every run of commands ends in one, on a sound disk. */
  lemma {:induction false} SessionKeeps(s: State, c: Cert, seat: Seat, deeds: seq<Deed>, s': State, seat': Seat) returns (c': Cert)
    requires Sound(s, c) && Here(s, c, seat) && SessionRun(s, seat, deeds, s', seat')
    ensures Sound(s', c') && Here(s', c', seat')
    decreases |deeds|
  {
    hide Sound, Here, Does;
    if deeds == [] {
      c' := c;
    } else {
      var c0, s1, seat1 :|
        TreeInv(s, c0) && Does(s, c0, seat, deeds[0], s1, seat1) && SessionRun(s1, seat1, deeds[1..], s', seat');
      SettlesAny(s, c, c0, seat);
      var c1 := DeedSettles(s, c0, seat, deeds[0], s1, seat1);
      c' := SessionKeeps(s1, c1, seat1, deeds[1..], s', seat');
    }
  }

  /** A place does not depend on the certificate through which it is seen. */
  lemma SettlesAny(s: State, c: Cert, c': Cert, seat: Seat)
    requires Sound(s, c) && Here(s, c, seat) && TreeInv(s, c')
    ensures Settles(s, c', seat)
  {
    hide Here, TreeInv, DiskInv, Steady, UpStays, NameOf;
    TreeUnique(s, c, c');
    SettlesParts(s, c, seat);
    ViewsStay(s, c, s, c', seat.dir);
    SeatStays(s, c, s, c', seat);
  }

  /**
   On a formatted disk, logged in as anyone: whatever commands follow, the climb of
   an absolute `cd` arrives at the root.
   */
  lemma AlwaysHome(s: State, c: Cert, nodes: map<int, View>, owner: Session, who: Session, deeds: seq<Deed>, s': State, seat': Seat)
    requires Shows(s, c, nodes) && ROOT in nodes && nodes[ROOT].DirView? && nodes[ROOT].attr == Attr(DIR_MODE, owner.user, owner.group)
    requires SessionRun(s, Seat(who, ROOT, "/"), deeds, s', seat')
    ensures Climb(s'.img, seat'.who, seat'.dir, seat'.name) == Where(Arrived, ROOT, "/")
    ensures forall path :: Cd(s'.img, seat'.who, seat'.dir, seat'.name, path).answer != Stuck
  {
    hide Sound, Here, Climb, Cd, SessionRun, LeakFree;
    FormattedSeat(s, c, nodes, owner, who);
    var c' := SessionKeeps(s, c, Seat(who, ROOT, "/"), deeds, s', seat');
    SoundSteady(s', c');
    ClimbArrives(s', c', seat');
    forall path ensures Cd(s'.img, seat'.who, seat'.dir, seat'.name, path).answer != Stuck { CdHere(s', c', seat', path); }
  }

  lemma FormattedSeat(s: State, c: Cert, nodes: map<int, View>, owner: Session, who: Session)
    requires Shows(s, c, nodes) && ROOT in nodes && nodes[ROOT].DirView? && nodes[ROOT].attr == Attr(DIR_MODE, owner.user, owner.group)
    ensures Sound(s, c) && Here(s, c, Seat(who, ROOT, "/"))
  {
    hide TreeInv, DiskInv, Steady, LeakFree, MayEnter, PathOf;
    TreePlaced(s, c);
    ShownAttr(s, ROOT);
    KindSeen(s, ROOT);
    RootOpen(who, INodeAt(s.img.inodes, ROOT));
    SplitInvertsJoin([]);
    RootPath(s, c);
  }
}
