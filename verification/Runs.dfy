/**
 Runs of operations: what holds of the image after any number of them.
 */
module Runs {
  import opened Disk
  import opened Allocator
  import opened Tree
  import opened INodes
  import opened Directories
  import opened MakeDirectory
  import opened FileData
  import opened CreateFile
  import opened Freeing
  import opened DeleteFile
  import opened Subtree
  import opened DeleteDirectory
  import opened Outline
  import opened Resolve
  import opened Outcomes
  import opened Repair
  import opened SteadyState

  // ---------------------------------------------------------------------
  // The certificate is determined by the image
  // ---------------------------------------------------------------------

  lemma {:induction false} PlaceUnique(s: State, c: Cert, c': Cert, x: int)
    requires TreeInv(s, c) && TreeInv(s, c') && Placed(c) && x in c.place
    ensures x in c'.place && c'.place[x] == c.place[x]
    decreases c.place[x].depth
  {
    hide TreeInv, NodeOk, DirOk;
    RootTop(s, c);
    RootTop(s, c');
    if x != ROOT {
      var d, t := c.place[x].parent, c.place[x].slot;
      PlaceUnique(s, c, c', d);
      Hangs(s, c, x);
      ReachedDir(s, c', d);
      ChildAt(c', d, INodeAt(s.img.inodes, d).cnt, Slots(s.img.blocks, INodeAt(s.img.inodes, d).direct), t);
    }
  }

  lemma OwnerMoves(s: State, c: Cert, c': Cert, b: int)
    requires TreeInv(s, c) && TreeInv(s, c') && Placed(c) && b in c.owner
    ensures b in c'.owner && c'.owner[b] == c.owner[b]
  {
    hide TreeInv, DirOk, FileOk;
    Owner(s, c, b);
    var (i, k) := c.owner[b];
    PlaceUnique(s, c, c', i);
    Reached(s, c', i);
    assert OwnedBy(s, c', b, i, k);
  }

  /** Two certificates of one image differ in nothing but the bound on the depth. */
  lemma TreeUnique(s: State, c: Cert, c': Cert)
    requires TreeInv(s, c) && TreeInv(s, c')
    ensures c'.place == c.place && c'.owner == c.owner
  {
    hide TreeInv, NodeOk;
    TreePlaced(s, c);
    TreePlaced(s, c');
    forall x ensures x in c.place <==> x in c'.place {
      if x in c.place { PlaceUnique(s, c, c', x); }
      if x in c'.place { PlaceUnique(s, c', c, x); }
    }
    forall x | x in c.place ensures c'.place[x] == c.place[x] { PlaceUnique(s, c, c', x); }
    forall b ensures b in c.owner <==> b in c'.owner {
      if b in c.owner { OwnerMoves(s, c, c', b); }
      if b in c'.owner { OwnerMoves(s, c', c, b); }
    }
    forall b | b in c.owner ensures c'.owner[b] == c.owner[b] { OwnerMoves(s, c, c', b); }
  }

  /** The bound may be any that holds. */
  lemma TreeBound(s: State, c: Cert, c': Cert)
    requires TreeInv(s, c) && c'.place == c.place && c'.owner == c.owner
    requires forall i :: i in c'.place ==> c'.place[i].depth <= c'.maxDepth
    ensures TreeInv(s, c')
  {
    hide NodeOk, ParentOk, OwnerOk;
    forall i | i in c.place ensures NodeOk(s, c', i) { NodeFrame(s, c, s, c', i); }
    forall i | i in c.place && i != ROOT ensures ParentOk(s, c', i) { SameParent(s, c, c', i); }
    forall b | b in c.owner ensures OwnerOk(s, c', b) { SameOwner(s, c, c', b); }
  }

  lemma SameParent(s: State, c: Cert, c': Cert, i: int)
    requires i in c.place && ParentOk(s, c, i) && c'.place == c.place
    ensures ParentOk(s, c', i)
  {
  }

  lemma SameOwner(s: State, c: Cert, c': Cert, b: int)
    requires b in c.owner && OwnerOk(s, c, b) && c'.place == c.place && c'.owner == c.owner
    ensures OwnerOk(s, c', b)
  {
  }

  lemma SubSame(c: Cert, c': Cert, i: int)
    requires Placed(c) && Placed(c') && c'.place == c.place
    ensures Sub(c', i) == Sub(c, i)
  {
    forall j | j in c.place ensures Below(c', j, i) == Below(c, j, i) { BelowFrame(c, c', j, i); }
  }

  /** What DeleteDir did, it did whichever certificate one looks through. */
  lemma DirDeletedAny(s: State, s': State, c: Cert, c': Cert, d: int, name: string, h: int, i: int)
    requires TreeInv(s, c) && TreeInv(s, c') && DirDeleted(s, s', c, d, name, h, i)
    ensures DirDeleted(s, s', c', d, name, h, i)
    ensures Placed(c) && Placed(c') && EveryBlockFreed(s, c', i) == EveryBlockFreed(s, c, i)
  {
    hide TreeInv, NodeFrees, FreedBlock, BitsInv, ChainInv, Below;
    TreeUnique(s, c, c');
    TreePlaced(s, c');
    SubSame(c, c', i);
    var gone := Sub(c, i);
    assert Freed(s, c', gone) == Freed(s, c, gone);
    TreeBound(s', PruneCert(c, gone), PruneCert(c', gone));
    RemovedSame(s, s', c, c', d, h, gone);
  }

  lemma RemovedSame(s: State, s': State, c: Cert, c': Cert, d: int, h: int, gone: set<int>)
    requires Removed(s, s', c, d, h, gone) && c'.place == c.place
    ensures Removed(s, s', c', d, h, gone)
  {
  }

  // ---------------------------------------------------------------------
  // Steps
  // ---------------------------------------------------------------------

  datatype Action =
    | MakeDirAct(d: int, name: string)
    | CreateAct(d: int, name: string, buf: seq<char>, junk: int)
    | WriteAct(i: int, buf: seq<char>)
    | DelFileAct(d: int, name: string)
    | DeleteDirAct(d: int, name: string)

  /**
   The arguments are a directory or a file of the tree and a text, and what gets
   past the refusals is a usable name and no stray pointer.
   */
  ghost predicate Fits(who: Session, s: State, c: Cert, a: Action)
    requires |s.super.stack| == GROUP
  {
    match a
    case MakeDirAct(d, name) => IsDirectory(s, c, d) && (MakeDir(s, who, d, name).1 ==> UsableName(d, name))
    case CreateAct(d, name, buf, junk) =>
      && IsDirectory(s, c, d) && TextBuffer(buf)
      && (Create(s, who, d, name, buf, junk).1 ==> UsableName(d, name) && (LeavesJunk(StrLen(buf)) ==> junk == -1))
    case WriteAct(i, buf) =>
      i in c.place && !IsDir(INodeAt(s.img.inodes, i)) && |INodeAt(s.img.inodes, i).direct| == DIRECT && TextBuffer(buf)
    case DelFileAct(d, name) => IsDirectory(s, c, d) && (DelFile(s, who, d, name).1 == Done ==> name != "")
    case DeleteDirAct(d, name) =>
      IsDirectory(s, c, d) && (name == "" ==> !(MayDeleteDir(who, INodeAt(s.img.inodes, d)) && HoleThere(s.img, d)))
  }

  ghost predicate IsDirectory(s: State, c: Cert, d: int) {
    d in c.place && IsDir(INodeAt(s.img.inodes, d)) && |INodeAt(s.img.inodes, d).direct| == DIRECT
  }

  /** `s'` is what the operation leaves; a DeleteDir is known by when it is proved to delete, and by what it then does. */
  ghost predicate Did(who: Session, s: State, c: Cert, a: Action, s': State)
    requires |s.super.stack| == GROUP && Fits(who, s, c, a)
  {
    match a
    case MakeDirAct(d, name) => s' == MakeDir(s, who, d, name).0
    case CreateAct(d, name, buf, junk) => s' == Create(s, who, d, name, buf, junk).0
    case WriteAct(i, buf) => s' == WriteFile(s, INodeAt(s.img.inodes, i), i, buf)
    case DelFileAct(d, name) => s' == DelFile(s, who, d, name).0
    case DeleteDirAct(d, name) =>
      if DeletesDir(s, c, who, d, name) then (Steady(s) ==> Steady(s')) && exists h, i :: DirDeleted(s, s', c, d, name, h, i)
      else s' == s
  }

  /** The step ran to its end, or changed nothing; a recursive deletion freed all its blocks. */
  ghost predicate Complete(who: Session, s: State, c: Cert, a: Action, s': State)
    requires |s.super.stack| == GROUP && Fits(who, s, c, a)
  {
    s' == s ||
    match a
    case MakeDirAct(d, name) => MakeDir(s, who, d, name).1
    case CreateAct(d, name, buf, junk) => Create(s, who, d, name, buf, junk).1
    case WriteAct(i, buf) => Fill(s, buf, INodeAt(s.img.inodes, i).direct, 0).2
    case DelFileAct(d, name) => true
    case DeleteDirAct(d, name) => LeavesNothing(s, s', c, d, name)
  }

  ghost predicate LeavesNothing(s: State, s': State, c: Cert, d: int, name: string) {
    forall h, i :: DirDeleted(s, s', c, d, name, h, i) ==> EveryBlockFreed(s, c, i)
  }

  /**
   Before the call: the blocks a deletion would free leave the count within its
   group of sixty-four, so that no FreeBlock starts on a boundary. For DelFile
   these are the blocks the file owns, for DeleteDir those its recursion frees;
   no other action frees blocks.
   */
  ghost predicate StaysInGroup(s: State, c: Cert, a: Action) {
    match c
    case Cert(place, _, _) =>
      Placed(c) &&
      match a
      case DelFileAct(d, name) =>
        forall i :: ChildNamed(s, c, d, name, i) && !IsDir(INodeAt(s.img.inodes, i)) ==>
          NoSpill(s.super.freeBlocks, |OwnedIn(c, {i})|)
      case DeleteDirAct(d, name) =>
        forall i :: ChildNamed(s, c, d, name, i) && IsDir(INodeAt(s.img.inodes, i)) ==>
          NoSpill(s.super.freeBlocks, |Freed(s, c, Sub(c, i))|)
      case _ => true
  }

  /** Names are unique in a directory. */
  lemma OneChild(s: State, c: Cert, d: int, name: string, h: int, i: int, j: int)
    requires TreeInv(s, c) && d in c.place && i in c.place && c.place[i] == Place(d, h, c.place[d].depth + 1)
    requires |INodeAt(s.img.inodes, d).direct| == DIRECT && 0 <= h < SLOTS
    requires Slots(s.img.blocks, INodeAt(s.img.inodes, d).direct)[h] == Entry(name, i)
    ensures ChildNamed(s, c, d, name, j) <==> j == i
  {
    hide TreeInv;
    RootTop(s, c);
    TreePlaced(s, c);
    if ChildNamed(s, c, d, name, j) {
      NameFinds(s, c, i);
      NameFinds(s, c, j);
    }
  }

  /** Allocator, tree and superblock are sound. */
  ghost predicate Sound(s: State, c: Cert) {
    match c
    case Cert(_, _, _) => DiskInv(s) && TreeInv(s, c) && Steady(s)
  }

  // ---------------------------------------------------------------------
  // One step
  // ---------------------------------------------------------------------

  lemma StepMakes(who: Session, s: State, c: Cert, d: int, name: string) returns (c': Cert)
    requires Sound(s, c) && IsDirectory(s, c, d) && |s.super.stack| == GROUP
    requires MakeDir(s, who, d, name).1 ==> UsableName(d, name)
    ensures var (s', ok) := MakeDir(s, who, d, name);
      Sound(s', c') && (ok && LeakFree(s, c) ==> LeakFree(s', c'))
  {
    hide MakeDir, TreeInv, DiskInv, Steady, Grown, LeakFree, Added, Grew, UsableName;
    var i;
    c', i := MakeDirKeeps(s, c, who, d, name);
    MakeDirSteady(s, who, d, name);
  }

  lemma StepCreates(who: Session, s: State, c: Cert, d: int, name: string, buf: seq<char>, junk: int) returns (c': Cert)
    requires Sound(s, c) && IsDirectory(s, c, d) && TextBuffer(buf) && |s.super.stack| == GROUP
    requires Create(s, who, d, name, buf, junk).1 ==> UsableName(d, name) && (LeavesJunk(StrLen(buf)) ==> junk == -1)
    ensures var (s', ok) := Create(s, who, d, name, buf, junk);
      Sound(s', c') && (ok && LeakFree(s, c) ==> LeakFree(s', c'))
  {
    hide Create, TreeInv, DiskInv, Steady, LeakFree, Added, Grew, UsableName, StrLen;
    var i;
    c', i := CreateKeeps(s, c, who, d, name, buf, junk);
    CreateSteady(s, who, d, name, buf, junk);
  }

  lemma StepWrites(s: State, c: Cert, i: int, buf: seq<char>) returns (c': Cert)
    requires Sound(s, c) && i in c.place && !IsDir(INodeAt(s.img.inodes, i))
    requires |INodeAt(s.img.inodes, i).direct| == DIRECT && TextBuffer(buf)
    ensures |s.super.stack| == GROUP
    ensures
      var n := INodeAt(s.img.inodes, i);
      var s' := WriteFile(s, n, i, buf);
      Sound(s', c') && (Fill(s, buf, n.direct, 0).2 && LeakFree(s, c) ==> LeakFree(s', c'))
  {
    hide WriteFile, TreeInv, DiskInv, Steady, LeakFree, Fill;
    StackShape(s);
    c' := WriteFileKeeps(s, c, i, buf);
    WriteFileSteady(s, INodeAt(s.img.inodes, i), i, buf);
  }

  lemma StepDeletes(who: Session, s: State, c: Cert, d: int, name: string) returns (c': Cert)
    requires Sound(s, c) && IsDirectory(s, c, d) && |s.super.stack| == GROUP
    requires DelFile(s, who, d, name).1 == Done ==> name != ""
    ensures
      var s' := DelFile(s, who, d, name).0;
      && (s' == s || StaysInGroup(s, c, DelFileAct(d, name)) ==> Sound(s', c') && (LeakFree(s, c) ==> LeakFree(s', c')))
      && (ChainInv(s') ==> s' == s || StaysInGroup(s, c, DelFileAct(d, name)))
  {
    hide DelFile, TreeInv, Steady, LeakFree, Removed, ChildNamed;
    DiskBits(s);
    var h, i := DelFileKeeps(s, c, who, d, name);
    DelFileSteady(s, who, d, name);
    var s' := DelFile(s, who, d, name).0;
    c' := if DelFile(s, who, d, name).1 == Done then PruneCert(c, {i}) else c;
    if DelFile(s, who, d, name).1 == Done {
      TreePlaced(s, c);
      forall j ensures ChildNamed(s, c, d, name, j) <==> j == i { OneChild(s, c, d, name, h, i, j); }
    }
  }

  lemma StepDeletesDir(s: State, c: Cert, d: int, name: string, h: int, i: int, s': State) returns (c': Cert)
    requires Sound(s, c) && DirDeleted(s, s', c, d, name, h, i) && Steady(s')
    ensures
      && (StaysInGroup(s, c, DeleteDirAct(d, name)) ==> Sound(s', c'))
      && Placed(c) && (LeakFree(s, c) && EveryBlockFreed(s, c, i) ==> LeakFree(s', c'))
      && (ChainInv(s') ==> StaysInGroup(s, c, DeleteDirAct(d, name)))
  {
    hide TreeInv, Steady, LeakFree, Removed, Freed, OwnedIn, Sub, EveryBlockFreed, ChildNamed;
    c' := PruneCert(c, Sub(c, i));
    forall j ensures ChildNamed(s, c, d, name, j) <==> j == i { OneChild(s, c, d, name, h, i, j); }
    if LeakFree(s, c) { DeleteLeaksIff(s, s', c, d, name, h, i); }
  }

  /** Whatever the step, a sound state stays sound, and a complete step leaks nothing. */
  lemma StepKeeps(who: Session, s: State, c: Cert, a: Action, s': State) returns (c': Cert)
    requires Sound(s, c) && |s.super.stack| == GROUP && Fits(who, s, c, a) && Did(who, s, c, a, s')
    requires s' == s || StaysInGroup(s, c, a)
    ensures Sound(s', c')
    ensures LeakFree(s, c) && Complete(who, s, c, a, s') ==> LeakFree(s', c')
  {
    hide Sound, IsDirectory, UsableName, MakeDir, Create, WriteFile, DelFile, Fill, LeakFree, DirDeleted,
      StaysInGroup, Steady;
    if s' == s {
      c' := c;
    } else {
      match a
      case MakeDirAct(d, name) => c' := StepMakes(who, s, c, d, name);
      case CreateAct(d, name, buf, junk) => c' := StepCreates(who, s, c, d, name, buf, junk);
      case WriteAct(i, buf) => c' := StepWrites(s, c, i, buf);
      case DelFileAct(d, name) => c' := StepDeletes(who, s, c, d, name);
      case DeleteDirAct(d, name) =>
        var h, i :| DirDeleted(s, s', c, d, name, h, i);
        SoundSteady(s, c);
        c' := StepDeletesDir(s, c, d, name, h, i, s');
    }
  }

  /** Only a deletion can spill, and one that does leaves a broken chain. */
  lemma SpillBreaks(who: Session, s: State, c: Cert, a: Action, s': State)
    requires Sound(s, c) && |s.super.stack| == GROUP && Fits(who, s, c, a) && Did(who, s, c, a, s')
    requires s' != s && !StaysInGroup(s, c, a)
    ensures !ChainInv(s')
  {
    hide Sound, IsDirectory, DelFile, LeakFree, DirDeleted, Steady, ChainInv;
    SoundSteady(s, c);
    TreePlaced(s, c);
    match a
    case DelFileAct(d, name) =>
      var c' := StepDeletes(who, s, c, d, name);
    case DeleteDirAct(d, name) =>
      var h, i :| DirDeleted(s, s', c, d, name, h, i);
      var c' := StepDeletesDir(s, c, d, name, h, i, s');
    case _ =>
  }

  /**
   After a fitting step that changes anything allocator, tree and superblock are
   sound if and only if the blocks it frees left the count within its group.
   */
  lemma StepSoundIff(who: Session, s: State, c: Cert, a: Action, s': State)
    requires Sound(s, c) && |s.super.stack| == GROUP && Fits(who, s, c, a) && Did(who, s, c, a, s')
    ensures s' != s ==> ((exists c' :: Sound(s', c')) <==> StaysInGroup(s, c, a))
  {
    hide Fits, Did, TreeInv, ChainInv, Steady, StaysInGroup;
    if StaysInGroup(s, c, a) {
      var c' := StepKeeps(who, s, c, a, s');
    } else if s' != s {
      SpillBreaks(who, s, c, a, s');
    }
  }

  lemma SoundSteady(s: State, c: Cert)
    requires Sound(s, c)
    ensures Steady(s) && TreeInv(s, c) && BitsInv(s) && |s.super.stack| == GROUP
  {
    hide TreeInv, Steady;
    DiskBits(s);
    StackShape(s);
  }

  // ---------------------------------------------------------------------
  // Runs
  // ---------------------------------------------------------------------

  /** A step from `s`, seen through whatever certificates `s` has. */
  ghost predicate Step(who: Session, s: State, a: Action, s': State) {
    |s.super.stack| == GROUP ==> forall c :: TreeInv(s, c) ==> Fits(who, s, c, a) && Did(who, s, c, a, s')
  }

  /** The step changed nothing, or the blocks it frees leave the count within its group. */
  ghost predicate InGroup(s: State, a: Action, s': State) {
    s' == s || forall c :: TreeInv(s, c) ==> StaysInGroup(s, c, a)
  }

  ghost predicate CompleteStep(who: Session, s: State, a: Action, s': State) {
    |s.super.stack| == GROUP ==> forall c :: TreeInv(s, c) ==> Fits(who, s, c, a) && Complete(who, s, c, a, s')
  }

  /** One certificate is enough to know a step. */
  lemma StepFrom(who: Session, s: State, c: Cert, a: Action, s': State)
    requires TreeInv(s, c) && |s.super.stack| == GROUP && Fits(who, s, c, a) && Did(who, s, c, a, s')
    ensures Step(who, s, a, s')
    ensures Complete(who, s, c, a, s') ==> CompleteStep(who, s, a, s')
    ensures s' == s || StaysInGroup(s, c, a) ==> InGroup(s, a, s')
  {
    hide TreeInv, MakeDir, Create, WriteFile, DelFile, Fill, DirDeleted, Steady, UsableName, StaysInGroup;
    forall c' | TreeInv(s, c')
      ensures Fits(who, s, c', a) && Did(who, s, c', a, s') && (Complete(who, s, c, a, s') ==> Complete(who, s, c', a, s'))
      ensures StaysInGroup(s, c, a) ==> StaysInGroup(s, c', a)
    {
      TreeUnique(s, c, c');
      if a.DeleteDirAct? { DeletionAny(s, s', c, c', a.d, a.name); }
      if StaysInGroup(s, c, a) { GroupAny(s, c, c', a); }
    }
  }

  lemma GroupAny(s: State, c: Cert, c': Cert, a: Action)
    requires TreeInv(s, c) && TreeInv(s, c') && StaysInGroup(s, c, a)
    ensures StaysInGroup(s, c', a)
  {
    hide TreeInv, NodeFrees, NameOf;
    TreeUnique(s, c, c');
    TreePlaced(s, c');
    forall d, name, i ensures ChildNamed(s, c', d, name, i) == ChildNamed(s, c, d, name, i) {
      if i in c.place { SameName(s, c, c', i); }
    }
    forall i ensures OwnedIn(c', {i}) == OwnedIn(c, {i}) && Freed(s, c', Sub(c', i)) == Freed(s, c, Sub(c, i)) {
      SubSame(c, c', i);
    }
  }

  lemma SameName(s: State, c: Cert, c': Cert, i: int)
    requires i in c.place && c'.place == c.place
    ensures NameOf(s, c', i) == NameOf(s, c, i)
  {
  }

  lemma DeletionAny(s: State, s': State, c: Cert, c': Cert, d: int, name: string)
    requires TreeInv(s, c) && TreeInv(s, c')
    ensures (exists h, i :: DirDeleted(s, s', c, d, name, h, i)) ==> exists h, i :: DirDeleted(s, s', c', d, name, h, i)
    ensures LeavesNothing(s, s', c, d, name) ==> LeavesNothing(s, s', c', d, name)
  {
    hide TreeInv, DirDeleted, EveryBlockFreed;
    if h, i :| DirDeleted(s, s', c, d, name, h, i) { DirDeletedAny(s, s', c, c', d, name, h, i); }
    forall h, i | LeavesNothing(s, s', c, d, name) && DirDeleted(s, s', c', d, name, h, i)
      ensures Placed(c') && EveryBlockFreed(s, c', i)
    {
      DirDeletedAny(s, s', c', c, d, name, h, i);
    }
  }

  /** From `s` the actions, each fitting the tree it finds and none spilling, lead to `s'`. */
  ghost predicate Run(who: Session, s: State, acts: seq<Action>, s': State)
    decreases |acts|
  {
    if acts == [] then s' == s
    else exists s1 :: Step(who, s, acts[0], s1) && InGroup(s, acts[0], s1) && Run(who, s1, acts[1..], s')
  }

  /** The same, with every step complete. */
  ghost predicate CompleteRun(who: Session, s: State, acts: seq<Action>, s': State)
    decreases |acts|
  {
    if acts == [] then s' == s
    else exists s1 ::
      && Step(who, s, acts[0], s1) && InGroup(s, acts[0], s1) && CompleteStep(who, s, acts[0], s1)
      && CompleteRun(who, s1, acts[1..], s')
  }

  /** Every run from a sound state ends in a sound state: a tree, a chain and bitmaps that agree. */
  lemma {:induction false} RunKeeps(who: Session, s: State, c: Cert, acts: seq<Action>, s': State) returns (c': Cert)
    requires Sound(s, c) && Run(who, s, acts, s')
    ensures Sound(s', c')
    decreases |acts|
  {
    hide Sound, Fits, Did, StaysInGroup;
    if acts == [] {
      c' := c;
    } else {
      var s1 :| Step(who, s, acts[0], s1) && InGroup(s, acts[0], s1) && Run(who, s1, acts[1..], s');
      SoundSteady(s, c);
      var c1 := StepKeeps(who, s, c, acts[0], s1);
      c' := RunKeeps(who, s1, c1, acts[1..], s');
    }
  }

  /**
   After any run of complete operations from a disk without leaks the marked
   blocks and inodes are exactly those the tree owns and reaches, and a restart
   from the image alone restores the very same state.
   */
  lemma {:induction false} CompleteRunExact(who: Session, s: State, c: Cert, acts: seq<Action>, s': State) returns (c': Cert)
    requires Sound(s, c) && LeakFree(s, c) && CompleteRun(who, s, acts, s')
    ensures Sound(s', c') && LeakFree(s', c') && Restart(s'.img) == s'
    decreases |acts|
  {
    hide Sound, Fits, Did, StaysInGroup, Complete, LeakFree, Restart;
    if acts == [] {
      c' := c;
      SoundRestarts(s, c);
    } else {
      var s1 :| Step(who, s, acts[0], s1) && InGroup(s, acts[0], s1) && CompleteStep(who, s, acts[0], s1)
        && CompleteRun(who, s1, acts[1..], s');
      SoundSteady(s, c);
      var c1 := StepKeeps(who, s, c, acts[0], s1);
      c' := CompleteRunExact(who, s1, c1, acts[1..], s');
    }
  }

  lemma SoundRestarts(s: State, c: Cert)
    requires Sound(s, c) && LeakFree(s, c)
    ensures Restart(s.img) == s
  {
    hide TreeInv, LeakFree, Restart;
    SoundSteady(s, c);
    RestartTransparent(s, c);
  }
}
