/**
 FindDir (src/filesystem_path.cpp) and ChangeDirectory (src/filesystem_adapter.cpp):
 the current directory's inode and its name string, moved step by step.
 */
module Navigation {
  import opened Disk
  import opened Allocator
  import opened Tree
  import opened MakeDirectory
  import opened DeleteFile
  import opened Subtree
  import opened Paths
  import opened Resolve

  datatype Entering = Entered(dir: int, name: string) | NoEntry | NoPermission

  datatype CdAnswer = Arrived | NoDirectory | CdDenied | Stuck | Overrun

  /** The current directory after a `cd`, and how it ended. */
  datatype Where = Where(answer: CdAnswer, dir: int, name: string)

  // ---------------------------------------------------------------------
  // The name string
  // ---------------------------------------------------------------------

  /** The index of the last slash, -1 when there is none. */
  function LastSlash(s: string): (k: int)
    ensures -1 <= k < |s|
  {
    if s == "" then -1 else if s[|s| - 1] == '/' then |s| - 1 else LastSlash(s[..|s| - 1])
  }

  /** cur_dir_name cut at its last slash; an empty rest becomes "/". */
  function UpName(cur: string): string {
    if LastSlash(cur) <= 0 then "/" else cur[..LastSlash(cur)]
  }

  function DownName(cur: string, part: string): string {
    if cur != "" && cur[|cur| - 1] != '/' then cur + "/" + part else cur + part
  }

  function Renamed(cur: string, part: string): string {
    if part == "." then cur else if part == ".." then UpName(cur) else DownName(cur, part)
  }

  // ---------------------------------------------------------------------
  // The steps
  // ---------------------------------------------------------------------

  /** FindDir lets root into every directory. */
  predicate MayEnter(who: Session, n: INode) {
    var shift := if who.user == n.user then 6 else if who.group == n.group then 3 else 0;
    who.user == "root" || ModeBit(n.mode, shift + 2)
  }

  /** FindDir. */
  function Enter(img: Image, who: Session, d: int, cur: string, part: string): Entering {
    var n := INodeAt(img.inodes, d);
    if |n.direct| != DIRECT then NoEntry
    else
      var h := FindKind(img, n.direct, part, true, 0);
      if h == SLOTS then NoEntry
      else
        var k := Slots(img.blocks, n.direct)[h].ino;
        if MayEnter(who, INodeAt(img.inodes, k)) then Entered(k, Renamed(cur, part)) else NoPermission
  }

  /**
   One component after the other; an error leaves the position where it was
   reached. A name that does not fit the 28 bytes of cur_dir_name ends the model:
   that is `Overrun`.
   */
  function CdParts(img: Image, who: Session, d: int, cur: string, parts: seq<string>): Where
    decreases |parts|
  {
    if parts == [] then Where(Arrived, d, cur)
    else if parts[0] == "." then CdParts(img, who, d, cur, parts[1..])
    else
      match Enter(img, who, d, cur, parts[0])
      case Entered(k, name) =>
        if |name| >= MAX_NAME then Where(Overrun, k, name) else CdParts(img, who, k, name, parts[1..])
      case NoEntry => Where(NoDirectory, d, cur)
      case NoPermission => Where(CdDenied, d, cur)
  }

  /**
   The climb to the root by "..". Where FindDir refuses, the position does not
   change and the loop of the source never ends: that is `Stuck`.
   */
  function Climb(img: Image, who: Session, d: int, cur: string): Where
    decreases |cur|
  {
    if cur == "/" then Where(Arrived, d, cur)
    else
      match Enter(img, who, d, cur, "..")
      case Entered(k, name) => if |name| < |cur| then Climb(img, who, k, name) else Where(Stuck, k, name)
      case _ => Where(Stuck, d, cur)
  }

  /** ChangeDirectory. */
  function Cd(img: Image, who: Session, d: int, cur: string, path: string): Where {
    if path != "" && path[0] == '/' then
      var top := Climb(img, who, d, cur);
      if top.answer != Arrived then top else CdParts(img, who, top.dir, top.name, Parts(path))
    else CdParts(img, who, d, cur, Parts(path))
  }

  // ---------------------------------------------------------------------
  // Names and joins
  // ---------------------------------------------------------------------

  lemma {:induction false} LastSlashAt(a: string, b: string)
    requires '/' !in b
    ensures LastSlash(a + "/" + b) == |a|
    decreases |b|
  {
    if b == "" {
      assert a + "/" + b == a + "/";
    } else {
      var s := a + "/" + b;
      assert s[..|s| - 1] == a + "/" + b[..|b| - 1];
      LastSlashAt(a, b[..|b| - 1]);
    }
  }

  /** Going up in the string drops the last component. */
  lemma UpJoin(dir: seq<string>)
    requires AllClean(dir) && dir != []
    ensures UpName(Join(dir)) == Join(dir[..|dir| - 1])
  {
    var rest, last := dir[..|dir| - 1], dir[|dir| - 1];
    LastSlashAt(Slashed(rest), last);
    if rest != [] { SlashedAbsolute(rest); }
  }

  /** Going down appends one. */
  lemma DownJoin(dir: seq<string>, part: string)
    requires AllClean(dir)
    ensures DownName(Join(dir), part) == Join(dir + [part])
  {
    assert (dir + [part])[..|dir|] == dir;
    if dir == [] {
      assert Slashed([]) == "";
      assert "" + "/" + part == "/" + part;
    } else {
      var last := dir[|dir| - 1];
      assert Slashed(dir)[|Slashed(dir)| - 1] == last[|last| - 1];
    }
  }

  lemma RenamedSteps(cur: string, part: string)
    requires Normal(Parts(cur)) && cur == Join(Parts(cur)) && Clean(part) && !(part == ".." && cur == "/")
    ensures Renamed(cur, part) == Join(Step(Parts(cur), part)) && Normal(Step(Parts(cur), part))
    ensures Parts(Renamed(cur, part)) == Step(Parts(cur), part)
  {
    var dir := Parts(cur);
    if part == ".." {
      assert dir == [] ==> cur == "/";
      UpJoin(dir);
    } else if part != "." {
      DownJoin(dir, part);
    }
    SplitInvertsJoin(Step(dir, part));
  }

  // ---------------------------------------------------------------------
  // Steps in the tree
  // ---------------------------------------------------------------------

  /** The position is a directory of the tree, and the name string is its path. */
  ghost predicate At(s: State, c: Cert, d: int, cur: string) {
    match c
    case Cert(_, _, _) => Placed(c) && Names(s, c, cur, d) && IsDir(INodeAt(s.img.inodes, d))
  }

  /** A directory entry leads where the path step leads; in the root there is no "..". */
  lemma StepLeads(s: State, c: Cert, d: int, part: string, h: int)
    requires TreeInv(s, c) && Placed(c) && d in c.place && IsDir(INodeAt(s.img.inodes, d)) && Clean(part) && part != "."
    requires |INodeAt(s.img.inodes, d).direct| == DIRECT && 0 <= h < SLOTS
    requires Slots(s.img.blocks, INodeAt(s.img.inodes, d).direct)[h].name == part
    ensures
      var k := Slots(s.img.blocks, INodeAt(s.img.inodes, d).direct)[h].ino;
      k in c.place && PathOf(s, c, k) == Step(PathOf(s, c, d), part) && !(part == ".." && d == ROOT)
  {
    hide TreeInv, NodeOk, DirOk;
    ReachedDir(s, c, d);
    RootTop(s, c);
    var slots := Slots(s.img.blocks, INodeAt(s.img.inodes, d).direct);
    if part == ".." && d != ROOT {
      DotDotAt(c, d, INodeAt(s.img.inodes, d).cnt, slots, h);
      ParentDir(s, c, d);
      var up := PathOf(s, c, c.place[d].parent);
      assert (up + [NameOf(s, c, d)])[..|up|] == up;
    } else {
      ChildSlot(c, d, INodeAt(s.img.inodes, d).cnt, slots, h);
    }
  }

  lemma DotDotAt(c: Cert, d: int, cnt: nat, slots: seq<Entry>, h: int)
    requires d in c.place && d != ROOT && |slots| == SLOTS && DirOk(c, d, cnt, slots) && 0 <= h < SLOTS && slots[h].name == ".."
    ensures slots[h].ino == c.place[d].parent
  {
    assert NamesDistinct(slots);
    assert slots[1].name == "..";
  }

  /** "." leads a directory to itself. */
  lemma SelfLeads(s: State, c: Cert, d: int, h: int)
    requires TreeInv(s, c) && d in c.place && IsDir(INodeAt(s.img.inodes, d))
    requires |INodeAt(s.img.inodes, d).direct| == DIRECT && 0 <= h < SLOTS
    requires Slots(s.img.blocks, INodeAt(s.img.inodes, d).direct)[h].name == "."
    ensures Slots(s.img.blocks, INodeAt(s.img.inodes, d).direct)[h].ino == d
  {
    hide TreeInv, KidOk, Base;
    ReachedDir(s, c, d);
    var slots := Slots(s.img.blocks, INodeAt(s.img.inodes, d).direct);
    assert NamesDistinct(slots) && slots[0].name == ".";
  }

  lemma ChildSteps(s: State, c: Cert, d: int, part: string)
    requires TreeInv(s, c) && Placed(c) && d in c.place && Clean(part) && FindChild(s.img, d, part) != -1
    ensures var k := FindChild(s.img, d, part); k in c.place && PathOf(s, c, k) == Step(PathOf(s, c, d), part)
  {
    hide TreeInv, NodeOk, PathOf, Slots;
    var direct := INodeAt(s.img.inodes, d).direct;
    var h := FindName(s.img.blocks, direct, part, 0);
    assert h < SLOTS && Bears(s.img.blocks, direct, part, h);
    if part == "." { SelfLeads(s, c, d, h); } else { StepLeads(s, c, d, part, h); }
  }

  /** A path that resolves leads where walking its components leads, "." and ".." included. */
  lemma {:induction false} FollowWalks(s: State, c: Cert, d: int, parts: seq<string>)
    requires TreeInv(s, c) && Placed(c) && d in c.place && AllClean(parts) && Follow(s.img, d, parts) != -1
    ensures var i := Follow(s.img, d, parts); i in c.place && PathOf(s, c, i) == Walk(PathOf(s, c, d), parts)
    decreases |parts|
  {
    hide TreeInv, FindChild, PathOf;
    if parts != [] {
      ChildSteps(s, c, d, parts[0]);
      FollowWalks(s, c, FindChild(s.img, d, parts[0]), parts[1..]);
    }
  }

  lemma {:induction false} PathNames(s: State, c: Cert, i: int)
    requires TreeInv(s, c) && Placed(c) && i in c.place
    ensures forall k :: 0 <= k < |PathOf(s, c, i)| ==> PathOf(s, c, i)[k] != "" && PathOf(s, c, i)[k] != "." && PathOf(s, c, i)[k] != ".."
    decreases c.place[i].depth
  {
    hide TreeInv, NodeOk, NameOf;
    if i != ROOT {
      ParentHigher(s, c, i);
      PathNames(s, c, c.place[i].parent);
      NameIsKid(s, c, i);
    }
  }

  lemma NameIsKid(s: State, c: Cert, i: int)
    requires TreeInv(s, c) && i in c.place && i != ROOT
    ensures KidName(NameOf(s, c, i))
  {
    hide TreeInv, NodeOk, DirOk;
    Hangs(s, c, i);
    var d := c.place[i].parent;
    ReachedDir(s, c, d);
    ChildAt(c, d, INodeAt(s.img.inodes, d).cnt, Slots(s.img.blocks, INodeAt(s.img.inodes, d).direct), c.place[i].slot);
  }

  /**
   The path string of a node resolves to it if and only if no name on the path
   contains a slash; MakeDir and Create accept such names.
   */
  lemma PathResolvesIff(s: State, c: Cert, i: int)
    requires TreeInv(s, c) && Placed(c) && i in c.place
    ensures ResolvePath(s.img, Join(PathOf(s, c, i))) == i
      <==> forall k :: 0 <= k < |PathOf(s, c, i)| ==> '/' !in PathOf(s, c, i)[k]
  {
    hide TreeInv, NodeOk, Follow, PathOf, Walk;
    var path := PathOf(s, c, i);
    PathNames(s, c, i);
    PathFollows(s, c, i);
    if AllClean(path) { SplitInvertsJoin(path); }
    if ResolvePath(s.img, Join(path)) == i { ResolvedClean(s, c, i, Join(path)); }
  }

  /** Whatever path string leads to a node, no name on the node's path contains a slash. */
  lemma ResolvedClean(s: State, c: Cert, i: int, path: string)
    requires TreeInv(s, c) && Placed(c) && i in c.place && ResolvePath(s.img, path) == i
    ensures AllClean(PathOf(s, c, i))
  {
    hide TreeInv, PathOf, Walk, PartsFrom, Follow;
    PathFollows(s, c, i);
    PartsClean(path, "");
    FollowWalks(s, c, ROOT, Parts(path));
    RootPath(s, c);
    WalkNormal([], Parts(path));
  }

  lemma RootPath(s: State, c: Cert)
    requires Placed(c)
    ensures PathOf(s, c, ROOT) == []
  {
  }

  /** The directory entered is the node the step leads to, and the string stays its path. */
  lemma EnterFollows(s: State, c: Cert, who: Session, d: int, cur: string, part: string)
    requires TreeInv(s, c) && At(s, c, d, cur) && Clean(part) && part != "."
    ensures
      match Enter(s.img, who, d, cur, part)
      case Entered(k, name) => At(s, c, k, name) && Parts(name) == Step(Parts(cur), part) && !(part == ".." && d == ROOT)
      case _ => true
  {
    hide TreeInv, NodeOk, Renamed, MayEnter, PathOf;
    var n := INodeAt(s.img.inodes, d);
    Reached(s, c, d);
    var h := FindKind(s.img, n.direct, part, true, 0);
    if h < SLOTS {
      StepLeads(s, c, d, part, h);
      RootNamed(s, c, cur, d);
      if part != ".." || cur != "/" { RenamedSteps(cur, part); }
    }
  }

  lemma RootNamed(s: State, c: Cert, cur: string, d: int)
    requires Placed(c) && Names(s, c, cur, d)
    ensures cur == "/" <==> d == ROOT
  {
    SplitInvertsJoin([]);
    assert Parts(cur) == [] ==> cur == "/";
    assert d != ROOT ==> |PathOf(s, c, d)| > 0;
  }

  lemma {:induction false} CdPartsFollow(s: State, c: Cert, who: Session, d: int, cur: string, parts: seq<string>)
    requires TreeInv(s, c) && At(s, c, d, cur) && AllClean(parts)
    ensures
      var w := CdParts(s.img, who, d, cur, parts);
      && At(s, c, w.dir, w.name)
      && (w.answer == Arrived ==> Parts(w.name) == Walk(Parts(cur), parts))
      && (|cur| < MAX_NAME ==> (w.answer == Overrun <==> |w.name| >= MAX_NAME))
    decreases |parts|
  {
    hide TreeInv, At, Enter, Step;
    if parts != [] {
      if parts[0] == "." {
        DotStays(Parts(cur));
        CdPartsFollow(s, c, who, d, cur, parts[1..]);
      } else {
        EnterFollows(s, c, who, d, cur, parts[0]);
        match Enter(s.img, who, d, cur, parts[0])
        case Entered(k, name) => CdPartsFollow(s, c, who, k, name, parts[1..]);
        case _ =>
      }
    }
  }

  /** The first component with which the path walked no longer fits the buffer; the number of components if none. */
  function FirstWide(dir: seq<string>, parts: seq<string>): (m: nat)
    ensures m <= |parts|
    decreases |parts|
  {
    if parts == [] || |Join(Step(dir, parts[0]))| >= MAX_NAME then 0 else 1 + FirstWide(Step(dir, parts[0]), parts[1..])
  }

  /** From directory `d` the component leads to directory `k` of the tree. */
  ghost predicate StepTo(s: State, c: Cert, d: int, part: string, k: int) {
    match c
    case Cert(place, _, _) =>
      && d in place && k in place && IsDir(INodeAt(s.img.inodes, k))
      && if part == ".." then d != ROOT && k == place[d].parent
         else k != ROOT && place[k].parent == d && NameOf(s, c, k) == part
  }

  /** FindDir enters exactly the directory the component leads to, where the user may enter it. */
  lemma EnterIff(s: State, c: Cert, who: Session, d: int, cur: string, part: string, k: int)
    requires TreeInv(s, c) && d in c.place && IsDir(INodeAt(s.img.inodes, d)) && Clean(part) && part != "."
    ensures Enter(s.img, who, d, cur, part) == Entered(k, Renamed(cur, part))
      <==> StepTo(s, c, d, part, k) && MayEnter(who, INodeAt(s.img.inodes, k))
  {
    hide TreeInv, NodeOk, DirOk, Renamed, MayEnter, Slots;
    ReachedDir(s, c, d);
    RootTop(s, c);
    TreePlaced(s, c);
    var n := INodeAt(s.img.inodes, d);
    var slots := Slots(s.img.blocks, n.direct);
    var h := FindKind(s.img, n.direct, part, true, 0);
    if h < SLOTS { MatchLeads(s, c, d, part, h); }
    if StepTo(s, c, d, part, k) {
      var t := LeadsThrough(s, c, d, part, k);
      NamedSlot(s.img.blocks, n.direct, t);
      assert IsMatch(s.img, n.direct, part, true, t);
      assert h < SLOTS;
      SameNameSameSlot(c, d, n.cnt, slots, h, t);
    }
  }

  lemma SameNameSameSlot(c: Cert, d: int, cnt: nat, slots: seq<Entry>, h: int, t: int)
    requires d in c.place && |slots| == SLOTS && DirOk(c, d, cnt, slots) && 0 <= h < SLOTS && 0 <= t < SLOTS
    requires slots[h].name == slots[t].name != ""
    ensures h == t
  {
    assert NamesDistinct(slots);
  }

  /** A slot with the name of a directory holds the directory the name leads to. */
  lemma MatchLeads(s: State, c: Cert, d: int, part: string, h: int)
    requires TreeInv(s, c) && d in c.place && IsDir(INodeAt(s.img.inodes, d)) && Clean(part) && part != "."
    requires |INodeAt(s.img.inodes, d).direct| == DIRECT && 0 <= h < SLOTS
    requires IsMatch(s.img, INodeAt(s.img.inodes, d).direct, part, true, h)
    ensures StepTo(s, c, d, part, Slots(s.img.blocks, INodeAt(s.img.inodes, d).direct)[h].ino)
  {
    hide TreeInv, NodeOk, DirOk, Slots;
    ReachedDir(s, c, d);
    RootTop(s, c);
    var slots := Slots(s.img.blocks, INodeAt(s.img.inodes, d).direct);
    if part == ".." && d != ROOT {
      DotDotAt(c, d, INodeAt(s.img.inodes, d).cnt, slots, h);
      ParentDir(s, c, d);
    } else {
      ChildSlot(c, d, INodeAt(s.img.inodes, d).cnt, slots, h);
      TreePlaced(s, c);
    }
  }

  /** The slot through which a component leads. */
  lemma LeadsThrough(s: State, c: Cert, d: int, part: string, k: int) returns (t: int)
    requires TreeInv(s, c) && d in c.place && IsDir(INodeAt(s.img.inodes, d)) && Clean(part) && StepTo(s, c, d, part, k)
    ensures |INodeAt(s.img.inodes, d).direct| == DIRECT && 0 <= t < SLOTS
    ensures Slots(s.img.blocks, INodeAt(s.img.inodes, d).direct)[t] == Entry(part, k)
  {
    hide TreeInv, NodeOk, DirOk;
    ReachedDir(s, c, d);
    if part == ".." {
      DotDotThere(c, d, INodeAt(s.img.inodes, d).cnt, Slots(s.img.blocks, INodeAt(s.img.inodes, d).direct));
      t := 1;
    } else {
      Hangs(s, c, k);
      t := c.place[k].slot;
    }
  }

  /** Each component leads from where the one before led to a directory the user may enter. */
  ghost predicate MayWalk(s: State, c: Cert, who: Session, d: int, parts: seq<string>)
    decreases |parts|
  {
    if parts == [] then true
    else if parts[0] == "." then MayWalk(s, c, who, d, parts[1..])
    else exists k :: StepTo(s, c, d, parts[0], k) && MayEnter(who, INodeAt(s.img.inodes, k)) && MayWalk(s, c, who, k, parts[1..])
  }

  lemma WalkOne(s: State, c: Cert, who: Session, d: int, cur: string, parts: seq<string>, m: nat)
    requires TreeInv(s, c) && At(s, c, d, cur) && 0 < m <= |parts| && Clean(parts[0])
    ensures parts[0] == "." ==> MayWalk(s, c, who, d, parts[..m]) == MayWalk(s, c, who, d, parts[1..][..m - 1])
    ensures parts[0] != "." ==>
      match Enter(s.img, who, d, cur, parts[0])
      case Entered(k, _) => MayWalk(s, c, who, d, parts[..m]) == MayWalk(s, c, who, k, parts[1..][..m - 1])
      case _ => !MayWalk(s, c, who, d, parts[..m])
  {
    hide TreeInv, Enter, StepTo, MayEnter;
    var first := parts[..m];
    assert first[0] == parts[0] && first[1..] == parts[1..][..m - 1];
    if parts[0] != "." {
      forall k
        ensures Enter(s.img, who, d, cur, parts[0]) == Entered(k, Renamed(cur, parts[0]))
          <==> StepTo(s, c, d, parts[0], k) && MayEnter(who, INodeAt(s.img.inodes, k))
      {
        EnterIff(s, c, who, d, cur, parts[0], k);
      }
      EnterRenames(s.img, who, d, cur, parts[0]);
    }
  }

  lemma EnterRenames(img: Image, who: Session, d: int, cur: string, part: string)
    ensures
      match Enter(img, who, d, cur, part)
      case Entered(_, name) => name == Renamed(cur, part)
      case _ => true
  {
  }

  /**
   The buffer is overrun if and only if some path on the way does not fit and the
   components up to that first one each lead to a directory the user may enter. The
   walk arrives if and only if all paths fit and all components lead on.
   */
  lemma {:induction false} OverrunIff(s: State, c: Cert, who: Session, d: int, cur: string, parts: seq<string>)
    requires TreeInv(s, c) && At(s, c, d, cur) && AllClean(parts) && |cur| < MAX_NAME
    ensures
      var m := FirstWide(Parts(cur), parts);
      var answer := CdParts(s.img, who, d, cur, parts).answer;
      && (answer == Overrun <==> m < |parts| && MayWalk(s, c, who, d, parts[..m + 1]))
      && (answer == Arrived <==> m == |parts| && MayWalk(s, c, who, d, parts))
    decreases |parts|
  {
    hide TreeInv, Enter, Step, Names, MayWalk, At, Join, Walk, Parts;
    if parts == [] {
      assert MayWalk(s, c, who, d, []) by { WalkNone(s, c, who, d); }
    } else {
      var m := FirstWide(Parts(cur), parts);
      NamedJoin(s, c, d, cur);
      assert parts[..|parts|] == parts && parts[1..][..|parts| - 1] == parts[1..];
      WalkOne(s, c, who, d, cur, parts, |parts|);
      if m < |parts| { WalkOne(s, c, who, d, cur, parts, m + 1); }
      if parts[0] == "." {
        DotStays(Parts(cur));
        OverrunIff(s, c, who, d, cur, parts[1..]);
      } else {
        EnterFollows(s, c, who, d, cur, parts[0]);
        match Enter(s.img, who, d, cur, parts[0])
        case Entered(k, name) =>
          NamedJoin(s, c, k, name);
          assert parts[1..][..0] == [];
          WalkNone(s, c, who, k);
          if |name| < MAX_NAME { OverrunIff(s, c, who, k, name, parts[1..]); }
        case _ =>
      }
    }
  }

  /**
   Where the walk stops short: before a component that leads nowhere it reports no
   directory, before one that leads to a directory the user may not enter, a refusal.
   */
  lemma {:induction false} CdStops(s: State, c: Cert, who: Session, d: int, cur: string, parts: seq<string>)
    requires TreeInv(s, c) && At(s, c, d, cur) && AllClean(parts)
    ensures
      var w := CdParts(s.img, who, d, cur, parts);
      && (w.answer == NoDirectory ==> exists m: nat :: StopsAt(s, c, who, d, cur, parts, m, w) && forall k :: !StepTo(s, c, w.dir, parts[m], k))
      && (w.answer == CdDenied ==> exists m: nat ::
            && StopsAt(s, c, who, d, cur, parts, m, w)
            && exists k :: StepTo(s, c, w.dir, parts[m], k) && !MayEnter(who, INodeAt(s.img.inodes, k)))
    decreases |parts|
  {
    hide TreeInv, At, Enter, Step, StepTo, MayEnter, StopsAt;
    if parts != [] {
      var w := CdParts(s.img, who, d, cur, parts);
      if parts[0] == "." {
        CdStops(s, c, who, d, cur, parts[1..]);
        forall m: nat | StopsAt(s, c, who, d, cur, parts[1..], m, w)
          ensures m < |parts[1..]| && StopsAt(s, c, who, d, cur, parts, m + 1, w) && parts[1..][m] == parts[m + 1]
        {
          StopsLater(s, c, who, d, cur, parts, m, w);
        }
      } else {
        EnterFollows(s, c, who, d, cur, parts[0]);
        match Enter(s.img, who, d, cur, parts[0])
        case Entered(k, name) =>
          if |name| < MAX_NAME {
            CdStops(s, c, who, k, name, parts[1..]);
            forall m: nat | StopsAt(s, c, who, k, name, parts[1..], m, w)
              ensures m < |parts[1..]| && StopsAt(s, c, who, d, cur, parts, m + 1, w) && parts[1..][m] == parts[m + 1]
            {
              StopsLater(s, c, who, d, cur, parts, m, w);
            }
          }
        case _ =>
          StopsNow(s, c, who, d, cur, parts, w);
          Unentered(s, c, who, d, cur, parts[0]);
      }
    }
  }

  /** The components before `m` were walked to where `w` is, and component `m` is not ".". */
  ghost predicate StopsAt(s: State, c: Cert, who: Session, d: int, cur: string, parts: seq<string>, m: nat, w: Where) {
    match w
    case Where(_, dir, name) =>
      m < |parts| && parts[m] != "." && CdParts(s.img, who, d, cur, parts[..m]) == Where(Arrived, dir, name)
  }

  lemma StopsNow(s: State, c: Cert, who: Session, d: int, cur: string, parts: seq<string>, w: Where)
    requires parts != [] && parts[0] != "." && w.dir == d && w.name == cur
    ensures StopsAt(s, c, who, d, cur, parts, 0, w)
  {
  }

  lemma StopsLater(s: State, c: Cert, who: Session, d: int, cur: string, parts: seq<string>, m: nat, w: Where)
    requires parts != []
    requires parts[0] == "." ==> StopsAt(s, c, who, d, cur, parts[1..], m, w)
    requires parts[0] != "." ==>
      match Enter(s.img, who, d, cur, parts[0])
      case Entered(k, name) => |name| < MAX_NAME && StopsAt(s, c, who, k, name, parts[1..], m, w)
      case _ => false
    ensures m + 1 < |parts| && StopsAt(s, c, who, d, cur, parts, m + 1, w) && parts[1..][m] == parts[m + 1]
  {
    hide Enter;
    assert parts[..m + 1][1..] == parts[1..][..m];
  }

  /** No entry: the component leads nowhere. No permission: it leads to a directory the user may not enter. */
  lemma Unentered(s: State, c: Cert, who: Session, d: int, cur: string, part: string)
    requires TreeInv(s, c) && At(s, c, d, cur) && Clean(part) && part != "."
    ensures Enter(s.img, who, d, cur, part) == NoEntry <==> forall k :: !StepTo(s, c, d, part, k)
    ensures Enter(s.img, who, d, cur, part) == NoPermission <==>
      exists k :: StepTo(s, c, d, part, k) && !MayEnter(who, INodeAt(s.img.inodes, k))
  {
    hide TreeInv, NodeOk, DirOk, Renamed, MayEnter, Slots, StepTo, PathOf;
    ReachedDir(s, c, d);
    var n := INodeAt(s.img.inodes, d);
    var slots := Slots(s.img.blocks, n.direct);
    var h := FindKind(s.img, n.direct, part, true, 0);
    if h < SLOTS { MatchLeads(s, c, d, part, h); }
    forall k | StepTo(s, c, d, part, k) ensures h < SLOTS && slots[h].ino == k {
      var t := LeadsThrough(s, c, d, part, k);
      NamedSlot(s.img.blocks, n.direct, t);
      StepIsDir(s, c, d, part, k);
      assert IsMatch(s.img, n.direct, part, true, t);
      SameNameSameSlot(c, d, n.cnt, slots, h, t);
    }
  }

  lemma StepIsDir(s: State, c: Cert, d: int, part: string, k: int)
    requires StepTo(s, c, d, part, k)
    ensures IsDir(INodeAt(s.img.inodes, k))
  {
  }

  lemma WalkNone(s: State, c: Cert, who: Session, d: int)
    ensures MayWalk(s, c, who, d, [])
  {
  }

  lemma NamedJoin(s: State, c: Cert, d: int, cur: string)
    requires At(s, c, d, cur)
    ensures cur == Join(Parts(cur))
  {
  }

  lemma DotStays(dir: seq<string>)
    ensures Step(dir, ".") == dir
  {
  }

  // ---------------------------------------------------------------------
  // The climb
  // ---------------------------------------------------------------------

  /** Every directory above `d` lets the user in. */
  ghost predicate MayClimb(s: State, c: Cert, who: Session, d: int)
    requires Placed(c) && d in c.place
    decreases c.place[d].depth
  {
    d == ROOT || (MayEnter(who, INodeAt(s.img.inodes, c.place[d].parent)) && MayClimb(s, c, who, c.place[d].parent))
  }

  /** The climb reaches the root exactly when every directory above lets the user in; otherwise it never ends. */
  lemma {:induction false} ClimbIff(s: State, c: Cert, who: Session, d: int, cur: string)
    requires TreeInv(s, c) && At(s, c, d, cur) && Placed(c) && d in c.place
    ensures
      var w := Climb(s.img, who, d, cur);
      && (w.answer == Arrived || w.answer == Stuck)
      && (w.answer == Arrived <==> MayClimb(s, c, who, d))
      && At(s, c, w.dir, w.name) && (w.answer == Arrived ==> w.dir == ROOT && w.name == "/") && |w.name| <= |cur|
    decreases c.place[d].depth
  {
    hide TreeInv, Enter, Names, MayEnter;
    RootNamed(s, c, cur, d);
    if d != ROOT {
      UpFound(s, c, who, d, cur);
      EnterFollows(s, c, who, d, cur, "..");
      ParentHigher(s, c, d);
      match Enter(s.img, who, d, cur, "..")
      case Entered(k, name) => ClimbIff(s, c, who, k, name);
      case _ =>
    }
  }

  lemma ParentHigher(s: State, c: Cert, d: int)
    requires TreeInv(s, c) && Placed(c) && d in c.place && d != ROOT
    ensures c.place[d].parent in c.place && c.place[c.place[d].parent].depth < c.place[d].depth
  {
  }

  /** Below the root ".." is found, and it is the parent; the string gets shorter. */
  lemma UpFound(s: State, c: Cert, who: Session, d: int, cur: string)
    requires TreeInv(s, c) && At(s, c, d, cur) && Placed(c) && d in c.place && d != ROOT
    ensures
      var p := c.place[d].parent;
      match Enter(s.img, who, d, cur, "..")
      case Entered(k, name) => k == p && MayEnter(who, INodeAt(s.img.inodes, p)) && |name| < |cur|
      case NoEntry => false
      case NoPermission => !MayEnter(who, INodeAt(s.img.inodes, p))
  {
    hide TreeInv, NodeOk, DirOk, MayEnter, Names;
    var n := INodeAt(s.img.inodes, d);
    ReachedDir(s, c, d);
    ParentDir(s, c, d);
    var slots := Slots(s.img.blocks, n.direct);
    DotDotThere(c, d, n.cnt, slots);
    NamedSlot(s.img.blocks, n.direct, 1);
    assert IsMatch(s.img, n.direct, "..", true, 1);
    var h := FindKind(s.img, n.direct, "..", true, 0);
    DotDotAt(c, d, n.cnt, slots, h);
    Shorter(s, c, d, cur);
  }

  lemma DotDotThere(c: Cert, d: int, cnt: nat, slots: seq<Entry>)
    requires d in c.place && d != ROOT && |slots| == SLOTS && DirOk(c, d, cnt, slots)
    ensures slots[1] == Entry("..", c.place[d].parent)
  {
  }

  lemma Shorter(s: State, c: Cert, d: int, cur: string)
    requires Placed(c) && Names(s, c, cur, d) && d != ROOT
    ensures |Renamed(cur, "..")| < |cur|
  {
    RootNamed(s, c, cur, d);
    var dir := Parts(cur);
    assert dir == [] ==> cur == "/";
    JoinAbsolute(dir);
    var rest, last := dir[..|dir| - 1], dir[|dir| - 1];
    LastSlashAt(Slashed(rest), last);
  }

  // ---------------------------------------------------------------------
  // ChangeDirectory against the normaliser
  // ---------------------------------------------------------------------

  /**
   Whatever happens, the name string stays the path of the current directory. A
   `cd` that reports no error, and whose name strings fit the buffer, arrives at
   the normalised path.
   */
  lemma CdNormalizes(s: State, c: Cert, who: Session, d: int, cur: string, path: string)
    requires TreeInv(s, c) && At(s, c, d, cur)
    ensures
      var w := Cd(s.img, who, d, cur, path);
      && At(s, c, w.dir, w.name)
      && (|cur| < MAX_NAME ==> (w.answer == Overrun <==> |w.name| >= MAX_NAME))
      && (w.answer == Arrived ==> w.name == Normalize(cur, path) && ResolvePath(s.img, w.name) == w.dir)
      && (w.answer == Stuck ==> path != "" && path[0] == '/' && Placed(c) && d in c.place && !MayClimb(s, c, who, d))
  {
    hide TreeInv, CdParts, Climb, Normalize, MayClimb, Walk;
    PartsClean(path, "");
    var w := Cd(s.img, who, d, cur, path);
    if path != "" && path[0] == '/' {
      ClimbIff(s, c, who, d, cur);
      var top := Climb(s.img, who, d, cur);
      if top.answer == Arrived { CdRelative(s, c, who, top.dir, top.name, cur, path); }
    } else {
      CdRelative(s, c, who, d, cur, cur, path);
    }
  }

  /**
   Which answer `cd` gives. From the root for an absolute path and from the current
   directory for a relative one: it arrives if and only if every path on the way fits
   the buffer and every component leads to a directory the user may enter; an absolute
   `cd` first needs every directory above to admit the user.
   */
  lemma CdAnswers(s: State, c: Cert, who: Session, d: int, cur: string, path: string)
    requires TreeInv(s, c) && At(s, c, d, cur) && |cur| < MAX_NAME
    ensures Placed(c) && d in c.place
    ensures
      var answer := Cd(s.img, who, d, cur, path).answer;
      var absolute := path != "" && path[0] == '/';
      var parts := Parts(path);
      var start, dir := if absolute then ROOT else d, if absolute then [] else Parts(cur);
      var m := FirstWide(dir, parts);
      && (answer == Stuck <==> absolute && !MayClimb(s, c, who, d))
      && (answer == Arrived <==> answer != Stuck && m == |parts| && MayWalk(s, c, who, start, parts))
      && (answer == Overrun <==> answer != Stuck && m < |parts| && MayWalk(s, c, who, start, parts[..m + 1]))
  {
    hide TreeInv, CdParts, Climb, MayClimb, MayWalk, FirstWide, PartsFrom;
    PartsClean(path, "");
    AtPlaced(s, c, d, cur);
    SplitInvertsJoin([]);
    if path != "" && path[0] == '/' {
      ClimbIff(s, c, who, d, cur);
      if Climb(s.img, who, d, cur).answer == Arrived {
        NeverStuck(s.img, who, ROOT, "/", Parts(path));
        OverrunIff(s, c, who, ROOT, "/", Parts(path));
      }
    } else {
      NeverStuck(s.img, who, d, cur, Parts(path));
      OverrunIff(s, c, who, d, cur, Parts(path));
    }
  }

  lemma AtPlaced(s: State, c: Cert, d: int, cur: string)
    requires At(s, c, d, cur)
    ensures Placed(c) && d in c.place
  {
  }

  lemma CdRelative(s: State, c: Cert, who: Session, d: int, from: string, cur: string, path: string)
    requires TreeInv(s, c) && At(s, c, d, from) && Normal(Parts(cur)) && cur == Join(Parts(cur))
    requires if path != "" && path[0] == '/' then from == "/" else from == cur
    ensures
      var w := CdParts(s.img, who, d, from, Parts(path));
      && At(s, c, w.dir, w.name) && w.answer != Stuck
      && (|from| < MAX_NAME ==> (w.answer == Overrun <==> |w.name| >= MAX_NAME))
      && (w.answer == Arrived ==> w.name == Normalize(cur, path) && ResolvePath(s.img, w.name) == w.dir)
  {
    hide TreeInv, CdParts, Normalize, Walk;
    PartsClean(path, "");
    CdPartsFollow(s, c, who, d, from, Parts(path));
    NeverStuck(s.img, who, d, from, Parts(path));
    NormalizeRelative(Parts(cur), path);
    SplitInvertsJoin([]);
    var w := CdParts(s.img, who, d, from, Parts(path));
    PathFollows(s, c, w.dir);
  }

  lemma {:induction false} NeverStuck(img: Image, who: Session, d: int, cur: string, parts: seq<string>)
    ensures CdParts(img, who, d, cur, parts).answer != Stuck
    decreases |parts|
  {
    if parts != [] {
      if parts[0] == "." {
        NeverStuck(img, who, d, cur, parts[1..]);
      } else {
        match Enter(img, who, d, cur, parts[0])
        case Entered(k, name) => NeverStuck(img, who, k, name, parts[1..]);
        case _ =>
      }
    }
  }

  // ---------------------------------------------------------------------
  // The backward scan for a slash
  // ---------------------------------------------------------------------

  method CutAtSlash(cur: string) returns (up: string)
    ensures up == UpName(cur)
  {
    var k := |cur|;
    assert cur[..|cur|] == cur;
    while k > 0 && cur[k - 1] != '/'
      invariant 0 <= k <= |cur| && LastSlash(cur[..k]) == LastSlash(cur)
    {
      assert cur[..k][..k - 1] == cur[..k - 1];
      k := k - 1;
    }
    assert k > 0 ==> cur[..k][k - 1] == '/';
    up := if k <= 1 then "/" else cur[..k - 1];
  }
}
