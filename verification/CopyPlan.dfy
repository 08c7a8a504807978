/**
 What copyRecursive in CopyEntry (src/filesystem_adapter.cpp) answers, told from the
 state before the call: from the outline of the source, the place the copy goes to,
 and the inodes and blocks that are free.
 */
module CopyPlan {
  import opened Disk
  import opened Allocator
  import opened Tree
  import opened INodes
  import opened Directories
  import opened MakeDirectory
  import opened FileData
  import opened CreateFile
  import opened Freeing
  import opened DeleteFile
  import opened Subtree
  import opened Outline
  import opened Resolve
  import opened Room
  import opened CopyTree
  import opened Outcomes

  /** A copy's target for one name: the name taken, no slot free, MakeDir allowed, and the blocks an entry needs. */
  datatype Spot = Spot(taken: bool, full: bool, may: bool, needs: nat)

  /** A copy ends with an error, or is made and leaves so many blocks and inodes free. */
  datatype Course = Fails(result: CopyResult) | Lands(blocks: nat, inodes: nat)

  predicate Refused(name: string) { name == "" || '/' in name || '\\' in name }

  function PlanCopy(spot: Spot, name: string, doc: Doc, blocks: nat, inodes: nat): Course
    decreases doc, 1, 0
  {
    if Refused(name) then Fails(InvalidName)
    else if |name| >= MAX_NAME then Fails(NameTooLong)
    else if spot.taken then Fails(Exists)
    else
      match doc
      case File(text) =>
        if |text| > MAX_FILE then Fails(TooLarge)
        else if '\0' in text then Fails(NotText)
        else if spot.full || inodes == 0 || blocks < spot.needs + TextNeeds(|text|) then Fails(CreateFailed)
        else Lands(blocks - spot.needs - TextNeeds(|text|), inodes - 1)
      case Folder(kids) =>
        if !spot.may || spot.full || inodes == 0 || blocks < spot.needs + 1 then Fails(MakeDirFailed)
        else PlanKids(doc, 0, blocks - spot.needs - 1, inodes - 1)
  }

  /** The children from the `m`-th on, one after the other, up to the first that fails. */
  function PlanKids(doc: Doc, m: nat, blocks: nat, inodes: nat): Course
    requires doc.Folder? && m <= |doc.kids|
    decreases doc, 0, |doc.kids| - m
  {
    if m == |doc.kids| then Lands(blocks, inodes)
    else
      match PlanCopy(KidSpot(m), doc.kids[m].0, doc.kids[m].1, blocks, inodes)
      case Fails(result) => Fails(result)
      case Lands(b, i) => PlanKids(doc, m + 1, b, i)
  }

  /** In a directory just made with `m` children the next entry goes to slot `m + 2`; a new block is needed every sixteenth. */
  function KidSpot(m: nat): Spot { Spot(false, false, true, if (m + 2) % PER_BLOCK == 0 then 1 else 0) }

  function ResultOf(course: Course): CopyResult { if course.Fails? then course.result else Copied }

  // ---------------------------------------------------------------------
  // When a copy succeeds
  // ---------------------------------------------------------------------

  /** No name below is refused and every text is one Create can take. */
  ghost predicate Plain(doc: Doc) {
    match doc
    case File(text) => |text| <= MAX_FILE && '\0' !in text
    case Folder(kids) => forall m :: 0 <= m < |kids| ==> PlainKid(kids[m].0) && Plain(kids[m].1)
  }

  predicate PlainKid(name: string) { name != "" && '/' !in name && '\\' !in name && |name| < MAX_NAME }

  lemma PlainIff(name: string)
    ensures PlainKid(name) <==> !Refused(name) && |name| < MAX_NAME
  {
  }

  /** The nodes of the outline. */
  ghost function Nodes(doc: Doc): nat
    decreases doc, 1, 0
  {
    match doc
    case File(_) => 1
    case Folder(kids) => 1 + NodesOf(doc, |kids|)
  }

  ghost function NodesOf(doc: Doc, m: nat): nat
    requires doc.Folder? && m <= |doc.kids|
    decreases doc, 0, m
  {
    if m == 0 then 0 else NodesOf(doc, m - 1) + Nodes(doc.kids[m - 1].1)
  }

  /** The blocks of the copy: texts, and for each directory its entries, sixteen to a block, "." and ".." included. */
  ghost function Blocks(doc: Doc): nat
    decreases doc, 1, 0
  {
    match doc
    case File(text) => TextNeeds(|text|)
    case Folder(kids) => EntryBlocks(|kids|) + BlocksOf(doc, |kids|)
  }

  ghost function BlocksOf(doc: Doc, m: nat): nat
    requires doc.Folder? && m <= |doc.kids|
    decreases doc, 0, m
  {
    if m == 0 then 0 else BlocksOf(doc, m - 1) + Blocks(doc.kids[m - 1].1)
  }

  function EntryBlocks(kids: nat): nat { (kids + 2 + PER_BLOCK - 1) / PER_BLOCK }

  lemma EntryBlocksNext(m: nat)
    ensures EntryBlocks(0) == 1 && EntryBlocks(m + 1) == EntryBlocks(m) + KidSpot(m).needs
  {
  }

  lemma {:induction false} SumsGrow(doc: Doc, m: nat, k: nat)
    requires doc.Folder? && m <= k <= |doc.kids|
    ensures NodesOf(doc, m) <= NodesOf(doc, k) && BlocksOf(doc, m) <= BlocksOf(doc, k) && EntryBlocks(m) <= EntryBlocks(k)
    decreases k - m
  {
    if m < k {
      SumsGrow(doc, m, k - 1);
      EntryBlocksNext(k - 1);
    }
  }

  /**
   A copy succeeds if and only if the name is not refused and not taken, the target
   has a free slot and, for a directory, lets the user make one, the outline is plain,
   and there are inodes for its nodes and blocks for its texts and entries. It has then
   taken just those.
   */
  lemma {:induction false} CopiedIff(spot: Spot, name: string, doc: Doc, blocks: nat, inodes: nat)
    ensures
      var course := PlanCopy(spot, name, doc, blocks, inodes);
      && (course.Lands? <==>
            && PlainKid(name) && !spot.taken && !spot.full && (doc.Folder? ==> spot.may)
            && Plain(doc) && Nodes(doc) <= inodes && spot.needs + Blocks(doc) <= blocks)
      && (course.Lands? ==> course.inodes == inodes - Nodes(doc) && course.blocks == blocks - spot.needs - Blocks(doc))
    decreases doc, 1, 0
  {
    hide Refused, TextNeeds, EntryBlocks, PlainKid;
    PlainIff(name);
    match doc
    case File(_) =>
    case Folder(kids) =>
      EntryBlocksNext(0);
      SumsGrow(doc, 0, |kids|);
      if inodes > 0 && blocks >= spot.needs + 1 { KidsCopiedIff(doc, 0, blocks - spot.needs - 1, inodes - 1); }
  }

  lemma {:induction false} KidsCopiedIff(doc: Doc, m: nat, blocks: nat, inodes: nat)
    requires doc.Folder? && m <= |doc.kids|
    ensures
      var k := |doc.kids|;
      var course := PlanKids(doc, m, blocks, inodes);
      && NodesOf(doc, m) <= NodesOf(doc, k) && BlocksOf(doc, m) <= BlocksOf(doc, k) && EntryBlocks(m) <= EntryBlocks(k)
      && (course.Lands? <==>
            && (forall j :: m <= j < k ==> PlainKid(doc.kids[j].0) && Plain(doc.kids[j].1))
            && NodesOf(doc, k) - NodesOf(doc, m) <= inodes
            && EntryBlocks(k) - EntryBlocks(m) + BlocksOf(doc, k) - BlocksOf(doc, m) <= blocks)
      && (course.Lands? ==>
            && course.inodes == inodes - (NodesOf(doc, k) - NodesOf(doc, m))
            && course.blocks == blocks - (EntryBlocks(k) - EntryBlocks(m)) - (BlocksOf(doc, k) - BlocksOf(doc, m)))
    decreases doc, 0, |doc.kids| - m
  {
    hide PlanCopy, Plain, Nodes, Blocks, EntryBlocks, Refused, PlainKid;
    SumsGrow(doc, m, |doc.kids|);
    if m < |doc.kids| {
      EntryBlocksNext(m);
      SumsGrow(doc, m + 1, |doc.kids|);
      CopiedIff(KidSpot(m), doc.kids[m].0, doc.kids[m].1, blocks, inodes);
      match PlanCopy(KidSpot(m), doc.kids[m].0, doc.kids[m].1, blocks, inodes)
      case Fails(_) =>
      case Lands(b, i) => KidsCopiedIff(doc, m + 1, b, i);
    }
  }

  /** Names in the outline of a tree are short. */
  ghost predicate ShortNames(doc: Doc) {
    match doc
    case File(_) => true
    case Folder(kids) => forall m :: 0 <= m < |kids| ==> |kids[m].0| < MAX_NAME && ShortNames(kids[m].1)
  }

  /**
   Which name draws which refusal: Exists is answered exactly for a name that is not
   refused and is taken, and where the outline's names are short NameTooLong exactly for
   the name itself. InvalidName is answered for the name itself, and else only for a name
   below it.
   */
  lemma {:induction false} NameAnswers(spot: Spot, name: string, doc: Doc, blocks: nat, inodes: nat)
    ensures
      var course := PlanCopy(spot, name, doc, blocks, inodes);
      && (course == Fails(Exists) <==> !Refused(name) && |name| < MAX_NAME && spot.taken)
      && (ShortNames(doc) ==> (course == Fails(NameTooLong) <==> !Refused(name) && |name| >= MAX_NAME))
      && (Refused(name) ==> course == Fails(InvalidName))
      && (course == Fails(InvalidName) ==> Refused(name) || !Plain(doc))
      && course != Fails(Copied) && course != Fails(LocateFailed) && course != Fails(ReadFailed)
    decreases doc, 1, 0
  {
    hide Refused, TextNeeds;
    match doc
    case File(_) =>
    case Folder(kids) =>
      if inodes > 0 && blocks >= spot.needs + 1 { KidsNameAnswers(doc, 0, blocks - spot.needs - 1, inodes - 1); }
  }

  lemma {:induction false} KidsNameAnswers(doc: Doc, m: nat, blocks: nat, inodes: nat)
    requires doc.Folder? && m <= |doc.kids|
    ensures
      var course := PlanKids(doc, m, blocks, inodes);
      && course != Fails(Exists) && (ShortNames(doc) ==> course != Fails(NameTooLong))
      && (course == Fails(InvalidName) ==> !Plain(doc))
      && course != Fails(Copied) && course != Fails(LocateFailed) && course != Fails(ReadFailed)
    decreases doc, 0, |doc.kids| - m
  {
    hide PlanCopy, Refused;
    if m < |doc.kids| {
      PlainIff(doc.kids[m].0);
      NameAnswers(KidSpot(m), doc.kids[m].0, doc.kids[m].1, blocks, inodes);
      match PlanCopy(KidSpot(m), doc.kids[m].0, doc.kids[m].1, blocks, inodes)
      case Fails(_) =>
      case Lands(b, i) => KidsNameAnswers(doc, m + 1, b, i);
    }
  }

  // ---------------------------------------------------------------------
  // The place a copy goes to
  // ---------------------------------------------------------------------

  /** What the state says of directory `d` as the target for a name. */
  function SpotOf(s: State, who: Session, d: int, name: string): Spot {
    var n := INodeAt(s.img.inodes, d);
    if |n.direct| != DIRECT then Spot(true, true, false, 0)
    else
      var h := FirstHole(Slots(s.img.blocks, n.direct), 0);
      Spot(FindChild(s.img, d, name) != -1, h == SLOTS, MayMakeDir(who, n), if h < SLOTS then EntryNeeds(n, h) else 0)
  }

  /** The plan of a copy from the state before it. */
  function PlanAt(s: State, who: Session, tgt: int, name: string, doc: Doc): Course {
    PlanCopy(SpotOf(s, who, tgt, name), name, doc, s.super.freeBlocks, s.super.freeInodes)
  }

  /** After a copy that succeeded: what the plan says is left, and the one pointer the target may have gained. */
  ghost predicate Took(s: State, s': State, d: int, course: Course) {
    match course
    case Fails(_) => false
    case Lands(blocks, inodes) =>
      && s'.super.freeBlocks == blocks && s'.super.freeInodes == inodes && EntryTook(s, s', d)
  }

  /** Directory `d` has gained a pointer at most: that of the block its first free slot lies in. */
  ghost predicate EntryTook(s: State, s': State, d: int) {
    match INodeAt(s.img.inodes, d)
    case n =>
      && |n.direct| == DIRECT && |INodeAt(s'.img.inodes, d).direct| == DIRECT
      && (var h := FirstHole(Slots(s.img.blocks, n.direct), 0);
          && h < SLOTS
          && forall k :: 0 <= k < DIRECT ==>
               (INodeAt(s'.img.inodes, d).direct[k] == -1 <==> n.direct[k] == -1 && k != h / PER_BLOCK))
  }

  ghost predicate SamePointers(s: State, s': State, d: int) {
    match INodeAt(s.img.inodes, d)
    case n =>
      && |n.direct| == DIRECT && |INodeAt(s'.img.inodes, d).direct| == DIRECT
      && forall k :: 0 <= k < DIRECT ==> (INodeAt(s'.img.inodes, d).direct[k] == -1 <==> n.direct[k] == -1)
  }

  lemma TookThen(s: State, s1: State, s2: State, d: int)
    requires EntryTook(s, s1, d) && SamePointers(s1, s2, d)
    ensures EntryTook(s, s2, d)
  {
  }

  lemma SameThen(s: State, s1: State, s2: State, d: int)
    requires SamePointers(s, s1, d) && SamePointers(s1, s2, d)
    ensures SamePointers(s, s2, d)
  {
  }

  /** A node other than the target keeps its pointers while the tree grows. */
  lemma PointersStay(s: State, c: Cert, s': State, c': Cert, tgt: int, j: int)
    requires TreeInv(s, c) && GrownAt(s, c, s', c', tgt) && j in c.place && j != tgt
    ensures SamePointers(s, s', j)
  {
    hide TreeInv, DiskInv, DirOk, FileOk, ViewOf, Placed;
    Reached(s, c, j);
    assert j in c'.place;
    Reached(s', c', j);
    var direct, direct' := INodeAt(s.img.inodes, j).direct, INodeAt(s'.img.inodes, j).direct;
    forall k | 0 <= k < DIRECT ensures direct'[k] == -1 <==> direct[k] == -1 {
      if direct[k] != -1 {
        assert OwnedBy(s, c, direct[k], j, k);
        Owner(s', c', direct[k]);
      }
      if direct'[k] != -1 {
        assert OwnedBy(s', c', direct'[k], j, k);
        assert direct'[k] in c.owner;
        Owner(s, c, direct'[k]);
      }
    }
  }

  // ---------------------------------------------------------------------
  // One MakeDir, one Create
  // ---------------------------------------------------------------------

  /** The pointers after a MakeDir: the new directory has its first block only. */
  lemma MakeDirPointers(s: State, who: Session, d: int, name: string)
    requires |s.super.stack| == GROUP && |INodeAt(s.img.inodes, d).direct| == DIRECT
    requires MakeDir(s, who, d, name).1 && NewINode(s, d) != d
    ensures
      var s' := MakeDir(s, who, d, name).0;
      var direct := INodeAt(s'.img.inodes, NewINode(s, d)).direct;
      EntryTook(s, s', d) && |direct| == DIRECT && forall k :: 0 <= k < DIRECT ==> (direct[k] == -1 <==> k > 0)
  {
    hide AllocBlock, AllocINode, EntryBlock, Taken, MayMakeDir, Slots, Around, FirstHole;
    var n := INodeAt(s.img.inodes, d);
    var h := FirstHole(Slots(s.img.blocks, n.direct), 0);
    BlockOf(s, n, h);
  }

  lemma BlockOf(s: State, n: INode, h: int)
    requires |s.super.stack| == GROUP && 0 <= h < SLOTS && |n.direct| == DIRECT
    ensures n.direct[h / PER_BLOCK] != -1 ==> EntryBlock(s, n, h).1 == n.direct[h / PER_BLOCK]
  {
  }

  lemma CreatePointers(s: State, who: Session, d: int, name: string, buf: seq<char>, junk: int)
    requires |s.super.stack| == GROUP && |INodeAt(s.img.inodes, d).direct| == DIRECT && TextBuffer(buf)
    requires Create(s, who, d, name, buf, junk).1
    ensures EntryTook(s, Create(s, who, d, name, buf, junk).0, d)
  {
    hide AllocBlock, AllocINode, EntryBlock, Taken, Slots, Around, FirstHole, StoreText, StrLen, WithJunk;
    var n := INodeAt(s.img.inodes, d);
    var h := FirstHole(Slots(s.img.blocks, n.direct), 0);
    BlockOf(s, n, h);
  }

  /** The answer of CopyFile to a name that is neither refused nor taken. */
  lemma FileCourse(s: State, c: Cert, who: Session, src: int, tgt: int, name: string, text: string)
    requires CanCopy(s, c, src, tgt) && PlainKid(name) && FindChild(s.img, tgt, name) == -1
    requires |text| <= MAX_FILE && '\0' !in text
    ensures TextBuffer(ZeroPadded(text)) && |s.super.stack| == GROUP && |INodeAt(s.img.inodes, tgt).direct| == DIRECT
    ensures
      var (s', ok) := Create(s, who, tgt, name, ZeroPadded(text), -1);
      var course := PlanAt(s, who, tgt, name, File(text));
      && (ok ==> Took(s, s', tgt, course) && course.Lands?) && (!ok ==> course == Fails(CreateFailed))
  {
    hide TreeInv, DiskInv, Create, ZeroPadded, Slots, EntryTook, FindChild, Taken, EntryNeeds, TextNeeds, FirstHole, MayMakeDir, Refused,
      StrLen, ChildNamed, Below;
    PaddedText(text);
    PlainIff(name);
    TargetReady(s, c, src, tgt);
    CreateSucceedsIff(s, c, who, tgt, name, ZeroPadded(text), -1);
    NotTaken(s, c, tgt, name, FirstHole(Slots(s.img.blocks, INodeAt(s.img.inodes, tgt).direct), 0));
    if Create(s, who, tgt, name, ZeroPadded(text), -1).1 { CreatePointers(s, who, tgt, name, ZeroPadded(text), -1); }
  }

  lemma NotTaken(s: State, c: Cert, d: int, name: string, h: int)
    requires TreeInv(s, c) && d in c.place && IsDir(INodeAt(s.img.inodes, d)) && |INodeAt(s.img.inodes, d).direct| == DIRECT
    requires PlainKid(name) && FindChild(s.img, d, name) == -1
    ensures !Taken(s.img.blocks, INodeAt(s.img.inodes, d).direct, name, h)
    ensures !Taken(s.img.blocks, INodeAt(s.img.inodes, d).direct, name, -1)
  {
    hide TreeInv, Slots, ChildNamed;
    TakenIff(s, c, d, name);
  }

  /** A directory the user has just made, with `m` of the children in it. */
  ghost predicate Open(s: State, d: int, who: Session, kids: seq<(string, Doc)>, m: nat) {
    match INodeAt(s.img.inodes, d)
    case n =>
      && m <= |kids| && |kids| + 2 <= SLOTS && |n.direct| == DIRECT && AttrOf(n) == Attr(DIR_MODE, who.user, who.group)
      && (forall k :: 0 <= k < DIRECT ==> (n.direct[k] == -1 <==> k > (m + 1) / PER_BLOCK))
      && OpenSlots(Slots(s.img.blocks, n.direct), kids, m)
  }

  ghost predicate OpenSlots(slots: seq<Entry>, kids: seq<(string, Doc)>, m: nat) {
    && |slots| == SLOTS && m <= |kids| && |kids| + 2 <= SLOTS
    && slots[0].name == "." && slots[1].name == ".."
    && (forall t :: 2 <= t < m + 2 ==> slots[t].name == kids[t - 2].0)
    && (forall t :: m + 2 <= t < SLOTS ==> slots[t].name == "")
  }

  /** The answer of MakeDir in CopyDirectory. */
  lemma DirCourse(s: State, c: Cert, c1: Cert, who: Session, src: int, tgt: int, name: string, doc: Doc)
    requires CanCopy(s, c, src, tgt) && PlainKid(name) && FindChild(s.img, tgt, name) == -1
    requires doc.Folder? && |doc.kids| + 2 <= SLOTS && tgt in c.place
    ensures |s.super.stack| == GROUP && |INodeAt(s.img.inodes, tgt).direct| == DIRECT
    ensures
      var (s1, ok) := MakeDir(s, who, tgt, name);
      var course := PlanAt(s, who, tgt, name, doc);
      && (!ok ==> course == Fails(MakeDirFailed))
      && (ok && DirMade(s, s1, c, c1, who, tgt, name, NewINode(s, tgt)) ==>
            && course == PlanKids(doc, 0, s1.super.freeBlocks, s1.super.freeInodes)
            && EntryTook(s, s1, tgt) && Open(s1, NewINode(s, tgt), who, doc.kids, 0))
  {
    hide TreeInv, DiskInv, MakeDir, Slots, EntryTook, FindChild, Taken, EntryNeeds, TextNeeds, FirstHole, MayMakeDir, Refused,
      ChildNamed, Below, DirMade, NewINode, Open;
    PlainIff(name);
    TargetReady(s, c, src, tgt);
    MakeDirSucceedsIff(s, c, who, tgt, name);
    NotTaken(s, c, tgt, name, -1);
    var (s1, ok) := MakeDir(s, who, tgt, name);
    if ok && DirMade(s, s1, c, c1, who, tgt, name, NewINode(s, tgt)) { FreshOpen(s, c, c1, who, tgt, name, doc.kids); }
  }

  lemma FreshOpen(s: State, c: Cert, c1: Cert, who: Session, tgt: int, name: string, kids: seq<(string, Doc)>)
    requires |s.super.stack| == GROUP && |INodeAt(s.img.inodes, tgt).direct| == DIRECT && tgt in c.place
    requires MakeDir(s, who, tgt, name).1 && DirMade(s, MakeDir(s, who, tgt, name).0, c, c1, who, tgt, name, NewINode(s, tgt))
    requires |kids| + 2 <= SLOTS
    ensures
      var s1 := MakeDir(s, who, tgt, name).0;
      EntryTook(s, s1, tgt) && Open(s1, NewINode(s, tgt), who, kids, 0)
  {
    hide MakeDir, NewINode, Added, Grew, GainedAt, Slots, EntryTook;
    MakeDirPointers(s, who, tgt, name);
    var s1, i := MakeDir(s, who, tgt, name).0, NewINode(s, tgt);
    ViewSlots(s1, i);
    assert forall t :: 2 <= t < SLOTS ==> FreshSlots(i, tgt)[t].name == "";
  }

  lemma ViewSlots(s: State, d: int)
    requires ViewOf(s.img, d).DirView?
    ensures
      var n := INodeAt(s.img.inodes, d);
      |n.direct| == DIRECT && ViewOf(s.img, d) == DirView(AttrOf(n), Slots(s.img.blocks, n.direct))
  {
  }

  // ---------------------------------------------------------------------
  // The loop over the children
  // ---------------------------------------------------------------------

  ghost predicate DistinctKids(kids: seq<(string, Doc)>) { forall a, b :: 0 <= a < b < |kids| ==> kids[a].0 != kids[b].0 }

  /** The next child finds the directory as the plan says. */
  lemma OpenSpot(s: State, d: int, who: Session, kids: seq<(string, Doc)>, m: nat)
    requires Open(s, d, who, kids, m) && m < |kids| && KidName(kids[m].0) && DistinctKids(kids)
    requires forall j :: 0 <= j < |kids| ==> KidName(kids[j].0)
    ensures SpotOf(s, who, d, kids[m].0) == KidSpot(m)
  {
    hide Slots, MayMakeDir, KidName;
    var n := INodeAt(s.img.inodes, d);
    var slots := Slots(s.img.blocks, n.direct);
    KidNames(kids);
    var h := FirstHole(slots, 0);
    assert slots[m + 2].name == "";
    assert h == m + 2;
    OwnMakes(who, n);
  }

  lemma KidNames(kids: seq<(string, Doc)>)
    requires forall j :: 0 <= j < |kids| ==> KidName(kids[j].0)
    ensures forall j :: 0 <= j < |kids| ==> kids[j].0 != "" && kids[j].0 != "." && kids[j].0 != ".."
  {
  }

  lemma OwnMakes(who: Session, n: INode)
    requires AttrOf(n) == Attr(DIR_MODE, who.user, who.group)
    ensures MayMakeDir(who, n)
  {
    assert Pow2(0) == 1 && Pow2(1) == 2 && Pow2(2) == 4 && Pow2(3) == 8 && Pow2(4) == 16;
    assert Pow2(5) == 32 && Pow2(6) == 64 && Pow2(7) == 128 && Pow2(8) == 256;
  }

  /** One more child in it. */
  lemma OpenNext(s1: State, c1: Cert, s2: State, c2: Cert, d: int, who: Session, kids: seq<(string, Doc)>, m: nat, i: int, doc: Doc)
    requires Open(s1, d, who, kids, m) && m < |kids| && EntryTook(s1, s2, d)
    requires ClonedAt(s1, c1, s2, c2, d, kids[m].0, i, doc) && forall j :: 0 <= j < |kids| ==> KidName(kids[j].0)
    ensures Open(s2, d, who, kids, m + 1)
  {
    hide Slots, KidName, GrownAt, DocOf, LeakFree;
    KidNames(kids);
    var n := INodeAt(s1.img.inodes, d);
    var slots := Slots(s1.img.blocks, n.direct);
    ViewIsSlots(s1, d, who);
    assert slots[m + 2].name == "" && FirstHole(slots, 0) == m + 2;
    ViewSlots(s2, d);
    assert (m + 2) / PER_BLOCK <= (m + 1) / PER_BLOCK + 1;
  }

  lemma ViewIsSlots(s: State, d: int, who: Session)
    requires |INodeAt(s.img.inodes, d).direct| == DIRECT && AttrOf(INodeAt(s.img.inodes, d)) == Attr(DIR_MODE, who.user, who.group)
    ensures ViewOf(s.img, d) == DirView(Attr(DIR_MODE, who.user, who.group), Slots(s.img.blocks, INodeAt(s.img.inodes, d).direct))
  {
  }

  /** The children of a directory of the tree have different names, and leave room for "." and "..". */
  lemma SourceKids(s: State, c: Cert, src: int)
    requires TreeInv(s, c) && Placed(c) && src in c.place && src != ROOT && IsDir(INodeAt(s.img.inodes, src))
    ensures
      var doc := DocOf(s, c, src);
      && doc.Folder? && DistinctKids(doc.kids) && |doc.kids| + 2 <= SLOTS
      && forall j :: 0 <= j < |doc.kids| ==> KidName(doc.kids[j].0)
  {
    hide TreeInv, DirOk, NamesDistinct, LeadsTo, Source, KidName, Listed, Slots, RealChild;
    ReachedDir(s, c, src);
    SourceListed(s, c, src);
    var slots := SlotsAt(s, src);
    var list := Listed(slots, SLOTS);
    SourceNames(s, c, src, list, DocOf(s, c, src));
    DotsFirst(c, src, INodeAt(s.img.inodes, src).cnt, slots);
    ListedDistinct(slots, SLOTS);
  }

  lemma SourceNames(s: State, c: Cert, src: int, list: seq<Entry>, doc: Doc)
    requires Source(s, c, src, list, doc)
    ensures doc.Folder? && |doc.kids| == |list|
    ensures forall m :: 0 <= m < |list| ==> doc.kids[m].0 == list[m].name && KidName(list[m].name)
  {
  }

  lemma DotsFirst(c: Cert, d: int, cnt: nat, slots: seq<Entry>)
    requires d in c.place && d != ROOT && |slots| == SLOTS && DirOk(c, d, cnt, slots)
    ensures NamesDistinct(slots) && !RealChild(slots[0]) && !RealChild(slots[1])
  {
  }

  /** Listed names are names of slots in use. */
  lemma {:induction false} ListedFrom(slots: seq<Entry>, t: nat, m: nat) returns (u: nat)
    requires t <= |slots| && m < |Listed(slots, t)|
    ensures u < t && slots[u] == Listed(slots, t)[m] && RealChild(slots[u])
    decreases t
  {
    if RealChild(slots[t - 1]) && m == |Listed(slots, t)| - 1 {
      u := t - 1;
    } else {
      u := ListedFrom(slots, t - 1, m);
    }
  }

  /** Where the names of slots differ, so do the listed ones. */
  lemma {:induction false} ListedDistinct(slots: seq<Entry>, t: nat)
    requires NamesDistinct(slots) && t <= |slots|
    ensures forall a, b :: 0 <= a < b < |Listed(slots, t)| ==> Listed(slots, t)[a].name != Listed(slots, t)[b].name
    ensures |slots| >= 2 && !RealChild(slots[0]) && !RealChild(slots[1]) ==> |Listed(slots, t)| + 2 <= (if t < 2 then 2 else t)
    decreases t
  {
    if t > 0 {
      ListedDistinct(slots, t - 1);
      var before, last := Listed(slots, t - 1), slots[t - 1];
      forall a | 0 <= a < |before| ensures before[a].name != last.name {
        var u := ListedFrom(slots, t - 1, a);
      }
    }
  }

  /** The names and texts of a tree's outline are short. */
  lemma {:induction false} TreeShort(s: State, c: Cert, i: int)
    requires TreeInv(s, c) && Placed(c) && i in c.place
    ensures ShortNames(DocOf(s, c, i))
    decreases c.maxDepth - c.place[i].depth
  {
    hide TreeInv, KidName, DocOf, Source, RealChild, Slots, NodeOk;
    if IsDir(INodeAt(s.img.inodes, i)) {
      ReachedDir(s, c, i);
      SourceListed(s, c, i);
      var list := Listed(SlotsAt(s, i), SLOTS);
      ShortKids(s, c, i, list, DocOf(s, c, i));
      forall m | 0 <= m < |list| ensures |DocOf(s, c, i).kids[m].0| < MAX_NAME && ShortNames(DocOf(s, c, i).kids[m].1) {
        TreeShort(s, c, list[m].ino);
      }
    } else {
      FileIsFile(s, c, i);
    }
  }

  lemma ShortKids(s: State, c: Cert, i: int, list: seq<Entry>, doc: Doc)
    requires Source(s, c, i, list, doc)
    ensures doc.Folder? && |doc.kids| == |list| && Placed(c) && i in c.place
    ensures forall m :: 0 <= m < |list| ==>
      && list[m].ino in c.place && c.place[i].depth < c.place[list[m].ino].depth <= c.maxDepth
      && |doc.kids[m].0| < MAX_NAME && doc.kids[m].1 == DocOf(s, c, list[m].ino)
  {
    hide DocOf;
  }

  lemma FileIsFile(s: State, c: Cert, i: int)
    requires TreeInv(s, c) && Placed(c) && i in c.place && !IsDir(INodeAt(s.img.inodes, i))
    ensures DocOf(s, c, i).File? && |DocOf(s, c, i).text| <= MAX_FILE
    ensures DocOf(s, c, i).text == FileText(s.img.blocks, INodeAt(s.img.inodes, i))
  {
    hide TreeInv, FileText;
    Reached(s, c, i);
    FileTextIsView(s, c, i);
  }

  // ---------------------------------------------------------------------
  // Bundled for the methods
  // ---------------------------------------------------------------------

  /** The directory copy before child `m`: the directory is open, and what is left of the plan starts here. */
  ghost predicate OnCourse(s0: State, s: State, d: int, tgt: int, who: Session, doc: Doc, m: nat) {
    match doc
    case File(_) => false
    case Folder(kids) =>
      && m <= |kids| && Open(s, d, who, kids, m) && SamePointers(s0, s, tgt) && DistinctKids(kids)
      && (forall j :: 0 <= j < |kids| ==> KidName(kids[j].0))
      && PlanKids(doc, 0, s0.super.freeBlocks, s0.super.freeInodes) == PlanKids(doc, m, s.super.freeBlocks, s.super.freeInodes)
  }

  lemma CourseStarts(s0: State, s: State, d: int, tgt: int, who: Session, doc: Doc)
    requires doc.Folder? && Open(s, d, who, doc.kids, 0) && DistinctKids(doc.kids) && EntryTook(s0, s, tgt)
    requires forall j :: 0 <= j < |doc.kids| ==> KidName(doc.kids[j].0)
    ensures OnCourse(s, s, d, tgt, who, doc, 0)
  {
    hide Open, KidName;
  }

  /** A child that fails ends the plan with its answer. */
  lemma CourseFails(s0: State, s: State, d: int, tgt: int, who: Session, doc: Doc, m: nat, name: string, kid: Doc, r: CopyResult)
    requires OnCourse(s0, s, d, tgt, who, doc, m) && doc.Folder? && m < |doc.kids| && doc.kids[m] == (name, kid)
    requires r == ResultOf(PlanAt(s, who, d, name, kid)) && r != Copied
    ensures r == ResultOf(PlanKids(doc, 0, s0.super.freeBlocks, s0.super.freeInodes))
  {
    hide Open, KidName, DistinctKids, PlanCopy, SpotOf, SamePointers;
    OpenSpot(s, d, who, doc.kids, m);
  }

  /** A child that is copied brings the plan one step on. */
  lemma CourseNext(s0: State, s1: State, c1: Cert, s2: State, c2: Cert, d: int, tgt: int, who: Session, doc: Doc, m: nat,
                   name: string, kid: Doc, i: int)
    requires OnCourse(s0, s1, d, tgt, who, doc, m) && doc.Folder? && m < |doc.kids| && doc.kids[m] == (name, kid)
    requires TreeInv(s1, c1) && tgt in c1.place && tgt != d && ClonedAt(s1, c1, s2, c2, d, name, i, kid)
    requires Took(s1, s2, d, PlanAt(s1, who, d, name, kid))
    ensures OnCourse(s0, s2, d, tgt, who, doc, m + 1)
  {
    hide Open, KidName, DistinctKids, PlanCopy, SpotOf, SamePointers, TreeInv, EntryTook, GrownAt, TargetHas, DocOf;
    OpenSpot(s1, d, who, doc.kids, m);
    OpenNext(s1, c1, s2, c2, d, who, doc.kids, m, i, kid);
    PointersStay(s1, c1, s2, c2, d, tgt);
    SameThen(s0, s1, s2, tgt);
  }

  lemma CourseEnds(s0: State, s: State, d: int, tgt: int, who: Session, doc: Doc, m: nat)
    requires OnCourse(s0, s, d, tgt, who, doc, m) && doc.Folder? && m == |doc.kids|
    ensures PlanKids(doc, 0, s0.super.freeBlocks, s0.super.freeInodes) == Lands(s.super.freeBlocks, s.super.freeInodes)
    ensures ResultOf(PlanKids(doc, 0, s0.super.freeBlocks, s0.super.freeInodes)) == Copied
    ensures SamePointers(s0, s, tgt)
  {
    hide Open, KidName, DistinctKids, SamePointers;
  }

  /** Where CopyChildren stands: the child to copy next is the outline's. */
  lemma LoopKid(s: State, c: Cert, s1: State, c1: Cert, src: int, tgt: int, name: string, n: int, list: seq<Entry>, doc: Doc, m: nat)
    requires CopyLoop(s, c, s1, c1, src, tgt, name, n, list, doc, m)
    ensures doc.Folder? && |doc.kids| == |list| && (m < |list| ==> doc.kids[m] == (list[m].name, doc.kids[m].1))
    ensures TreeInv(s1, c1) && tgt in c1.place && tgt != n
  {
    hide TreeInv, DiskInv, DocOf, LeadsTo, Holds;
    assert tgt in c.place;
  }

  /** What the first checks of CopyRecursive see. */
  lemma SpotTaken(s: State, c: Cert, who: Session, src: int, tgt: int, name: string)
    requires CanCopy(s, c, src, tgt)
    ensures SpotOf(s, who, tgt, name).taken <==> FindChild(s.img, tgt, name) != -1
  {
    hide TreeInv, DiskInv, Below;
    TargetReady(s, c, src, tgt);
  }

  /** What CopyFile reads of a file of the tree is the outline's text. */
  lemma SourceText(s: State, c: Cert, who: Session, src: int, tgt: int, name: string)
    requires CanCopy(s, c, src, tgt) && Placed(c) && src in c.place && !IsDir(INodeAt(s.img.inodes, src))
    requires PlainKid(name) && FindChild(s.img, tgt, name) == -1
    ensures
      var text := FileText(s.img.blocks, INodeAt(s.img.inodes, src));
      && DocOf(s, c, src) == File(text) && |text| <= MAX_FILE && INodeAt(s.img.inodes, src).size == |text| && name != ""
      && ('\0' in text ==> PlanAt(s, who, tgt, name, File(text)) == Fails(NotText))
  {
    hide TreeInv, DiskInv, Below, FileText, FindChild;
    TargetReady(s, c, src, tgt);
    FileIsFile(s, c, src);
    FileTextIsView(s, c, src);
  }

  lemma SourceFits(s: State, c: Cert, src: int, tgt: int, name: string)
    requires CanCopy(s, c, src, tgt) && Placed(c) && src in c.place && IsDir(INodeAt(s.img.inodes, src)) && PlainKid(name)
    ensures
      var doc := DocOf(s, c, src);
      && doc.Folder? && DistinctKids(doc.kids) && |doc.kids| + 2 <= SLOTS && name != ""
      && forall j :: 0 <= j < |doc.kids| ==> KidName(doc.kids[j].0)
  {
    hide TreeInv, DiskInv, Below, KidName, DocOf;
    NotRoot(c, src, tgt);
    SourceKids(s, c, src);
  }

  /** Everything is below the root. */
  lemma {:induction false} NotRoot(c: Cert, src: int, tgt: int)
    requires Placed(c) && tgt in c.place && !Below(c, tgt, src)
    ensures src != ROOT
    decreases c.place[tgt].depth
  {
    if tgt != ROOT { NotRoot(c, src, c.place[tgt].parent); }
  }

  lemma CourseTook(s: State, s1: State, s2: State, tgt: int, who: Session, name: string, doc: Doc)
    requires doc.Folder? && EntryTook(s, s1, tgt) && SamePointers(s1, s2, tgt)
    requires PlanAt(s, who, tgt, name, doc) == PlanKids(doc, 0, s1.super.freeBlocks, s1.super.freeInodes)
    requires PlanKids(doc, 0, s1.super.freeBlocks, s1.super.freeInodes) == Lands(s2.super.freeBlocks, s2.super.freeInodes)
    ensures Took(s, s2, tgt, PlanAt(s, who, tgt, name, doc))
  {
    hide PlanAt, PlanKids, EntryTook, SamePointers;
    TookThen(s, s1, s2, tgt);
  }
}
