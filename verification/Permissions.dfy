/**
 Chmod (src/filesystem_permissions.cpp): the permission bits of one child are
 replaced, and nothing else; an argument that reaches the type bit can make a file
 a directory.
 */
module Permissions {
  import opened Disk
  import opened Allocator
  import opened Tree
  import opened INodes
  import opened Directories
  import opened MakeDirectory
  import opened DeleteFile
  import opened Subtree
  import opened Resolve
  import opened BadNames

  /** The type bit; below it are the permission bits. */
  const TYPE_BIT: int := 512

  predicate Carries(blocks: map<int, Block>, direct: seq<int>, name: string, t: int)
    requires |direct| == DIRECT && 0 <= t < SLOTS
  {
    direct[t / PER_BLOCK] != -1 && Slots(blocks, direct)[t].name == name
  }

  /** The first slot of an allocated block, at or after `t`, with the name. */
  function FindSlot(blocks: map<int, Block>, direct: seq<int>, name: string, t: nat): (h: nat)
    requires |direct| == DIRECT && t <= SLOTS
    ensures t <= h <= SLOTS
    ensures h < SLOTS ==> Carries(blocks, direct, name, h)
    ensures forall u :: t <= u < h ==> !Carries(blocks, direct, name, u)
    decreases SLOTS - t, direct
  {
    if t == SLOTS || Carries(blocks, direct, name, t) then t else FindSlot(blocks, direct, name, t + 1)
  }

  /** Bitwise or. */
  function Or(a: nat, b: nat): nat
    decreases a + b
  {
    if a == 0 && b == 0 then 0 else (if a % 2 == 1 || b % 2 == 1 then 1 else 0) + 2 * Or(a / 2, b / 2)
  }

  /** The mode is an unsigned short, so the cast of the result drops the higher bits of the argument. */
  function WithPermissions(mode: nat, permissions: nat): nat { Or(mode / TYPE_BIT * TYPE_BIT, permissions % 65536) }

  /** Permissions below the type bit make no directory, the type bit itself makes one of a file. */
  lemma Turns(n: INode, permissions: nat)
    ensures permissions < TYPE_BIT ==> !TurnsDir(n, permissions)
    ensures permissions == TYPE_BIT && !IsDir(n) ==> TurnsDir(n, permissions)
  {
  }

  lemma OrHalf(a: nat, b: nat)
    ensures Or(a, b) / 2 == Or(a / 2, b / 2) && (Or(a, b) % 2 == 1 <==> a % 2 == 1 || b % 2 == 1)
  {
  }

  lemma OrEighth(a: nat, b: nat)
    ensures Or(a, b) / 8 == Or(a / 8, b / 8)
  {
    hide Or;
    OrHalf(a, b);
    OrHalf(a / 2, b / 2);
    OrHalf(a / 4, b / 4);
    assert a / 2 / 2 / 2 == a / 8 && b / 2 / 2 / 2 == b / 8;
  }

  lemma OrHigh(a: nat, b: nat)
    ensures Or(a, b) / TYPE_BIT == Or(a / TYPE_BIT, b / TYPE_BIT)
  {
    hide Or;
    OrEighth(a, b);
    OrEighth(a / 8, b / 8);
    OrEighth(a / 64, b / 64);
    assert a / 8 / 8 / 8 == a / 512 && b / 8 / 8 / 8 == b / 512;
  }

  /** Below a multiple of `2^k` or is addition. */
  lemma {:induction false} OrAdds(q: nat, low: nat, k: nat)
    requires low < Pow2(k)
    ensures Or(Pow2(k) * q, low) == Pow2(k) * q + low
    decreases k
  {
    if k == 0 {
      OrNothing(q);
    } else {
      var u := Pow2(k - 1);
      assert Pow2(k) * q == 2 * (u * q);
      OrAdds(q, low / 2, k - 1);
      OrHalf(2 * (u * q), low);
    }
  }

  lemma {:induction false} OrNothing(q: nat)
    ensures Or(q, 0) == q
  {
    if q > 0 { OrNothing(q / 2); }
  }

  /** Permissions below the type bit replace the permission bits and nothing else. */
  lemma PermissionsReplaced(mode: nat, permissions: nat)
    requires permissions < TYPE_BIT
    ensures WithPermissions(mode, permissions) == mode / TYPE_BIT * TYPE_BIT + permissions
  {
    assert Pow2(9) == TYPE_BIT by {
      assert Pow2(0) == 1 && Pow2(1) == 2 && Pow2(2) == 4 && Pow2(3) == 8 && Pow2(4) == 16;
      assert Pow2(5) == 32 && Pow2(6) == 64 && Pow2(7) == 128 && Pow2(8) == 256;
    }
    OrAdds(mode / TYPE_BIT, permissions, 9);
  }

  /** The argument has the type bit and the node does not. */
  predicate TurnsDir(n: INode, permissions: nat) { !IsDir(n) && permissions % 65536 / TYPE_BIT % 2 == 1 }

  function Chmod(s: State, who: Session, d: int, name: string, permissions: nat): State
    requires |INodeAt(s.img.inodes, d).direct| == DIRECT
  {
    var direct := INodeAt(s.img.inodes, d).direct;
    var h := FindSlot(s.img.blocks, direct, name, 0);
    if name == "." || name == ".." || h == SLOTS then s
    else
      var i := Slots(s.img.blocks, direct)[h].ino;
      var n := INodeAt(s.img.inodes, i);
      if who.user != n.user && who.user != "root" then s
      else WriteINode(s, i, n.(mode := WithPermissions(n.mode, permissions)))
  }

  /** The node with other permission bits. */
  function Permitted(v: View, permissions: nat): View {
    match v
    case FileView(attr, text) => FileView(attr.(mode := WithPermissions(attr.mode, permissions)), text)
    case DirView(attr, slots) => DirView(attr.(mode := WithPermissions(attr.mode, permissions)), slots)
    case NoView => NoView
  }

  /** The node's type afterwards. */
  lemma SameType(n: INode, permissions: nat)
    ensures IsDir(n.(mode := WithPermissions(n.mode, permissions))) <==> IsDir(n) || TurnsDir(n, permissions)
  {
    var top := n.mode / TYPE_BIT;
    OrHigh(top * TYPE_BIT, permissions % 65536);
    OrHalf(top, permissions % 65536 / TYPE_BIT);
  }

  /** A node with other permission bits is as sound as it was. */
  lemma ModeNode(s: State, c: Cert, i: int, permissions: nat)
    requires NodeOk(s, c, i) && !TurnsDir(INodeAt(s.img.inodes, i), permissions)
    ensures
      var n := INodeAt(s.img.inodes, i);
      var s' := WriteINode(s, i, n.(mode := WithPermissions(n.mode, permissions)));
      && NodeOk(s', c, i) && ViewOf(s'.img, i) == Permitted(ViewOf(s.img, i), permissions)
  {
    var n := INodeAt(s.img.inodes, i);
    SameType(n, permissions);
    var s' := WriteINode(s, i, n.(mode := WithPermissions(n.mode, permissions)));
    forall k | 0 <= k < DIRECT && n.direct[k] != -1 ensures OwnedBy(s', c, n.direct[k], i, k) {
      assert OwnedBy(s, c, n.direct[k], i, k);
    }
  }

  lemma ModeKeeps(s: State, c: Cert, i: int, permissions: nat)
    requires TreeInv(s, c) && i in c.place && !TurnsDir(INodeAt(s.img.inodes, i), permissions)
    ensures
      var n := INodeAt(s.img.inodes, i);
      var s' := WriteINode(s, i, n.(mode := WithPermissions(n.mode, permissions)));
      && TreeInv(s', c) && ViewOf(s'.img, i) == Permitted(ViewOf(s.img, i), permissions)
      && forall j :: j in c.place && j != i ==> ViewOf(s'.img, j) == ViewOf(s.img, j)
  {
    hide NodeOk, ParentOk, OwnerOk, Slots, WithPermissions, IsDir, TurnsDir;
    var n := INodeAt(s.img.inodes, i);
    var s' := WriteINode(s, i, n.(mode := WithPermissions(n.mode, permissions)));
    SameType(n, permissions);
    forall j | j in c.place
      ensures NodeOk(s', c, j) && (j != i ==> ViewOf(s'.img, j) == ViewOf(s.img, j))
      ensures j == i ==> ViewOf(s'.img, i) == Permitted(ViewOf(s.img, i), permissions)
    {
      Reached(s, c, j);
      if j == i {
        ModeNode(s, c, i, permissions);
      } else {
        NodeFrame(s, c, s', c, j);
        ViewFrame(s, c, s', j);
      }
    }
    forall j | j in c.place && j != ROOT ensures ParentOk(s', c, j) {
      Hangs(s, c, j);
      ModeParent(s, c, s', i, j);
    }
    forall b | b in c.owner ensures OwnerOk(s', c, b) {
      Owner(s, c, b);
      ModeOwner(s, c, s', i, b);
    }
  }

  lemma ModeParent(s: State, c: Cert, s': State, i: int, j: int)
    requires j in c.place && ParentOk(s, c, j) && s'.img.blocks == s.img.blocks
    requires forall x :: IsDir(INodeAt(s'.img.inodes, x)) == IsDir(INodeAt(s.img.inodes, x))
    requires forall x :: INodeAt(s'.img.inodes, x).direct == INodeAt(s.img.inodes, x).direct
    ensures ParentOk(s', c, j)
  {
  }

  lemma ModeOwner(s: State, c: Cert, s': State, i: int, b: int)
    requires b in c.owner && OwnerOk(s, c, b)
    requires forall x :: INodeAt(s'.img.inodes, x).direct == INodeAt(s.img.inodes, x).direct
    ensures OwnerOk(s', c, b)
  {
  }

  /** The permission bits of child `i` of `d` were replaced; every other node looks as before. */
  ghost predicate ModeChanged(s: State, s': State, c: Cert, d: int, name: string, i: int, permissions: nat) {
    match c
    case Cert(place, _, _) =>
      && i in place && i != ROOT && place[i].parent == d
      && ViewOf(s'.img, i) == Permitted(ViewOf(s.img, i), permissions)
      && (forall j :: j in place && j != i ==> ViewOf(s'.img, j) == ViewOf(s.img, j))
      && s'.super == s.super && s'.inodeBits == s.inodeBits && s'.blockBits == s.blockBits && s'.img.blocks == s.img.blocks
  }

  /** The entry Chmod finds; an empty name finds a free slot. */
  ghost predicate Finds(s: State, d: int, name: string, i: int) {
    match INodeAt(s.img.inodes, d)
    case n =>
      && |n.direct| == DIRECT
      && (var h := FindSlot(s.img.blocks, n.direct, name, 0); h < SLOTS && Slots(s.img.blocks, n.direct)[h].ino == i)
  }

  /**
   Chmod changes nothing or replaces the permission bits of the child with the
   name, and tree and allocator stay sound, unless it makes a file a directory; an
   empty name can find a free slot and with it any inode address.
   */
  lemma ChmodKeeps(s: State, c: Cert, who: Session, d: int, name: string, permissions: nat) returns (i: int)
    requires DiskInv(s) && TreeInv(s, c) && d in c.place && IsDir(INodeAt(s.img.inodes, d))
    requires |INodeAt(s.img.inodes, d).direct| == DIRECT
    ensures
      var s' := Chmod(s, who, d, name, permissions);
      && (s' != s ==> Finds(s, d, name, i) && s' == WriteMode(s, i, permissions))
      && (s' != s && name != "" ==> i in c.place && i != ROOT && c.place[i].parent == d && NameOf(s, c, i) == name)
      && (s' != s && name != "" && !TurnsDir(INodeAt(s.img.inodes, i), permissions) ==>
            DiskInv(s') && TreeInv(s', c) && (LeakFree(s, c) ==> LeakFree(s', c)) && ModeChanged(s, s', c, d, name, i, permissions))
  {
    hide TreeInv, DiskInv, FindSlot, Permitted, WithPermissions, TurnsDir, Slots;
    var direct := INodeAt(s.img.inodes, d).direct;
    var h := FindSlot(s.img.blocks, direct, name, 0);
    i := -1;
    if name != "." && name != ".." && h != SLOTS {
      i := Slots(s.img.blocks, direct)[h].ino;
      if name != "" {
        EntryPlaced(s, c, d, h);
        if !TurnsDir(INodeAt(s.img.inodes, i), permissions) {
          var s' := WriteMode(s, i, permissions);
          ModeKeeps(s, c, i, permissions);
          Reached(s, c, i);
          WriteINodeKeeps(s, i, INodeAt(s'.img.inodes, i));
          SameBits(s, s', c);
        }
      }
    }
  }

  /** The inode written back with other permission bits. */
  function WriteMode(s: State, i: int, permissions: nat): State {
    var n := INodeAt(s.img.inodes, i);
    WriteINode(s, i, n.(mode := WithPermissions(n.mode, permissions)))
  }

  // ---------------------------------------------------------------------
  // When a Chmod breaks something
  // ---------------------------------------------------------------------

  /** Only another inode, and a mode, was written. */
  lemma ModeKeepsEntries(s: State, c: Cert, i: int, permissions: nat)
    requires TreeInv(s, c) && TurnsDir(INodeAt(s.img.inodes, i), permissions)
    ensures KeepsEntries(s, c, WriteMode(s, i, permissions))
  {
    hide TreeInv, WithPermissions;
  }

  /** A file of the tree made a directory leaves no tree: its count says one entry, and it lacks "." or "..". */
  lemma TurnedBreaks(s: State, c: Cert, i: int, permissions: nat, c': Cert)
    requires TreeInv(s, c) && i in c.place && TurnsDir(INodeAt(s.img.inodes, i), permissions)
    ensures !TreeInv(WriteMode(s, i, permissions), c')
  {
    hide TreeInv, KeepsEntries, WithPermissions, TurnsDir, Slots;
    var s' := WriteMode(s, i, permissions);
    if TreeInv(s', c') {
      TreePlaced(s, c);
      ModeKeepsEntries(s, c, i, permissions);
      StillPlaced(s, c, s', c', i);
      SameType(INodeAt(s.img.inodes, i), permissions);
      FileCount(s, c, i, permissions);
      ReachedDir(s', c', i);
      TwoEntries(c', i, INodeAt(s'.img.inodes, i).cnt, Slots(s'.img.blocks, INodeAt(s'.img.inodes, i).direct));
    }
  }

  lemma FileCount(s: State, c: Cert, i: int, permissions: nat)
    requires TreeInv(s, c) && i in c.place && TurnsDir(INodeAt(s.img.inodes, i), permissions)
    ensures INodeAt(s.img.inodes, i).cnt == 1 && i != ROOT
  {
    Reached(s, c, i);
  }

  lemma TwoEntries(c: Cert, i: int, cnt: nat, slots: seq<Entry>)
    requires i in c.place && i != ROOT && |slots| == SLOTS && DirOk(c, i, cnt, slots)
    ensures cnt >= 2
  {
    assert {0, 1} <= Named(slots);
    SubsetSize({0, 1}, Named(slots));
  }

  /** A Chmod that changes anything leaves a tree if and only if it does not make a file of the tree a directory. */
  lemma ChmodTreeIff(s: State, c: Cert, who: Session, d: int, name: string, permissions: nat, i: int)
    requires DiskInv(s) && TreeInv(s, c) && d in c.place && IsDir(INodeAt(s.img.inodes, d))
    requires |INodeAt(s.img.inodes, d).direct| == DIRECT && Finds(s, d, name, i)
    requires Chmod(s, who, d, name, permissions) != s
    ensures (exists c' :: TreeInv(Chmod(s, who, d, name, permissions), c'))
      <==> !(i in c.place && TurnsDir(INodeAt(s.img.inodes, i), permissions))
  {
    hide TreeInv, DiskInv, FindSlot, WithPermissions, TurnsDir, Slots;
    var s' := WriteMode(s, i, permissions);
    if i in c.place {
      if TurnsDir(INodeAt(s.img.inodes, i), permissions) {
        forall c' ensures !TreeInv(s', c') { TurnedBreaks(s, c, i, permissions, c'); }
      } else {
        ModeKeeps(s, c, i, permissions);
      }
    } else {
      OwnedFrame(s, s', c);
    }
  }

  /**
   It leaves the allocator's structures sound if and only if the address of the entry
   found is an inode's; for a nonempty name it is.
   */
  lemma ChmodDiskIff(s: State, c: Cert, who: Session, d: int, name: string, permissions: nat, i: int)
    requires DiskInv(s) && TreeInv(s, c) && d in c.place && IsDir(INodeAt(s.img.inodes, d))
    requires |INodeAt(s.img.inodes, d).direct| == DIRECT && Finds(s, d, name, i)
    requires Chmod(s, who, d, name, permissions) != s
    ensures DiskInv(Chmod(s, who, d, name, permissions)) <==> IsINode(i)
    ensures name != "" ==> IsINode(i)
  {
    hide TreeInv, FindSlot, WithPermissions, FreeList, EndsAt, IsINode, ClearBits, Slots;
    var s' := WriteMode(s, i, permissions);
    if IsINode(i) { WriteINodeKeeps(s, i, INodeAt(s'.img.inodes, i)); }
    assert i in s'.img.inodes;
    if name != "" {
      var h := FindSlot(s.img.blocks, INodeAt(s.img.inodes, d).direct, name, 0);
      EntryPlaced(s, c, d, h);
      Reached(s, c, i);
    }
  }

  lemma SameBits(s: State, s': State, c: Cert)
    requires s'.inodeBits == s.inodeBits && s'.blockBits == s.blockBits
    ensures LeakFree(s, c) ==> LeakFree(s', c)
  {
    assert forall b :: Used(s', b) == Used(s, b);
    assert forall j :: INodeUsed(s', j) == INodeUsed(s, j);
  }

  /** The search of Chmod: every slot's turn reads its whole block again. */
  method FindSlotIn(blocks: map<int, Block>, direct: seq<int>, name: string) returns (h: nat)
    requires |direct| == DIRECT
    ensures h == FindSlot(blocks, direct, name, 0)
  {
    hide FindSlot, Slots;
    var i := 0;
    while i < SLOTS
      invariant 0 <= i <= SLOTS && (i < SLOTS && i % PER_BLOCK != 0 ==> direct[i / PER_BLOCK] != -1)
      invariant forall u :: 0 <= u < i ==> !Carries(blocks, direct, name, u)
    {
      var k := i / PER_BLOCK;
      if direct[k] == -1 {
        i := i + PER_BLOCK;
        continue;
      }
      var entries := EntriesAt(blocks, direct[k]);
      for j := 0 to PER_BLOCK
        invariant forall u :: k * PER_BLOCK <= u < k * PER_BLOCK + j ==> !Carries(blocks, direct, name, u)
      {
        SlotRead(blocks, direct, k, j);
        if entries[j].name == name {
          FirstIs(blocks, direct, name, k * PER_BLOCK + j);
          return k * PER_BLOCK + j;
        }
      }
      i := i + 1;
    }
    FirstIs(blocks, direct, name, SLOTS);
    h := SLOTS;
  }

  lemma FirstIs(blocks: map<int, Block>, direct: seq<int>, name: string, h: nat)
    requires |direct| == DIRECT && h <= SLOTS && (h < SLOTS ==> Carries(blocks, direct, name, h))
    requires forall u :: 0 <= u < h ==> !Carries(blocks, direct, name, u)
    ensures FindSlot(blocks, direct, name, 0) == h
  {
    hide FindSlot, Carries;
    var f := FindSlot(blocks, direct, name, 0);
    assert f < SLOTS ==> Carries(blocks, direct, name, f);
  }

  lemma SlotRead(blocks: map<int, Block>, direct: seq<int>, k: nat, j: nat)
    requires |direct| == DIRECT && k < DIRECT && j < PER_BLOCK && direct[k] != -1
    ensures
      var t := k * PER_BLOCK + j;
      t < SLOTS && t / PER_BLOCK == k && Slots(blocks, direct)[t] == EntriesAt(blocks, direct[k])[j]
  {
    var t := k * PER_BLOCK + j;
    assert t / PER_BLOCK == k && t % PER_BLOCK == j;
  }
}
