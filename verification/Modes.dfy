/**
 What the permission tests compute from the octal digits of a mode: user, group
 and others. Each operation has its own test; they differ in the bit, in whom they
 take for the group, and in what they allow root.
 */
module Modes {
  import opened Disk
  import opened Allocator
  import opened Tree
  import opened INodes
  import opened Directories
  import opened MakeDirectory
  import opened CreateFile
  import opened DeleteFile
  import opened Subtree
  import opened DeleteDirectory
  import opened ReadFile
  import opened Paths
  import opened Resolve
  import opened Navigation
  import opened Permissions
  import opened Outcomes

  /** The last three octal digits of the mode. */
  predicate HasDigits(mode: nat, u: nat, g: nat, o: nat) {
    u < 8 && g < 8 && o < 8 && mode % 512 == 64 * u + 8 * g + o
  }

  /** Bits 1 and 2 of each digit are what the tests look at. */
  lemma DigitBits(mode: nat, u: nat, g: nat, o: nat)
    requires HasDigits(mode, u, g, o)
    ensures (ModeBit(mode, 8) <==> u >= 4) && (ModeBit(mode, 5) <==> g >= 4) && (ModeBit(mode, 2) <==> o >= 4)
    ensures (ModeBit(mode, 7) <==> u % 4 >= 2) && (ModeBit(mode, 4) <==> g % 4 >= 2) && (ModeBit(mode, 1) <==> o % 4 >= 2)
  {
    hide Pow2;
    SmallPowers();
    var t := mode / 512;
    UserBits(mode, t, u, 8 * g + o);
    GroupBits(mode, 8 * t + u, g, o);
    OtherBits(mode, 64 * t + 8 * u + g, o);
  }

  lemma UserBits(m: nat, t: nat, u: nat, r: nat)
    requires u < 8 && r < 64 && m == 512 * t + 64 * u + r
    ensures (m / 256 % 2 == 1 <==> u >= 4) && (m / 128 % 2 == 1 <==> u % 4 >= 2)
  {
    var u2, u1, u0 := Bits(u);
    Over256(m, 2 * t + u2, 128 * u1 + 64 * u0 + r);
    Over128(m, 2 * (2 * t + u2) + u1, 64 * u0 + r);
    Odd(t, u2);
    Odd(2 * t + u2, u1);
  }

  lemma GroupBits(m: nat, t: nat, g: nat, r: nat)
    requires g < 8 && r < 8 && m == 64 * t + 8 * g + r
    ensures (m / 32 % 2 == 1 <==> g >= 4) && (m / 16 % 2 == 1 <==> g % 4 >= 2)
  {
    var g2, g1, g0 := Bits(g);
    Over32(m, 2 * t + g2, 16 * g1 + 8 * g0 + r);
    Over16(m, 2 * (2 * t + g2) + g1, 8 * g0 + r);
    Odd(t, g2);
    Odd(2 * t + g2, g1);
  }

  lemma OtherBits(m: nat, t: nat, o: nat)
    requires o < 8 && m == 8 * t + o
    ensures (m / 4 % 2 == 1 <==> o >= 4) && (m / 2 % 2 == 1 <==> o % 4 >= 2)
  {
    var o2, o1, o0 := Bits(o);
    Over4(m, 2 * t + o2, 2 * o1 + o0);
    Over2(m, 2 * (2 * t + o2) + o1, o0);
    Odd(t, o2);
    Odd(2 * t + o2, o1);
  }

  lemma Over256(m: nat, q: nat, r: nat)
    requires r < 256 && m == 256 * q + r
    ensures m / 256 == q
  {
  }

  lemma Over128(m: nat, q: nat, r: nat)
    requires r < 128 && m == 128 * q + r
    ensures m / 128 == q
  {
  }

  lemma Over32(m: nat, q: nat, r: nat)
    requires r < 32 && m == 32 * q + r
    ensures m / 32 == q
  {
  }

  lemma Over16(m: nat, q: nat, r: nat)
    requires r < 16 && m == 16 * q + r
    ensures m / 16 == q
  {
  }

  lemma Over4(m: nat, q: nat, r: nat)
    requires r < 4 && m == 4 * q + r
    ensures m / 4 == q
  {
  }

  lemma Over2(m: nat, q: nat, r: nat)
    requires r < 2 && m == 2 * q + r
    ensures m / 2 == q
  {
  }

  lemma Bits(x: nat) returns (x2: nat, x1: nat, x0: nat)
    requires x < 8
    ensures x2 <= 1 && x1 <= 1 && x0 <= 1 && x == 4 * x2 + 2 * x1 + x0
    ensures (x2 == 1 <==> x >= 4) && (x1 == 1 <==> x % 4 >= 2)
  {
    x2 := if x >= 4 then 1 else 0;
    x1 := if x - 4 * x2 >= 2 then 1 else 0;
    x0 := x - 4 * x2 - 2 * x1;
  }

  lemma Odd(k: nat, b: nat)
    requires b <= 1
    ensures (2 * k + b) % 2 == b
  {
  }

  lemma SmallPowers()
    ensures Pow2(1) == 2 && Pow2(2) == 4 && Pow2(4) == 16 && Pow2(5) == 32 && Pow2(7) == 128 && Pow2(8) == 256
  {
    assert Pow2(0) == 1 && Pow2(1) == 2 && Pow2(2) == 4 && Pow2(3) == 8 && Pow2(4) == 16;
    assert Pow2(5) == 32 && Pow2(6) == 64 && Pow2(7) == 128 && Pow2(8) == 256;
  }

  /** MakeDir makes directories 0755, Create files 0664. */
  lemma NewModes()
    ensures HasDigits(DIR_MODE, 7, 5, 5) && DIR_MODE / 512 == 1
    ensures HasDigits(FILE_MODE, 6, 6, 4) && FILE_MODE / 512 == 0
  {
  }

  // ---------------------------------------------------------------------
  // The five tests
  // ---------------------------------------------------------------------

  /** FindDir lets root in, and others where the digit that applies is at least 4. */
  lemma EnterDigits(who: Session, n: INode, u: nat, g: nat, o: nat)
    requires HasDigits(n.mode, u, g, o)
    ensures MayEnter(who, n) <==>
      who.user == "root" || (if who.user == n.user then u else if who.group == n.group then g else o) >= 4
  {
    hide ModeBit;
    DigitBits(n.mode, u, g, o);
  }

  /** MakeDir asks for the same bit, the read bit, of the directory. */
  lemma MakeDirDigits(who: Session, n: INode, u: nat, g: nat, o: nat)
    requires HasDigits(n.mode, u, g, o)
    ensures MayMakeDir(who, n) <==>
      who.user == "root" || (if who.user == n.user then u else if who.group == n.group then g else o) >= 4
  {
    hide ModeBit;
    DigitBits(n.mode, u, g, o);
  }

  /** DelFile asks for the write bit, and takes root for the owner: it refuses root where it refuses the owner. */
  lemma DelFileDigits(who: Session, n: INode, u: nat, g: nat, o: nat)
    requires HasDigits(n.mode, u, g, o)
    ensures MayWrite(who, n) <==>
      (if who.user == n.user || who.user == "root" then u else if who.group == n.group then g else o) % 4 >= 2
  {
    hide ModeBit;
    DigitBits(n.mode, u, g, o);
  }

  /** DeleteDir asks for the write bit, lets root pass, and takes for the group the user whose name is the group's. */
  lemma DeleteDirDigits(who: Session, n: INode, u: nat, g: nat, o: nat)
    requires HasDigits(n.mode, u, g, o)
    ensures MayDeleteDir(who, n) <==>
      who.user == "root" || (if who.user == n.user then u else if who.user == n.group then g else o) % 4 >= 2
  {
    hide ModeBit;
    DigitBits(n.mode, u, g, o);
  }

  /** Cat asks for the read bit of the file, with owner and group of the directory, and makes no exception for root. */
  lemma CatDigits(who: Session, dir: INode, file: INode, u: nat, g: nat, o: nat)
    requires HasDigits(file.mode, u, g, o)
    ensures MayRead(who, dir, file) <==>
      (if who.user == dir.user then u else if who.group == dir.group then g else o) >= 4
  {
    hide ModeBit;
    DigitBits(file.mode, u, g, o);
  }

  // ---------------------------------------------------------------------
  // FindDir
  // ---------------------------------------------------------------------

  /**
   Which answer FindDir gives: where the component leads to a directory of the tree,
   root enters it and anyone else for whom the digit that applies is at least 4; the
   others are refused.
   */
  lemma EnterAnswers(s: State, c: Cert, who: Session, d: int, cur: string, part: string, k: int, u: nat, g: nat, o: nat)
    requires TreeInv(s, c) && d in c.place && IsDir(INodeAt(s.img.inodes, d)) && Clean(part) && part != "."
    requires StepTo(s, c, d, part, k) && HasDigits(INodeAt(s.img.inodes, k).mode, u, g, o)
    ensures
      var n := INodeAt(s.img.inodes, k);
      Enter(s.img, who, d, cur, part)
        == if who.user == "root" || (if who.user == n.user then u else if who.group == n.group then g else o) >= 4
           then Entered(k, Renamed(cur, part)) else NoPermission
  {
    hide TreeInv, NodeOk, DirOk, Renamed, MayEnter, Slots, StepTo, HasDigits;
    EnterDigits(who, INodeAt(s.img.inodes, k), u, g, o);
    EnterIff(s, c, who, d, cur, part, k);
    ReachedDir(s, c, d);
    var n := INodeAt(s.img.inodes, d);
    var t := LeadsThrough(s, c, d, part, k);
    NamedSlot(s.img.blocks, n.direct, t);
    StepIsDir(s, c, d, part, k);
    assert IsMatch(s.img, n.direct, part, true, t);
    var h := FindKind(s.img, n.direct, part, true, 0);
    SameNameSameSlot(c, d, n.cnt, Slots(s.img.blocks, n.direct), h, t);
  }

  // ---------------------------------------------------------------------
  // Chmod, then cd
  // ---------------------------------------------------------------------

  /** After the owner, or root, has set the mode of a directory, `cd` into it admits root and those the digits admit. */
  lemma ChmodThenEnter(s: State, c: Cert, owner: Session, d: int, name: string, i: int, u: nat, g: nat, o: nat, who: Session, cur: string)
    requires DiskInv(s) && TreeInv(s, c) && d in c.place && IsDir(INodeAt(s.img.inodes, d)) && |INodeAt(s.img.inodes, d).direct| == DIRECT
    requires ChildNamed(s, c, d, name, i) && IsDir(INodeAt(s.img.inodes, i)) && '/' !in name
    requires owner.user == INodeAt(s.img.inodes, i).user || owner.user == "root"
    requires u < 8 && g < 8 && o < 8
    ensures
      var s' := Chmod(s, owner, d, name, 64 * u + 8 * g + o);
      var n := INodeAt(s.img.inodes, i);
      Enter(s'.img, who, d, cur, name)
        == if who.user == "root" || (if who.user == n.user then u else if who.group == n.group then g else o) >= 4
           then Entered(i, Renamed(cur, name)) else NoPermission
  {
    hide TreeInv, DiskInv, Renamed, Slots, WithPermissions, Enter, Chmod, TurnsDir, IsDir, Permitted, ViewOf, WriteMode;
    var permissions := 64 * u + 8 * g + o;
    var t := ChildHasSlot(s, c, d, name, i);
    NotDots(name);
    ChmodActs(s, c, owner, d, name, permissions);
    var s' := WriteMode(s, i, permissions);
    ModeWritten(s, i, permissions);
    Turns(INodeAt(s.img.inodes, i), permissions);
    ModeKeeps(s, c, i, permissions);
    SameType(INodeAt(s.img.inodes, i), permissions);
    PermissionsReplaced(INodeAt(s.img.inodes, i).mode, permissions);
    ParentNot(s, c, d, name, i);
    SlotsKept(s, s', d, i, permissions);
    var n' := INodeAt(s'.img.inodes, i);
    assert HasDigits(n'.mode, u, g, o) by { DigitsOf(INodeAt(s.img.inodes, i).mode, u, g, o); }
    EnterAnswers(s', c, who, d, cur, name, i, u, g, o);
  }

  lemma ModeWritten(s: State, i: int, permissions: nat)
    ensures
      var n, s' := INodeAt(s.img.inodes, i), WriteMode(s, i, permissions);
      && s' == WriteINode(s, i, n.(mode := WithPermissions(n.mode, permissions)))
      && INodeAt(s'.img.inodes, i) == n.(mode := WithPermissions(n.mode, permissions))
  {
    hide WithPermissions;
  }

  lemma DigitsOf(mode: nat, u: nat, g: nat, o: nat)
    requires u < 8 && g < 8 && o < 8
    ensures HasDigits(mode / TYPE_BIT * TYPE_BIT + (64 * u + 8 * g + o), u, g, o)
  {
    var t := mode / TYPE_BIT;
    assert (t * TYPE_BIT + (64 * u + 8 * g + o)) % 512 == 64 * u + 8 * g + o;
  }

  lemma ParentNot(s: State, c: Cert, d: int, name: string, i: int)
    requires TreeInv(s, c) && ChildNamed(s, c, d, name, i)
    ensures i in c.place && i != ROOT && c.place[i].parent == d && d != i && NameOf(s, c, i) == name
  {
    hide TreeInv, NameOf;
    TreePlaced(s, c);
  }

  /** The directory itself is not written, so the child hangs in it as before. */
  lemma SlotsKept(s: State, s': State, d: int, i: int, permissions: nat)
    requires s' == WriteMode(s, i, permissions) && d != i
    ensures INodeAt(s'.img.inodes, d) == INodeAt(s.img.inodes, d) && s'.img.blocks == s.img.blocks
  {
    hide WithPermissions;
  }

  /** A directory made private (0700): its owner enters, and so does root; everyone else is refused, the group included. */
  lemma PrivateDirectory(s: State, c: Cert, owner: Session, d: int, name: string, i: int, who: Session, cur: string)
    requires DiskInv(s) && TreeInv(s, c) && d in c.place && IsDir(INodeAt(s.img.inodes, d)) && |INodeAt(s.img.inodes, d).direct| == DIRECT
    requires ChildNamed(s, c, d, name, i) && IsDir(INodeAt(s.img.inodes, i)) && '/' !in name
    requires owner.user == INodeAt(s.img.inodes, i).user
    ensures
      var s' := Chmod(s, owner, d, name, 448);
      && Enter(s'.img, owner, d, cur, name) == Entered(i, Renamed(cur, name))
      && (who.user != owner.user && who.user != "root" ==> Enter(s'.img, who, d, cur, name) == NoPermission)
  {
    hide TreeInv, DiskInv, Renamed, Enter, Chmod, IsDir, ChildNamed;
    ChmodThenEnter(s, c, owner, d, name, i, 7, 0, 0, owner, cur);
    ChmodThenEnter(s, c, owner, d, name, i, 7, 0, 0, who, cur);
  }
}
