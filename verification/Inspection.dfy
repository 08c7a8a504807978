/**
 The walk over the grouped free chain in GetStorageInspectionSnapshot
 (src/filesystem_adapter.cpp).
 */
module Inspection {
  import opened Disk
  import opened Allocator

  datatype GroupView = GroupView(order: nat, leader: int, next: int, top: int, stack: seq<int>, free: seq<int>)

  const MAX_GROUPS: int := BLOCK_NUM / GROUP + 1

  ghost function Flat(groups: seq<GroupView>): seq<int> {
    if groups == [] then [] else Flat(groups[..|groups| - 1]) + groups[|groups| - 1].free
  }

  function ValidOnly(l: seq<int>): seq<int> {
    if l == [] then []
    else if IsBlock(l[|l| - 1]) then ValidOnly(l[..|l| - 1]) + [l[|l| - 1]]
    else ValidOnly(l[..|l| - 1])
  }

  lemma {:induction false} AllValid(l: seq<int>)
    requires forall a :: a in l ==> IsBlock(a)
    ensures ValidOnly(l) == l
  {
    if l != [] { AllValid(l[..|l| - 1]); }
  }

  /** The addresses a group contributes: its leader and entries 1 to `top`, those that are data blocks. */
  method FreeAddresses(leader: int, stack: seq<int>, top: int) returns (free: seq<int>)
    requires |stack| == GROUP && -1 <= top < GROUP
    ensures free == if top < 0 then [] else ValidOnly([leader] + stack[1..top + 1])
  {
    free := [];
    if top >= 0 {
      if IsBlock(leader) { free := free + [leader]; }
      assert ([leader] + stack[1..1])[..0] == [];
      for i := 1 to top + 1
        invariant free == ValidOnly([leader] + stack[1..i])
      {
        assert ([leader] + stack[1..i + 1])[..i] == [leader] + stack[1..i];
        if IsBlock(stack[i]) { free := free + [stack[i]]; }
      }
    }
  }

  lemma FlatAppend(groups: seq<GroupView>, g: GroupView)
    ensures Flat(groups + [g]) == Flat(groups) + g.free
  {
    assert (groups + [g])[..|groups|] == groups;
  }

  /** The blocks of the groups linked from `next`. */
  ghost function Rest(m: nat, next: int, blocks: map<int, Block>): seq<int> {
    FreeList(m, next, StackAt(blocks, next), blocks)
  }

  ghost predicate Ahead(m: nat, next: int, blocks: map<int, Block>) {
    match Rest(m, next, blocks)
    case rest =>
      && m % GROUP == 0
      && EndsAt(m, next, StackAt(blocks, next), blocks)
      && Distinct(rest)
      && forall a :: a in rest ==> IsBlock(a)
  }

  lemma AheadValid(m: nat, next: int, blocks: map<int, Block>)
    requires Ahead(m, next, blocks)
    ensures IsBlock(next) <==> m > 0
    ensures m > 0 ==> next in Rest(m, next, blocks)
  {
    if m > 0 { LeaderListed(m, next, StackAt(blocks, next), blocks); }
  }

  lemma WholeGroups(n: nat)
    requires n > 0
    ensures (n - TopOf(n) - 1) % GROUP == 0
  {
  }

  /** A group as the walk lists it is the group as the allocator lists it, backwards. */
  lemma GroupFound(top: nat, leader: int, stack: seq<int>)
    requires top < GROUP == |stack|
    requires Distinct(Group(top, leader, stack))
    requires forall a :: a in Group(top, leader, stack) ==> IsBlock(a)
    ensures var found := ValidOnly([leader] + stack[1..top + 1]);
      && |found| == top + 1 && Distinct(found)
      && forall a :: a in found <==> a in Group(top, leader, stack)
  {
    var found := [leader] + stack[1..top + 1];
    var g := Group(top, leader, stack);
    assert forall i :: 0 <= i <= top ==> found[i] == g[top - i];
    forall a | a in found ensures a in g {
      var i :| 0 <= i < |found| && found[i] == a;
      assert g[top - i] == a;
    }
    forall a | a in g ensures a in found {
      var i :| 0 <= i < |g| && g[i] == a;
      assert found[top - i] == a;
    }
    AllValid(found);
  }

  lemma Parts(l: seq<int>, g: seq<int>, rest: seq<int>)
    requires l == g + rest && Distinct(l) && forall a :: a in l ==> IsBlock(a)
    ensures Distinct(g) && Distinct(rest)
    ensures forall a :: a in l <==> a in g || a in rest
    ensures forall a :: a in g ==> a !in rest
  {
    assert forall i :: 0 <= i < |rest| ==> rest[i] == l[|g| + i];
    assert forall i :: 0 <= i < |g| ==> g[i] == l[i];
  }

  /** One more group walked: its addresses move from the rest of the chain to the ones found. */
  lemma WalkGroup(n: nat, leader: int, stack: seq<int>, blocks: map<int, Block>)
    requires |stack| == GROUP && n > 0
    requires EndsAt(n, leader, stack, blocks)
    requires Distinct(FreeList(n, leader, stack, blocks))
    requires forall a :: a in FreeList(n, leader, stack, blocks) ==> IsBlock(a)
    ensures
      var m := n - TopOf(n) - 1;
      var found := ValidOnly([leader] + stack[1..TopOf(n) + 1]);
      var rest := Rest(m, stack[0], blocks);
      && Ahead(m, stack[0], blocks)
      && |found| == TopOf(n) + 1 && Distinct(found) && leader in found
      && (forall a :: a in FreeList(n, leader, stack, blocks) <==> a in found || a in rest)
      && (forall a :: a in found ==> a !in rest)
  {
    WholeGroups(n);
    Parts(FreeList(n, leader, stack, blocks), Group(TopOf(n), leader, stack), Rest(n - TopOf(n) - 1, stack[0], blocks));
    GroupFound(TopOf(n), leader, stack);
    LeaderListed(n, leader, stack, blocks);
    assert Group(TopOf(n), leader, stack)[TopOf(n)] == leader;
  }

  /** What the walk has found so far, together with the rest of the chain, is the free list. */
  ghost predicate Walked(s: State, groups: seq<GroupView>, visited: seq<int>, m: nat, next: int)
    requires |s.super.stack| == GROUP
  {
    match (Flat(groups), Rest(m, next, s.img.blocks))
    case (found, rest) =>
      && Ahead(m, next, s.img.blocks)
      && s.super.freeBlocks == |found| + m
      && |found| > GROUP * (|groups| - 1)
      && Distinct(found)
      && (forall a :: a in Frees(s) <==> a in found || a in rest)
      && (forall a :: a in found ==> a !in rest)
      && (forall a :: a in visited ==> a in found)
  }

  lemma WalkedFirst(s: State, top: int, g: GroupView)
    requires ChainInv(s) && s.super.freeBlocks > 0 && top == TopOf(s.super.freeBlocks)
    requires g.free == ValidOnly([s.super.leader] + s.super.stack[1..top + 1])
    ensures Walked(s, [g], [s.super.leader], s.super.freeBlocks - top - 1, s.super.stack[0])
  {
    WalkGroup(s.super.freeBlocks, s.super.leader, s.super.stack, s.img.blocks);
    FlatOne(g);
    WalkedStart(s, g, s.super.freeBlocks - top - 1);
  }

  lemma WalkedStart(s: State, g: GroupView, m: nat)
    requires |s.super.stack| == GROUP && Ahead(m, s.super.stack[0], s.img.blocks)
    requires s.super.freeBlocks == |g.free| + m && Distinct(g.free) && s.super.leader in g.free
    requires Flat([g]) == g.free
    requires forall a :: a in Frees(s) <==> a in g.free || a in Rest(m, s.super.stack[0], s.img.blocks)
    requires forall a :: a in g.free ==> a !in Rest(m, s.super.stack[0], s.img.blocks)
    ensures Walked(s, [g], [s.super.leader], m, s.super.stack[0])
  {
    assert Distinct(Flat([g])) && |Flat([g])| > GROUP * (|[g]| - 1);
    assert forall a :: a in [s.super.leader] ==> a in Flat([g]);
  }

  lemma FlatOne(g: GroupView)
    ensures Flat([g]) == g.free
  {
    assert [g][..0] == [];
  }

  lemma Appended(found: seq<int>, more: seq<int>)
    requires Distinct(found) && Distinct(more) && forall a :: a in more ==> a !in found
    ensures Distinct(found + more)
    ensures forall a :: a in found + more <==> a in found || a in more
  {
    var l := found + more;
    forall i, j | 0 <= i < j < |l| ensures l[i] != l[j] {
      if i < |found| <= j {
        assert l[j] == more[j - |found|] && l[j] in more && l[i] in found;
      }
    }
  }

  lemma WalkedStep(s: State, groups: seq<GroupView>, visited: seq<int>, m: nat, next: int, g: GroupView)
    requires |s.super.stack| == GROUP && Walked(s, groups, visited, m, next) && m > 0
    requires g.free == ValidOnly([next] + StackAt(s.img.blocks, next)[1..GROUP])
    ensures m >= GROUP && Walked(s, groups + [g], visited + [next], m - GROUP, StackAt(s.img.blocks, next)[0])
  {
    var stack := StackAt(s.img.blocks, next);
    WalkFull(m, next, s.img.blocks);
    FlatAppend(groups, g);
    WalkedMove(s, groups, visited, m, next, g, stack[0]);
  }

  lemma WalkFull(m: nat, next: int, blocks: map<int, Block>)
    requires Ahead(m, next, blocks) && m > 0
    ensures m >= GROUP
    ensures
      var stack := StackAt(blocks, next);
      var found := ValidOnly([next] + stack[1..GROUP]);
      var rest := Rest(m - GROUP, stack[0], blocks);
      && Ahead(m - GROUP, stack[0], blocks)
      && |found| == GROUP && Distinct(found) && next in found
      && (forall a :: a in Rest(m, next, blocks) <==> a in found || a in rest)
      && (forall a :: a in found ==> a !in rest)
  {
    assert TopOf(m) == GROUP - 1;
    WalkGroup(m, next, StackAt(blocks, next), blocks);
  }

  lemma WalkedMove(s: State, groups: seq<GroupView>, visited: seq<int>, m: nat, next: int, g: GroupView, after: int)
    requires |s.super.stack| == GROUP && Walked(s, groups, visited, m, next) && m >= GROUP
    requires Ahead(m - GROUP, after, s.img.blocks)
    requires |g.free| == GROUP && Distinct(g.free) && next in g.free
    requires Flat(groups + [g]) == Flat(groups) + g.free
    requires forall a :: a in Rest(m, next, s.img.blocks) <==> a in g.free || a in Rest(m - GROUP, after, s.img.blocks)
    requires forall a :: a in g.free ==> a !in Rest(m - GROUP, after, s.img.blocks)
    ensures Walked(s, groups + [g], visited + [next], m - GROUP, after)
  {
    Appended(Flat(groups), g.free);
  }

  /** Leaders met so far, in order and each once. */
  ghost predicate Visits(groups: seq<GroupView>, visited: seq<int>) {
    match groups
    case l => |l| == |visited| && (forall i :: 0 <= i < |l| ==> visited[i] == l[i].leader) && Distinct(visited)
  }

  lemma VisitsStep(groups: seq<GroupView>, visited: seq<int>, g: GroupView)
    requires Visits(groups, visited) && g.leader !in visited
    ensures Visits(groups + [g], visited + [g.leader])
  {
    Appended(visited, [g.leader]);
  }

  lemma VisitsDistinct(groups: seq<GroupView>, visited: seq<int>)
    requires Visits(groups, visited)
    ensures forall i, j :: 0 <= i < j < |groups| ==> groups[i].leader != groups[j].leader
  {
  }

  /** `Walked` on the states whose structures agree, nothing on the others. */
  ghost predicate Tracked(s: State, good: bool, groups: seq<GroupView>, visited: seq<int>, m: nat, next: int,
                          truncated: bool)
    requires |s.super.stack| == GROUP
  {
    match good
    case true => !truncated && Walked(s, groups, visited, m, next)
    case false => true
  }

  lemma TrackedFirst(s: State, good: bool, top: int, g: GroupView)
    requires |s.super.stack| == GROUP && good == (ChainInv(s) && s.super.freeBlocks > 0)
    requires top == if s.super.freeBlocks == 0 then -1 else TopOf(s.super.freeBlocks)
    requires good ==> g.free == ValidOnly([s.super.leader] + s.super.stack[1..top + 1])
    ensures good ==> s.super.freeBlocks - top - 1 >= 0
    ensures Tracked(s, good, [g], [s.super.leader], if good then s.super.freeBlocks - top - 1 else 0, s.super.stack[0], false)
  {
    if good { WalkedFirst(s, top, g); }
  }

  lemma TrackedStep(s: State, good: bool, groups: seq<GroupView>, visited: seq<int>, m: nat, next: int,
                    truncated: bool, g: GroupView)
    requires |s.super.stack| == GROUP && Tracked(s, good, groups, visited, m, next, truncated) && IsBlock(next)
    requires g.free == ValidOnly([next] + StackAt(s.img.blocks, next)[1..GROUP])
    ensures good ==> m >= GROUP
    ensures Tracked(s, good, groups + [g], visited + [next], if good then m - GROUP else 0, StackAt(s.img.blocks, next)[0], truncated)
  {
    if good {
      WalkedNext(s, groups, visited, m, next);
      WalkedStep(s, groups, visited, m, next, g);
    }
  }

  lemma TrackedNext(s: State, good: bool, groups: seq<GroupView>, visited: seq<int>, m: nat, next: int, truncated: bool)
    requires |s.super.stack| == GROUP && Tracked(s, good, groups, visited, m, next, truncated) && IsBlock(next)
    ensures good ==> next !in visited
  {
    if good { WalkedNext(s, groups, visited, m, next); }
  }

  lemma TrackedAll(s: State, good: bool, groups: seq<GroupView>, visited: seq<int>, m: nat, next: int,
                   truncated: bool, order: nat)
    requires |s.super.stack| == GROUP && Tracked(s, good, groups, visited, m, next, truncated)
    requires good ==> ChainInv(s)
    requires order == |groups| && (good ==> !IsBlock(next) || order >= MAX_GROUPS)
    ensures good ==>
      && !truncated && !IsBlock(next)
      && |Flat(groups)| == s.super.freeBlocks && Distinct(Flat(groups))
      && forall a :: a in Flat(groups) <==> Free(s, a)
  {
    if good { WalkedAll(s, groups, visited, m, next, order); }
  }

  /**
   On any image the walk ends and meets no leader twice; on a state whose
   structures agree it lists every free block once and is not truncated.
   */
  method InspectChain(s: State) returns (groups: seq<GroupView>, truncated: bool)
    requires |s.super.stack| == GROUP
    ensures 1 <= |groups| <= MAX_GROUPS
    ensures forall i, j :: 0 <= i < j < |groups| ==> groups[i].leader != groups[j].leader
    ensures ChainInv(s) && s.super.freeBlocks > 0 ==>
      && !truncated
      && |Flat(groups)| == s.super.freeBlocks && Distinct(Flat(groups))
      && forall a :: a in Flat(groups) <==> Free(s, a)
  {
    ghost var good := ChainInv(s) && s.super.freeBlocks > 0;
    truncated := false;
    var top := if s.super.freeBlocks == 0 then -1 else TopOf(s.super.freeBlocks);
    var free := FreeAddresses(s.super.leader, s.super.stack, top);
    var current := GroupView(0, s.super.leader, s.super.stack[0], top, s.super.stack, free);
    TrackedFirst(s, good, top, current);
    groups := [current];
    var visited := [s.super.leader];
    var next := current.next;
    var order := 1;
    ghost var m: nat := if good then s.super.freeBlocks - top - 1 else 0;
    while IsBlock(next) && order < MAX_GROUPS
      invariant 1 <= order == |groups| <= MAX_GROUPS
      invariant Visits(groups, visited)
      invariant Tracked(s, good, groups, visited, m, next, truncated)
      decreases MAX_GROUPS - order
    {
      TrackedNext(s, good, groups, visited, m, next, truncated);
      if next in visited {
        truncated := true;
        break;
      }
      var stack := StackAt(s.img.blocks, next);
      free := FreeAddresses(next, stack, GROUP - 1);
      var group := GroupView(order, next, stack[0], GROUP - 1, stack, free);
      TrackedStep(s, good, groups, visited, m, next, truncated, group);
      VisitsStep(groups, visited, group);
      m := if good then m - GROUP else 0;
      visited := visited + [next];
      next := group.next;
      groups := groups + [group];
      order := order + 1;
    }
    VisitsDistinct(groups, visited);
    TrackedAll(s, good, groups, visited, m, next, truncated, order);
    if IsBlock(next) {
      truncated := true;
    }
  }

  /** A valid link leads to a group not met before. */
  lemma WalkedNext(s: State, groups: seq<GroupView>, visited: seq<int>, m: nat, next: int)
    requires |s.super.stack| == GROUP && Walked(s, groups, visited, m, next) && IsBlock(next)
    ensures m > 0 && next !in visited
  {
    AheadValid(m, next, s.img.blocks);
  }

  /** The walk cannot stop early: there are at most BLOCK_NUM / GROUP groups. */
  lemma WalkedAll(s: State, groups: seq<GroupView>, visited: seq<int>, m: nat, next: int, order: nat)
    requires ChainInv(s) && Walked(s, groups, visited, m, next)
    requires order == |groups| && (!IsBlock(next) || order >= MAX_GROUPS)
    ensures !IsBlock(next)
    ensures |Flat(groups)| == s.super.freeBlocks && Distinct(Flat(groups))
    ensures forall a :: a in Flat(groups) <==> Free(s, a)
  {
    AheadValid(m, next, s.img.blocks);
    assert m == 0;
    assert Rest(m, next, s.img.blocks) == [];
  }
}
