/** Virtual memory: tables edited in place in the frames of the allocator they come from. */
module Paging {
  import opened Pmm
  import opened PageTree
  import opened KernelHalf
  import opened UserHalf

  /** A physical address without its offset, as an entry stores it. */
  function FrameOf(phys: nat): nat { phys / 4096 % 0x100_0000_0000 }

  /** Used frames are exactly the reserved, the held, and those with a role; only the body's own tables are both
      reserved and in the tree. */
  ghost predicate Balanced(used: seq<bool>, role: Roles, reserved: set<nat>, held: set<nat>, k: Statics)
    requires |used| == FRAMES
  {
    && (forall f: nat :: f < FRAMES ==> (used[f] <==> f in reserved || f in held || f in role))
    && (forall f: nat :: f in held ==> f < FRAMES && f !in role && f !in reserved)
    && (forall f: nat :: f in role && f in reserved ==> f in StaticFrames(k))
    && 0 in reserved && 0 !in role
  }

  /** A free frame is nobody's; used for something, it is accounted for. */
  lemma BalanceAdd(used: seq<bool>, role: Roles, reserved: set<nat>, held: set<nat>, k: Statics, f: nat, r: Role)
    requires |used| == FRAMES && Balanced(used, role, reserved, held, k)
    requires f < FRAMES && (!used[f] || f in held)
    ensures f !in role && (!used[f] ==> f !in held)
    ensures Balanced(used[f := true], role[f := r], reserved, held - {f}, k)
    ensures held - {f} == held || f in held
  {
  }

  lemma FreeIsNobodys(used: seq<bool>, role: Roles, reserved: set<nat>, held: set<nat>, k: Statics)
    requires |used| == FRAMES && Balanced(used, role, reserved, held, k)
    ensures forall f: nat :: f < FRAMES && !used[f] ==> f !in role && f !in held
    ensures used[0]
  {
  }

  lemma BalanceThree(used: seq<bool>, role: Roles, reserved: set<nat>, held: set<nat>, k: Statics, a: nat, b: nat,
                     c: nat)
    requires |used| == FRAMES && Balanced(used, role, reserved, held, k) && a < FRAMES && b < FRAMES && c < FRAMES
    requires !used[a] && !used[b] && !used[c] && a != b && a != c && b != c
    ensures Balanced(used[a := true][b := true][c := true], NewRoles(role, a, b, c), reserved, held, k)
  {
    BalanceAdd(used, role, reserved, held, k, a, Root);
    BalanceAdd(used[a := true], role[a := Root], reserved, held, k, b, Sub(3, a, 0));
    BalanceAdd(used[a := true][b := true], role[a := Root][b := Sub(3, a, 0)], reserved, held, k, c, Sub(2, b, 0));
  }

  class Vmm {
    /** Physical memory, frame by frame, each read as a table. */
    const mem: array<Table>
    const pmm: Allocator
    const k: Statics
    /** The root vmm_map_user edits. */
    var umap: nat
    /** What each frame the tables own is for. */
    ghost var role: Roles
    /** Frames in use since boot, and frames handed to someone else since. */
    ghost const reserved: set<nat>
    ghost var held: set<nat>

    ghost predicate Shaped() {
      mem.Length == FRAMES && pmm.Shaped() && (mem as object) != (pmm.bitmap as object)
    }

    ghost predicate Inv()
      reads this, mem, pmm, pmm.bitmap
    {
      && Shaped() && pmm.Valid() && Balanced(pmm.Used(), role, reserved, held, k)
      && Tree(mem[..], role, k) && KernelEntries(mem[..], k) && UserOpen(mem[..], role, k)
      && IsTable(role, umap, 4)
    }

    // ---- building the body's own map ------------------------------------------------------------------------

    constructor (p: Allocator, s: Statics)
      requires p.Valid() && p.Used()[0]
      ensures Shaped() && fresh(mem) && pmm == p && k == s && held == {} && role == map[]
      ensures reserved == set f: nat | f < FRAMES && p.Used()[f]
    {
      mem := new Table[FRAMES](_ => ZeroTable());
      pmm, k, umap := p, s, s.pml4;
      role := map[];
      reserved, held := set f: nat | f < FRAMES && p.Used()[f], {};
    }

    ghost predicate StaticsFit() {
      && 0 < k.pml4 < FRAMES && 0 < k.pdptLow < FRAMES && 0 < k.pdLow < FRAMES
      && 0 < k.pdptHigh < FRAMES && 0 < k.pdDirect < FRAMES && FiveApart(k)
    }

    /** Zeroes a table entry by entry. */
    method ClearTable(t: nat)
      requires Shaped() && t < FRAMES
      modifies mem
      ensures mem[t] == ZeroTable() && forall f :: 0 <= f < FRAMES && f != t ==> mem[f] == old(mem[f])
    {
      ghost var was := mem[..];
      var i := 0;
      while i < 512
        invariant 0 <= i <= 512
        invariant forall f :: 0 <= f < FRAMES && f != t ==> mem[f] == was[f]
        invariant forall j :: 0 <= j < i ==> mem[t][j] == ABSENT
      {
        mem[t] := mem[t][i := ABSENT];
        i := i + 1;
      }
      assert mem[t] == ZeroTable();
    }

    method SetEntry(t: nat, i: nat, e: Pte)
      requires Shaped() && t < FRAMES && i < 512
      modifies mem
      ensures mem[..] == Poke(old(mem[..]), t, i, e)
    {
      mem[t] := mem[t][i := e];
    }

    /** The body's own five tables: the identity below CANONICAL_BASE and the direct map, as huge pages. */
    method LayTables()
      requires Shaped() && StaticsFit()
      modifies mem
      ensures BootLayout(mem[..], k)
    {
      ClearStatics();
      MapIdentity();
      MapDirect();
      mem[k.pdptHigh] := mem[k.pdptHigh][0 := Pte(true, true, false, false, k.pdDirect)];
      mem[k.pml4] := mem[k.pml4][DIRECT_SLOT := Pte(true, true, false, false, k.pdptHigh)];
    }

    method ClearStatics()
      requires Shaped() && StaticsFit()
      modifies mem
      ensures mem[k.pml4] == mem[k.pdptLow] == mem[k.pdLow] == mem[k.pdptHigh] == mem[k.pdDirect] == ZeroTable()
    {
      hide ZeroTable;
      ClearTable(k.pml4);
      ClearTable(k.pdptLow);
      ClearTable(k.pdLow);
      ClearTable(k.pdptHigh);
      ClearTable(k.pdDirect);
    }

    method MapIdentity()
      requires Shaped() && StaticsFit()
      modifies mem
      ensures forall f :: 0 <= f < FRAMES && f != k.pdLow && f != k.pdptLow && f != k.pml4 ==> mem[f] == old(mem[f])
      ensures mem[k.pdLow] == old(mem[k.pdLow])[0 := HugePte(0)][1 := HugePte(1)]
      ensures mem[k.pdptLow] == old(mem[k.pdptLow])[0 := Pte(true, true, false, false, k.pdLow)]
      ensures mem[k.pml4] == old(mem[k.pml4])[0 := Pte(true, true, false, false, k.pdptLow)]
    {
      mem[k.pdLow] := mem[k.pdLow][0 := HugePte(0)];
      mem[k.pdLow] := mem[k.pdLow][1 := HugePte(1)];
      mem[k.pdptLow] := mem[k.pdptLow][0 := Pte(true, true, false, false, k.pdLow)];
      mem[k.pml4] := mem[k.pml4][0 := Pte(true, true, false, false, k.pdptLow)];
    }

    method MapDirect()
      requires Shaped() && StaticsFit()
      modifies mem
      ensures forall f :: 0 <= f < FRAMES && f != k.pdDirect ==> mem[f] == old(mem[f])
      ensures forall j :: 0 <= j < 512 ==> mem[k.pdDirect][j] == HugePte(j)
    {
      var i := 0;
      while i < 512
        invariant 0 <= i <= 512
        invariant forall f :: 0 <= f < FRAMES && f != k.pdDirect ==> mem[f] == old(mem[f])
        invariant forall j :: 0 <= j < i ==> mem[k.pdDirect][j] == HugePte(j)
      {
        mem[k.pdDirect] := mem[k.pdDirect][i := HugePte(i)];
        i := i + 1;
      }
    }

    method VmmInit()
      requires Shaped() && pmm.Valid() && StaticsFit() && held == {} && role == map[]
      requires reserved == set f: nat | f < FRAMES && pmm.Used()[f]
      requires StaticFrames(k) <= reserved && 0 in reserved
      modifies mem, `umap, `role
      ensures Inv() && umap == k.pml4 && Owned(mem[..], role)
      ensures role.Keys == StaticFrames(k)
      ensures forall v: Page :: Query(mem[..], k.pml4, v) == ABSENT
      ensures HalfMatches(mem[..], k, k.pml4) && BootLayout(mem[..], k)
    {
      hide Tree, Owned, KernelEntries, HalfMatches, Query, BootLayout, StaticFrames, BootRoles, StaticRoles, UserOpen;
      LayTables();
      umap := k.pml4;
      role := BootRoles(k);
      BootMap(mem[..], k);
      BootTree(mem[..], role, k);
      BootOpen(mem[..], role, k);
    }

    // ---- walking ----------------------------------------------------------------------------------------------

    /** One level down, allocating nothing. */
    method Follow(t: nat, i: nat) returns (found: bool, next: nat)
      requires Inv() && t in role && LevelOf(role[t]) >= 2 && i < 512
      ensures found <==> IsLink(mem[..][t][i])
      ensures found ==> next == mem[..][t][i].frame && IsTable(role, next, LevelOf(role[t]) - 1) && next < FRAMES
    {
      assert LinkOk(mem[..], role, k, t, i);
      var e := mem[t][i];
      if e.ps || !e.present { return false, 0; }
      return true, e.frame;
    }

    /** The walk from a root to a page's last-level table. */
    method FollowTo(root: nat, v: Page) returns (found: bool, pt: nat)
      requires Inv() && IsTable(role, root, 4)
      ensures root < FRAMES && Descend(mem[..], root, 4, v) == if found then At(pt) else Missing
      ensures found ==> IsTable(role, pt, 1) && pt < FRAMES
    {
      hide Owned, KernelEntries, Balanced, Tree, LinkOk, CountFree, UserOpen;
      RootInside(mem[..], role, k, root);
      pt := 0;
      found, pt := Follow(root, Ix(v, 4));
      if !found { return; }
      ghost var t3 := pt;
      found, pt := Follow(pt, Ix(v, 3));
      assert !found ==> Descend(mem[..], t3, 3, v) == Missing;
      if !found { return; }
      ghost var t2 := pt;
      found, pt := Follow(pt, Ix(v, 2));
      assert Descend(mem[..], t2, 2, v) == if found then At(pt) else Missing;
      assert Descend(mem[..], t3, 3, v) == Descend(mem[..], t2, 2, v);
    }

    /** Takes a frame, zeroes it and links it under an empty slot. */
    method LinkFresh(t: nat, i: nat, user: bool) returns (found: bool, next: nat)
      requires Inv() && t in role && LevelOf(role[t]) >= 2 && i < 512 && !SharedSlot(role, k, t, i)
      requires !mem[..][t][i].ps && !mem[..][t][i].present && (user ==> OpenTo(mem[..], role, k, t))
      modifies mem, pmm, pmm.bitmap, `role
      ensures Inv() && Kept(old(mem[..]), old(role), mem[..], role, k)
      ensures HalvesKept(old(mem[..]), old(role), mem[..], k)
      ensures found ==> next in role && role[next] == Sub(LevelOf(old(role)[t]) - 1, t, i) && mem[..][t][i].user == user
      ensures found && user ==> OpenTo(mem[..], role, k, next)
      ensures !found ==> mem[..] == old(mem[..]) && role == old(role) && pmm.Used() == old(pmm.Used())
                         && pmm.freeFrames == old(pmm.freeFrames)
      ensures found <==> old(pmm.freeFrames) > 0
    {
      hide Owned, KernelEntries, Query, HalvesKept, Tree, SameView, OnlyTablesAdded, ZeroTable, Balanced, CountFree,
           UserOpen;
      ghost var m0 := mem[..];
      KeptSelf(m0, role, k);
      NothingLost(m0, role, k);
      SlotFacts(m0, role, k, t, i);
      FreeIsNobodys(pmm.Used(), role, reserved, held, k);
      var f := pmm.Alloc();
      if f == 0 { return false, 0; }
      ClearTable(f);
      assert mem[..] == m0[f := ZeroTable()];
      SetEntry(t, i, Pte(true, true, user, false, f));
      FreshSlot(m0, role, k, t, i, f, Pte(true, true, user, false, f));
      LinkedKeeps(m0, role, k, t, i, f, Pte(true, true, user, false, f));
      LinkedOpen(m0, role, k, t, i, f, Pte(true, true, user, false, f));
      BalanceAdd(old(pmm.Used()), role, reserved, held, k, f, Sub(LevelOf(role[t]) - 1, t, i));
      role := role[f := Sub(LevelOf(role[t]) - 1, t, i)];
      return true, f;
    }

    /** One level down; a missing table is taken from the allocator, zeroed and linked, and on behalf of ring 3 the
        link is opened to it.  A huge page, or no frame left, stops the walk and changes nothing. */
    method NextTable(t: nat, i: nat, user: bool) returns (found: bool, next: nat)
      requires Inv() && t in role && LevelOf(role[t]) >= 2 && i < 512 && (user ==> OpenTo(mem[..], role, k, t))
      modifies mem, pmm, pmm.bitmap, `role
      ensures Inv() && Kept(old(mem[..]), old(role), mem[..], role, k)
      ensures !(old(role)[t].Root? && i == DIRECT_SLOT) ==> HalvesKept(old(mem[..]), old(role), mem[..], k)
      ensures found ==> next in role && role[next] == SlotRole(old(role), k, t, i) && (user ==> mem[..][t][i].user)
      ensures found && user ==> OpenTo(mem[..], role, k, next)
      ensures !found ==> mem[..] == old(mem[..]) && role == old(role) && pmm.Used() == old(pmm.Used())
                         && pmm.freeFrames == old(pmm.freeFrames)
      ensures found <==> !old(mem[..])[t][i].ps && (old(mem[..])[t][i].present || old(pmm.freeFrames) > 0)
    {
      hide Owned, KernelEntries, Query, HalvesKept, Tree, SameView, OnlyTablesAdded, UserOpen;
      ghost var m0 := mem[..];
      KeptSelf(m0, role, k);
      NothingLost(m0, role, k);
      SlotFacts(m0, role, k, t, i);
      if mem[t][i].ps { return false, 0; }
      if !mem[t][i].present {
        found, next := LinkFresh(t, i, user);
        return;
      }
      if user {
        PromotedKeeps(m0, role, k, t, i);
        PromotedOpen(m0, role, k, t, i);
        SetEntry(t, i, mem[t][i].(user := true));
        NextOpen(mem[..], role, k, t, i, mem[t][i].frame);
      }
      return true, mem[t][i].frame;
    }

    // ---- mapping and unmapping -------------------------------------------------------------------------------

    /** The two levels under a root's. */
    method WalkBelow(root: nat, t3: nat, v: Page, user: bool) returns (ok: bool, pt: nat)
      requires Inv() && IsTable(role, root, 4) && t3 in role && role[t3] == SlotRole(role, k, root, Ix(v, 4))
      requires user ==> OpenTo(mem[..], role, k, t3)
      modifies mem, pmm, pmm.bitmap, `role
      ensures Inv() && Kept(old(mem[..]), old(role), mem[..], role, k)
      ensures HalvesKept(old(mem[..]), old(role), mem[..], k)
      ensures ok ==> IsTable(role, pt, 1) && Descend(mem[..], root, 4, v) == At(pt)
      ensures ok && user ==> OpenTo(mem[..], role, k, pt)
      ensures !ok ==> pmm.freeFrames == 0 || Blocked(mem[..], root, 4, v)
    {
      hide Owned, KernelEntries, Query, HalvesKept, Tree, SameView, OnlyTablesAdded, Balanced, Kept, UserOpen, OpenTo,
           Blocked, Descend, Down, LinkOk, SubOk, CountFree;
      pt := 0;
      ghost var m1, r1 := mem[..], role;
      DownRoot(m1, r1, k, root, t3, v);
      SlotFacts(m1, r1, k, t3, Ix(v, 3));
      var t2;
      ok, t2 := NextTable(t3, Ix(v, 3), user);
      ghost var m2, r2 := mem[..], role;
      KeptRole(m1, r1, m2, r2, k, t3);
      KeptRole(m1, r1, m2, r2, k, root);
      if !ok {
        if pmm.freeFrames > 0 {
          DownRoot(m2, r2, k, root, t3, v);
          NoWay2(m2, r2, k, root, t3, v);
        }
        return false, 0;
      }
      SlotFacts(m2, r2, k, t2, Ix(v, 2));
      ok, pt := NextTable(t2, Ix(v, 2), user);
      Chain(m1, r1, m2, r2, mem[..], role, k);
      KeptRole(m2, r2, mem[..], role, k, t3);
      KeptRole(m2, r2, mem[..], role, k, t2);
      KeptRole(m2, r2, mem[..], role, k, root);
      DownRoot(mem[..], role, k, root, t3, v);
      if !ok {
        if pmm.freeFrames > 0 { NoWay1(mem[..], role, k, root, t3, t2, v); }
        return false, 0;
      }
      ByRoles(mem[..], role, k, root, t3, t2, pt, v);
    }

    /** Walks to a page's last-level table under a root, allocating and opening what is missing on the way.  What
        it allocates before it has to stop stays, as empty tables. */
    method Walk(root: nat, v: Page, user: bool) returns (ok: bool, pt: nat)
      requires Inv() && IsTable(role, root, 4)
      modifies mem, pmm, pmm.bitmap, `role
      ensures Inv() && Kept(old(mem[..]), old(role), mem[..], role, k)
      ensures Ix(v, 4) != DIRECT_SLOT ==> HalvesKept(old(mem[..]), old(role), mem[..], k)
      ensures ok ==> IsTable(role, pt, 1) && Descend(mem[..], root, 4, v) == At(pt)
      ensures ok && user ==> OpenTo(mem[..], role, k, pt)
      ensures !ok ==> pmm.freeFrames == 0 || Blocked(mem[..], root, 4, v)
    {
      hide Owned, KernelEntries, Query, HalvesKept, Tree, SameView, OnlyTablesAdded, Balanced, Kept, UserOpen, OpenTo,
           Blocked, Descend, LinkOk, SubOk, CountFree;
      pt := 0;
      ghost var m0, r0 := mem[..], role;
      SlotFacts(m0, r0, k, root, Ix(v, 4));
      RootIsOpen(m0, r0, k, root);
      var t3;
      ok, t3 := NextTable(root, Ix(v, 4), user);
      ghost var m1, r1 := mem[..], role;
      if !ok {
        if pmm.freeFrames > 0 { NoWay3(m1, root, v); }
        return false, 0;
      }
      KeptRole(m0, r0, m1, r1, k, root);
      ok, pt := WalkBelow(root, t3, v, user);
      Chain(m0, r0, m1, r1, mem[..], role, k);
    }

    /** What mapping page v under root did: on success that page reads the new leaf, and no other page of any map
        reads differently (every map sees the direct map's slot); on failure no page does. */
    ghost predicate Mapped(root: nat, v: Page, leaf: Pte, ok: bool, m0: Memory, r0: Roles)
      reads this, mem
    {
      && |m0| == mem.Length == FRAMES && k.pml4 < FRAMES && k.pdLow < FRAMES && root < FRAMES
      && (ok ==> Query(mem[..], root, v) == leaf)
      && (forall r: nat, w: Page :: IsTable(r0, r, 4) && r < FRAMES && (!ok || !SameLeaf(root, v, r, w)) ==>
            Query(mem[..], r, w) == Query(m0, r, w))
      && (Ix(v, 4) != DIRECT_SLOT ==> HalvesKept(m0, r0, mem[..], k))
      && OnlyTablesAdded(r0, role)
    }

    /** Walks and writes the leaf.  `mid` is memory before the leaf is written. */
    method MapInto(root: nat, v: Page, leaf: Pte, user: bool) returns (ok: bool, ghost pt: nat, ghost mid: Memory)
      requires Inv() && IsTable(role, root, 4) && (leaf.present ==> leaf.rw && (leaf.user ==> user))
      modifies mem, pmm, pmm.bitmap, `role
      ensures Inv() && Kept(old(mem[..]), old(role), mid, role, k)
      ensures Mapped(root, v, leaf, ok, old(mem[..]), old(role))
      ensures ok ==> IsTable(role, pt, 1) && pt < FRAMES && mem[..] == Poke(mid, pt, Ix(v, 1), leaf)
                     && root < |mid| && Descend(mid, root, 4, v) == At(pt)
      ensures !ok ==> mem[..] == mid && (pmm.freeFrames == 0 || Blocked(mem[..], root, 4, v))
    {
      hide Owned, KernelEntries, Query, Tree, Balanced, HalfMatches, UserOpen;
      ghost var m0, r0 := mem[..], role;
      ok, pt := Walk(root, v, user);
      mid := mem[..];
      RootInside(mid, role, k, root);
      if ok {
        DescendEnds(mid, role, k, root, 4, v);
        var t := pt;
        LeafTree(mid, role, k, pt, Ix(v, 1), leaf);
        LeafKernel(mid, role, k, pt, Ix(v, 1), leaf);
        LeafOpen(mid, role, k, pt, Ix(v, 1), leaf);
        WalkTo(root, v, leaf, pt);
        MappedLaw(m0, r0, mid, role, k, root, v, leaf);
      }
    }

    /** The write itself: the walk again, now that every table is there. */
    method WalkTo(root: nat, v: Page, leaf: Pte, ghost pt: nat)
      requires Inv() && IsTable(role, root, 4) && Descend(mem[..], root, 4, v) == At(pt)
      modifies mem
      ensures mem[..] == Poke(old(mem[..]), pt, Ix(v, 1), leaf)
    {
      hide Owned, KernelEntries, Query, Balanced, HalfMatches, UserOpen;
      assert LinkOk(mem[..], role, k, root, Ix(v, 4));
      var t3 := mem[root][Ix(v, 4)].frame;
      assert LinkOk(mem[..], role, k, t3, Ix(v, 3));
      var t2 := mem[t3][Ix(v, 3)].frame;
      assert LinkOk(mem[..], role, k, t2, Ix(v, 2));
      var t1 := mem[t2][Ix(v, 2)].frame;
      SetEntry(t1, Ix(v, 1), leaf);
    }

    lemma MappedReads(m0: Memory, r0: Roles, root: nat, v: Page, leaf: Pte)
      requires Mapped(root, v, leaf, true, m0, r0)
      ensures root < |mem[..]| && Query(mem[..], root, v) == leaf
    {
    }

    /** A supervisor page of the body's own map. */
    method VmmMap(virt: nat, phys: nat) returns (ok: bool)
      requires Inv()
      modifies mem, pmm, pmm.bitmap, `role
      ensures Inv()
      ensures Mapped(k.pml4, PageOf(virt), Pte(true, true, false, false, FrameOf(phys)), ok, old(mem[..]), old(role))
      ensures !ok ==> pmm.freeFrames == 0 || Blocked(mem[..], k.pml4, 4, PageOf(virt))
    {
      hide Owned, KernelEntries, Query, Balanced, Mapped, Kept, UserOpen;
      ghost var pt, mid;
      ok, pt, mid := MapInto(k.pml4, PageOf(virt), Pte(true, true, false, false, FrameOf(phys)), false);
    }

    /** A user page of the active map. */
    method VmmMapUser(virt: nat, phys: nat) returns (ok: bool, ghost pt: nat, ghost mid: Memory)
      requires Inv()
      modifies mem, pmm, pmm.bitmap, `role
      ensures Inv() && Kept(old(mem[..]), old(role), mid, role, k)
      ensures Mapped(umap, PageOf(virt), Pte(true, true, true, false, FrameOf(phys)), ok, old(mem[..]), old(role))
      ensures ok ==> IsTable(role, pt, 1) && pt < FRAMES
                     && mem[..] == Poke(mid, pt, Ix(PageOf(virt), 1), Pte(true, true, true, false, FrameOf(phys)))
                     && umap < |mid| && Descend(mid, umap, 4, PageOf(virt)) == At(pt)
      ensures ok && Ix(PageOf(virt), 4) != DIRECT_SLOT ==>
                umap < |mem[..]| && UserWrites(mem[..], umap, 4, PageOf(virt))
      ensures !ok ==> mem[..] == mid && (pmm.freeFrames == 0 || Blocked(mem[..], umap, 4, PageOf(virt)))
    {
      hide UserWrites, PageOf, Ix, Owned, KernelEntries, Query, Balanced, Mapped, Kept, Tree, UserOpen;
      ok, pt, mid := MapInto(umap, PageOf(virt), Pte(true, true, true, false, FrameOf(phys)), true);
      if ok && Ix(PageOf(virt), 4) != DIRECT_SLOT {
        MappedReads(old(mem[..]), old(role), umap, PageOf(virt), Pte(true, true, true, false, FrameOf(phys)));
        UserPagesWritten(mem[..], role, k, umap, PageOf(virt));
      }
    }

    /** Clears a page of the body's own map, if it has a 4 KiB leaf. */
    method VmmUnmap(virt: nat)
      requires Inv()
      modifies mem
      ensures Inv()
      ensures var v := PageOf(virt);
              && k.pml4 < FRAMES && Query(mem[..], k.pml4, v) == ABSENT
              && mem[..] == Cleared(old(mem[..]), k.pml4, v)
      ensures forall r: nat, w: Page :: IsTable(role, r, 4) && r < FRAMES && !SameLeaf(k.pml4, PageOf(virt), r, w) ==>
                Query(mem[..], r, w) == Query(old(mem[..]), r, w)
      ensures HalvesKept(old(mem[..]), role, mem[..], k)
    {
      hide Owned, KernelEntries, Query, Balanced, HalfMatches, Tree, CountFree, HalvesKept, UserOpen;
      var v := PageOf(virt);
      ghost var m0 := mem[..];
      KernelInside(m0, role, k);
      var ok, t := FollowTo(k.pml4, v);
      UnmapLaw(m0, role, k, v);
      if ok {
        LeafTree(m0, role, k, t, Ix(v, 1), ABSENT);
        LeafKernel(m0, role, k, t, Ix(v, 1), ABSENT);
        LeafOpen(m0, role, k, t, Ix(v, 1), ABSENT);
        SetEntry(t, Ix(v, 1), ABSENT);
      } else {
        NothingLost(m0, role, k);
      }
    }

    /** The leaf of a page under a root; absent, or under a huge page, it reads as nothing. */
    method VmmQueryIn(root: nat, virt: nat) returns (e: Pte)
      requires Inv() && IsTable(role, root, 4)
      ensures root < FRAMES && e == Query(mem[..], root, PageOf(virt))
    {
      hide Owned, KernelEntries, Balanced, HalfMatches, Tree, CountFree, Query, UserOpen;
      var v := PageOf(virt);
      RootInside(mem[..], role, k, root);
      DescendEnds(mem[..], role, k, root, 4, v);
      QueryIs(mem[..], root, v);
      var ok, t := FollowTo(root, v);
      if !ok { return ABSENT; }
      return mem[t][Ix(v, 1)];
    }

    // ---- more maps ---------------------------------------------------------------------------------------------

    /** Three frames, or none: what was taken before running out is given back. */
    method TakeThree() returns (a: nat, b: nat, c: nat)
      requires Shaped() && pmm.Valid() && pmm.Used()[0]
      modifies pmm, pmm.bitmap
      ensures pmm.Valid() && pmm.Used()[0]
      ensures a == 0 ==> pmm.Used() == old(pmm.Used()) && old(pmm.freeFrames) < 3
      ensures a != 0 ==> a < FRAMES && b < FRAMES && c < FRAMES && a != b && a != c && b != c
                         && !old(pmm.Used())[a] && !old(pmm.Used())[b] && !old(pmm.Used())[c]
                         && pmm.Used() == old(pmm.Used())[a := true][b := true][c := true]
    {
      hide CountFree;
      b, c := 0, 0;
      a := pmm.Alloc();
      if a == 0 { return; }
      b := pmm.Alloc();
      if b == 0 { pmm.Free(a); CountBack(old(pmm.Used()), a); return 0, 0, 0; }
      c := pmm.Alloc();
      if c == 0 { pmm.Free(a); pmm.Free(b); CountBack(old(pmm.Used()), a); return 0, 0, 0; }
    }

    /** A map of its own: an empty user half, and the body's kernel half.  Out of frames, all are given back. */
    method VmmMapNew() returns (root: nat)
      requires Inv()
      modifies mem, pmm, pmm.bitmap, `role
      ensures Inv()
      ensures root == 0 ==> mem[..] == old(mem[..]) && role == old(role) && pmm.Used() == old(pmm.Used())
                            && old(pmm.freeFrames) < 3
      ensures root != 0 ==> FreshMap(old(mem[..]), old(role), mem[..], role, k, root)
      ensures root != 0 && Owned(old(mem[..]), old(role)) ==> Owned(mem[..], role)
    {
      hide Owned, KernelEntries, Tree, FreshMap, CanMapNew, NewMap, CountFree, Balanced, NewRoles, UserOpen;
      ghost var m0 := mem[..];
      KernelInside(m0, role, k);
      FreeIsNobodys(pmm.Used(), role, reserved, held, k);
      var pdpt, pd;
      root, pdpt, pd := TakeThree();
      if root == 0 { return; }
      CanMap(m0, role, k, root, pdpt, pd);
      BuildMap(root, pdpt, pd);
      NewMapTree(m0, role, k, root, pdpt, pd);
      NewMapOpen(m0, role, k, root, pdpt, pd);
      if Owned(m0, role) { NewMapOwned(m0, role, k, root, pdpt, pd); }
      NewMapViews(m0, role, k, root, pdpt, pd);
      StillTable(m0, role, mem[..], NewRoles(role, root, pdpt, pd), k, root, umap);
      BalanceThree(old(pmm.Used()), role, reserved, held, k, root, pdpt, pd);
      role := NewRoles(role, root, pdpt, pd);
    }

    method BuildMap(root: nat, pdpt: nat, pd: nat)
      requires Shaped() && root < FRAMES && pdpt < FRAMES && pd < FRAMES && k.pml4 < FRAMES && k.pdLow < FRAMES
      requires root != pdpt && root != pd && pdpt != pd
      requires k.pml4 !in {root, pdpt, pd} && k.pdLow !in {root, pdpt, pd}
      modifies mem
      ensures mem[..] == NewMap(old(mem[..]), k, root, pdpt, pd)
    {
      ClearTable(root); ClearTable(pdpt); ClearTable(pd);
      var i := 0;
      while i < IDENTITY_SLOTS
        invariant 0 <= i <= IDENTITY_SLOTS
        invariant forall f :: 0 <= f < FRAMES && f !in {root, pdpt, pd} ==> mem[f] == old(mem[f])
        invariant mem[root] == mem[pdpt] == ZeroTable()
        invariant forall j :: 0 <= j < 512 ==> mem[pd][j] == if j < i then old(mem[k.pdLow][j]) else ABSENT
      {
        mem[pd] := mem[pd][i := mem[k.pdLow][i]];
        i := i + 1;
      }
      mem[pdpt] := mem[pdpt][0 := Pte(true, true, false, false, pd)];
      mem[root] := mem[root][0 := Pte(true, true, false, false, pdpt)];
      mem[root] := mem[root][DIRECT_SLOT := mem[k.pml4][DIRECT_SLOT]];
      ghost var want := NewMap(old(mem[..]), k, root, pdpt, pd);
      assert mem[pd] == want[pd];
      assert mem[..] == want;
    }

    /** Makes a map the one user pages go to. */
    method VmmSwitch(root: nat)
      requires Inv() && IsTable(role, root, 4)
      modifies `umap
      ensures Inv() && umap == root
    {
      hide Owned, KernelEntries, Tree, UserOpen;
      umap := root;
    }

    /** Whether a map carries the kernel half unchanged. */
    method VmmMapKernelHalfMatches(root: nat) returns (same: bool)
      requires Inv() && IsTable(role, root, 4)
      ensures root < FRAMES && k.pml4 < FRAMES && k.pdLow < FRAMES && (same <==> HalfMatches(mem[..], k, root))
    {
      hide Owned, Balanced, UserOpen;
      assert LinkOk(mem[..], role, k, root, 0);
      if mem[root][DIRECT_SLOT] != mem[k.pml4][DIRECT_SLOT] { return false; }
      if !mem[root][0].present || mem[root][0].ps { return false; }
      var pdpt := mem[root][0].frame;
      assert LinkOk(mem[..], role, k, pdpt, 0);
      if !mem[pdpt][0].present || mem[pdpt][0].ps { return false; }
      var pd := mem[pdpt][0].frame;
      var i := 0;
      while i < IDENTITY_SLOTS
        invariant 0 <= i <= IDENTITY_SLOTS
        invariant forall j :: 0 <= j < i ==> mem[pd][j] == mem[k.pdLow][j]
      {
        if mem[pd][i] != mem[k.pdLow][i] { return false; }
        i := i + 1;
      }
      return true;
    }
  }

  lemma RootInside(mem: Memory, role: Roles, k: Statics, root: nat)
    requires Tree(mem, role, k) && IsTable(role, root, 4)
    ensures root < FRAMES && |mem| == FRAMES && k.pml4 < FRAMES && k.pdLow < FRAMES && IsTable(role, k.pml4, 4)
    ensures k.pml4 in role && k.pdLow in role
  {
  }

  lemma RootIsOpen(mem: Memory, role: Roles, k: Statics, root: nat)
    requires Tree(mem, role, k) && IsTable(role, root, 4)
    ensures OpenTo(mem, role, k, root)
  {
    RootLevel(mem, role, k, root);
  }

  /** The table under a slot open to ring 3 has an open link, or is the direct map's. */
  lemma NextOpen(mem: Memory, role: Roles, k: Statics, t: nat, i: nat, next: nat)
    requires Tree(mem, role, k) && t in role && LevelOf(role[t]) >= 2 && t < |mem| && i < 512 && mem[t][i].user
    requires next in role && role[next] == SlotRole(role, k, t, i)
    ensures OpenTo(mem, role, k, next)
  {
    if SharedSlot(role, k, t, i) {
      assert SubOk(mem, role, next) && SubOk(mem, role, k.pdptHigh);
    }
  }

  lemma QueryIs(mem: Memory, root: nat, v: Page)
    requires root < |mem|
    ensures Query(mem, root, v) == QueryFrom(mem, root, 4, v)
  {
  }

  lemma KernelInside(mem: Memory, role: Roles, k: Statics)
    requires Tree(mem, role, k)
    ensures k.pml4 < FRAMES && k.pdLow < FRAMES && k.pml4 in role && k.pdLow in role && |mem| == FRAMES
    ensures IsTable(role, k.pml4, 4)
  {
  }

  lemma CanMap(mem: Memory, role: Roles, k: Statics, r: nat, pdpt: nat, pd: nat)
    requires Tree(mem, role, k) && KernelEntries(mem, k)
    requires r < FRAMES && pdpt < FRAMES && pd < FRAMES && r != pdpt && r != pd && pdpt != pd
    requires r !in role && pdpt !in role && pd !in role
    ensures CanMapNew(mem, role, k, r, pdpt, pd)
  {
  }

  /** What a new map is: an empty user half, the body's direct map and kernel half; and no other map has changed. */
  ghost predicate FreshMap(m0: Memory, r0: Roles, m1: Memory, r1: Roles, k: Statics, root: nat) {
    && |m0| == |m1| == FRAMES && root < FRAMES && k.pml4 < FRAMES && k.pdLow < FRAMES
    && IsTable(r1, root, 4) && root !in r0 && (forall r: nat :: IsTable(r1, r, 4) ==> r == root || IsTable(r0, r, 4))
    && (forall f: nat :: f in r0 ==> f in r1 && r1[f] == r0[f])
    && (forall v: Page :: Query(m1, root, v) == if Ix(v, 4) == DIRECT_SLOT then Query(m0, k.pml4, v) else ABSENT)
    && SameView(m0, r0, m1) && HalfMatches(m1, k, root) && HalvesKept(m0, r0, m1, k)
  }

  /** The frame given back leaves the count where it was. */
  lemma CountBack(used: seq<bool>, f: nat)
    requires f < |used| && !used[f]
    ensures used[f := true][f := false] == used
  {
  }

  lemma MappedLaw(m0: Memory, r0: Roles, mid: Memory, role: Roles, k: Statics, root: nat, v: Page, leaf: Pte)
    requires Kept(m0, r0, mid, role, k) && IsTable(r0, root, 4)
    requires root < |mid| && Descend(mid, root, 4, v).At?
    ensures var pt := Descend(mid, root, 4, v).table;
            && pt < |mid| && Query(Poke(mid, pt, Ix(v, 1), leaf), root, v) == leaf
            && forall r: nat, w: Page :: IsTable(r0, r, 4) && r < FRAMES && !SameLeaf(root, v, r, w) ==>
                 Query(Poke(mid, pt, Ix(v, 1), leaf), r, w) == Query(m0, r, w)
  {
    hide Owned, KernelEntries, LinkOk, SubOk, StaticRoles, Query, UserOpen;
    var pt := Descend(mid, root, 4, v).table;
    DescendEnds(mid, role, k, root, 4, v);
    LeafChangesOne(mid, role, k, root, v, leaf, root, v);
    forall r: nat, w: Page | IsTable(r0, r, 4) && r < FRAMES && !SameLeaf(root, v, r, w)
      ensures Query(Poke(mid, pt, Ix(v, 1), leaf), r, w) == Query(m0, r, w)
    {
      assert IsTable(role, r, 4);
      LeafChangesOne(mid, role, k, root, v, leaf, r, w);
    }
  }

  lemma UnmapLaw(mem: Memory, role: Roles, k: Statics, v: Page)
    requires Tree(mem, role, k)
    ensures k.pml4 < |mem|
    ensures Descend(mem, k.pml4, 4, v) == Missing ==> Query(mem, k.pml4, v) == ABSENT
    ensures Descend(mem, k.pml4, 4, v) != Missing ==>
              var pt := Descend(mem, k.pml4, 4, v).table;
              && pt < |mem| && Query(Poke(mem, pt, Ix(v, 1), ABSENT), k.pml4, v) == ABSENT
              && (forall r: nat, w: Page :: IsTable(role, r, 4) && r < FRAMES && !SameLeaf(k.pml4, v, r, w) ==>
                    Query(Poke(mem, pt, Ix(v, 1), ABSENT), r, w) == Query(mem, r, w))
  {
    KeptSelf(mem, role, k);
    DescendEnds(mem, role, k, k.pml4, 4, v);
    if Descend(mem, k.pml4, 4, v).At? {
      MappedLaw(mem, role, mem, role, k, k.pml4, v, ABSENT);
    }
  }

  lemma StillTable(m0: Memory, r0: Roles, m1: Memory, r1: Roles, k: Statics, root: nat, t: nat)
    requires FreshMap(m0, r0, m1, r1, k, root) && IsTable(r0, t, 4)
    ensures IsTable(r1, t, 4)
  {
  }

  lemma NewMapViews(mem: Memory, role: Roles, k: Statics, r: nat, pdpt: nat, pd: nat)
    requires CanMapNew(mem, role, k, r, pdpt, pd) && k.pml4 < FRAMES && k.pdLow < FRAMES && |mem| == FRAMES
    ensures KernelEntries(NewMap(mem, k, r, pdpt, pd), k)
    ensures FreshMap(mem, role, NewMap(mem, k, r, pdpt, pd), NewRoles(role, r, pdpt, pd), k, r)
  {
    hide KernelEntries, Tree, NewMap, HalfMatches, Query, UserOpen;
    var mem' := NewMap(mem, k, r, pdpt, pd);
    NewMapLaw(mem, role, k, r, pdpt, pd, 0);
    forall v: Page ensures Query(mem', r, v) == if Ix(v, 4) == DIRECT_SLOT then Query(mem, k.pml4, v) else ABSENT {
      NewMapLaw(mem, role, k, r, pdpt, pd, v);
    }
    NewMapSame(mem, role, k, r, pdpt, pd);
  }

  lemma NewMapSame(mem: Memory, role: Roles, k: Statics, r: nat, pdpt: nat, pd: nat)
    requires CanMapNew(mem, role, k, r, pdpt, pd) && k.pml4 < FRAMES && k.pdLow < FRAMES && |mem| == FRAMES
    ensures |NewMap(mem, k, r, pdpt, pd)| == FRAMES && SameView(mem, role, NewMap(mem, k, r, pdpt, pd))
  {
    hide KernelEntries, Tree, UserOpen;
    var mem' := NewMap(mem, k, r, pdpt, pd);
    assert |mem'| == FRAMES;
    forall q: nat, v: Page | IsTable(role, q, 4) && q < FRAMES ensures Query(mem', q, v) == Query(mem, q, v) {
      NewMapKeeps(mem, role, k, r, pdpt, pd, q, 4, v);
    }
  }

  /** A huge page stands on the way to a 4 KiB leaf. */
  predicate Blocked(mem: Memory, t: nat, level: nat, v: Page)
    requires t < |mem| && 1 <= level <= 4
    decreases level
  {
    level > 1 &&
    var e := mem[t][Ix(v, level)];
    e.ps || (IsLink(e) && e.frame < |mem| && Blocked(mem, e.frame, level - 1, v))
  }

  lemma NoWay3(mem: Memory, root: nat, v: Page)
    requires root < |mem| && mem[root][Ix(v, 4)].ps
    ensures Blocked(mem, root, 4, v)
  {
  }

  /** The slot leads to that table. */
  predicate Down(mem: Memory, t: nat, i: nat, next: nat) {
    t < |mem| && i < 512 && next < |mem| && IsLink(mem[t][i]) && mem[t][i].frame == next
  }

  /** A table whose role is that of a root's slot is where the slot leads. */
  lemma DownRoot(mem: Memory, role: Roles, k: Statics, root: nat, t3: nat, v: Page)
    requires Tree(mem, role, k) && IsTable(role, root, 4)
    requires t3 in role && role[t3] == SlotRole(role, k, root, Ix(v, 4))
    ensures Down(mem, root, Ix(v, 4), t3) && IsTable(role, t3, 3)
  {
    assert SubOk(mem, role, t3);
    RootOf(mem, role, k, root);
  }

  lemma NoWay2(mem: Memory, role: Roles, k: Statics, root: nat, t3: nat, v: Page)
    requires Tree(mem, role, k) && Down(mem, root, Ix(v, 4), t3) && IsTable(role, t3, 3)
    requires mem[t3][Ix(v, 3)].ps
    ensures root < |mem| && Blocked(mem, root, 4, v)
  {
    assert Blocked(mem, t3, 3, v);
  }

  lemma NoWay1(mem: Memory, role: Roles, k: Statics, root: nat, t3: nat, t2: nat, v: Page)
    requires Tree(mem, role, k) && Down(mem, root, Ix(v, 4), t3) && IsTable(role, t3, 3)
    requires t2 in role && role[t2] == Sub(2, t3, Ix(v, 3)) && mem[t2][Ix(v, 2)].ps
    ensures root < |mem| && Blocked(mem, root, 4, v)
  {
    assert SubOk(mem, role, t2);
    assert Blocked(mem, t2, 2, v);
    assert Blocked(mem, t3, 3, v);
  }

  /** Three tables that hang one under another along a page's indices are its walk. */
  lemma ByRoles(mem: Memory, role: Roles, k: Statics, root: nat, t3: nat, t2: nat, pt: nat, v: Page)
    requires Tree(mem, role, k) && Down(mem, root, Ix(v, 4), t3) && IsTable(role, t3, 3)
    requires t2 in role && role[t2] == Sub(2, t3, Ix(v, 3)) && pt in role && role[pt] == Sub(1, t2, Ix(v, 2))
    ensures root < |mem| && IsTable(role, pt, 1) && Descend(mem, root, 4, v) == At(pt)
  {
    assert SubOk(mem, role, t2) && SubOk(mem, role, pt);
    assert Descend(mem, t2, 2, v) == At(pt);
    assert Descend(mem, t3, 3, v) == At(pt);
  }

  lemma KeptRole(m0: Memory, r0: Roles, m1: Memory, r1: Roles, k: Statics, t: nat)
    requires Kept(m0, r0, m1, r1, k) && t in r0
    ensures t in r1 && r1[t] == r0[t]
  {
  }

  lemma Chain(m0: Memory, r0: Roles, m1: Memory, r1: Roles, m2: Memory, r2: Roles, k: Statics)
    requires Kept(m0, r0, m1, r1, k) && Kept(m1, r1, m2, r2, k)
    ensures Kept(m0, r0, m2, r2, k)
    ensures |m0| == |m1| == |m2| == FRAMES && k.pml4 < FRAMES && k.pdLow < FRAMES
    ensures HalvesKept(m0, r0, m1, k) && HalvesKept(m1, r1, m2, k) ==> HalvesKept(m0, r0, m2, k)
  {
    KeptTwice(m0, r0, m1, r1, m2, r2, k);
  }

  predicate FiveApart(k: Statics) {
    && k.pml4 != k.pdptLow && k.pml4 != k.pdLow && k.pml4 != k.pdptHigh && k.pml4 != k.pdDirect
    && k.pdptLow != k.pdLow && k.pdptLow != k.pdptHigh && k.pdptLow != k.pdDirect
    && k.pdLow != k.pdptHigh && k.pdLow != k.pdDirect && k.pdptHigh != k.pdDirect
  }

  function StaticFrames(k: Statics): set<nat> { {k.pml4, k.pdptLow, k.pdLow, k.pdptHigh, k.pdDirect} }

  /** What the five tables are for. */
  function BootRoles(k: Statics): (role: Roles)
    requires FiveApart(k)
    ensures role.Keys == StaticFrames(k) && StaticRoles(role, k) && IsTable(role, k.pml4, 4)
    ensures (0 < k.pml4 && 0 < k.pdptLow && 0 < k.pdLow && 0 < k.pdptHigh && 0 < k.pdDirect) ==> 0 !in role
  {
    map[k.pml4 := Root, k.pdptLow := Sub(3, k.pml4, 0), k.pdLow := Sub(2, k.pdptLow, 0),
        k.pdptHigh := Sub(3, k.pml4, DIRECT_SLOT), k.pdDirect := Sub(2, k.pdptHigh, 0)]
  }

  lemma NothingLost(mem: Memory, role: Roles, k: Statics)
    requires Tree(mem, role, k)
    ensures HalvesKept(mem, role, mem, k)
  {
  }

  /** What the tree says of a slot of an upper table: its link, if it has one, leads where its index says. */
  lemma SlotFacts(mem: Memory, role: Roles, k: Statics, t: nat, i: nat)
    requires Tree(mem, role, k) && t in role && LevelOf(role[t]) >= 2 && i < 512
    ensures t < FRAMES && LevelOf(role[t]) <= 4 && k.pml4 < FRAMES && k.pdLow < FRAMES
    ensures IsLink(mem[t][i]) ==> mem[t][i].frame in role && role[mem[t][i].frame] == SlotRole(role, k, t, i)
    ensures SharedSlot(role, k, t, i) ==> IsLink(mem[t][i])
  {
    assert LinkOk(mem, role, k, t, i);
    if role[t].Sub? {
      assert SubOk(mem, role, t);
    }
  }

  lemma FreshSlot(mem: Memory, role: Roles, k: Statics, t: nat, i: nat, f: nat, e: Pte)
    requires Tree(mem, role, k) && t in role && LevelOf(role[t]) >= 2 && i < 512 && !SharedSlot(role, k, t, i)
    requires !mem[t][i].present && !mem[t][i].ps && f !in role && f < FRAMES && IsLink(e) && e.frame == f
    ensures AtEmptySlot(mem, role, k, t, i, f, e)
  {
  }

  /** The boot map as vmm_init lays it out. */
  ghost predicate BootLayout(mem: Memory, k: Statics) {
    && |mem| == FRAMES && KernelEntries(mem, k) && k.pdptLow < FRAMES
    && mem[k.pml4][0] == Pte(true, true, false, false, k.pdptLow)
    && mem[k.pdptLow][0] == Pte(true, true, false, false, k.pdLow)
    && mem[k.pml4][DIRECT_SLOT] == Pte(true, true, false, false, k.pdptHigh)
    && mem[k.pdptHigh][0] == Pte(true, true, false, false, k.pdDirect)
    && (forall j :: 0 <= j < 512 && j != 0 && j != DIRECT_SLOT ==> mem[k.pml4][j] == ABSENT)
    && (forall j :: 1 <= j < 512 ==> mem[k.pdptLow][j] == ABSENT && mem[k.pdptHigh][j] == ABSENT)
    && (forall j :: IDENTITY_SLOTS <= j < 512 ==> mem[k.pdLow][j] == ABSENT)
  }

  lemma BootTree(mem: Memory, role: Roles, k: Statics)
    requires BootLayout(mem, k) && FiveApart(k)
    requires role.Keys == StaticFrames(k) && StaticRoles(role, k)
    ensures Tree(mem, role, k) && Owned(mem, role)
  {
    hide LinkOk, SubOk, BootLayout, FiveApart;
    BootSize(mem, k);
    forall t, i | t in role && LevelOf(role[t]) >= 2 && 0 <= i < 512 ensures LinkOk(mem, role, k, t, i) {
      BootLink(mem, role, k, t, i);
    }
    forall f | f in role && role[f].Sub? ensures SubOk(mem, role, f) {
      BootSub(mem, role, k, f);
    }
  }

  lemma BootOpen(mem: Memory, role: Roles, k: Statics)
    requires BootLayout(mem, k) && FiveApart(k)
    requires role.Keys == StaticFrames(k) && StaticRoles(role, k)
    ensures UserOpen(mem, role, k)
  {
    hide BootLayout;
    forall t, i | t in role && !role[t].Leaf? && t < |mem| && 0 <= i < 512 ensures EntryOpen(mem, role, k, t, i) {
      BootEntry(mem, role, k, t, i);
    }
  }

  lemma BootEntry(mem: Memory, role: Roles, k: Statics, t: nat, i: nat)
    requires BootLayout(mem, k) && FiveApart(k) && t in StaticFrames(k) && t < |mem| && i < 512
    ensures EntryOpen(mem, role, k, t, i)
  {
    hide OpenTo;
    if t == k.pdDirect { assert mem[t][i] == HugePte(i); }
    if t == k.pdLow && i < IDENTITY_SLOTS { assert mem[t][i] == HugePte(i); }
  }

  lemma BootSize(mem: Memory, k: Statics)
    requires BootLayout(mem, k)
    ensures |mem| == FRAMES && forall f :: f in StaticFrames(k) ==> f < FRAMES
    ensures k.pml4 < FRAMES && SharesDirect(mem, k, k.pml4)
  {
  }

  lemma BootLink(mem: Memory, role: Roles, k: Statics, t: nat, i: nat)
    requires BootLayout(mem, k) && FiveApart(k) && role.Keys == StaticFrames(k) && StaticRoles(role, k)
    requires t in role && LevelOf(role[t]) >= 2 && t < |mem| && i < 512
    ensures LinkOk(mem, role, k, t, i)
  {
  }

  lemma BootSub(mem: Memory, role: Roles, k: Statics, f: nat)
    requires BootLayout(mem, k) && FiveApart(k) && role.Keys == StaticFrames(k) && StaticRoles(role, k)
    requires f in role && role[f].Sub?
    ensures SubOk(mem, role, f)
  {
  }

  lemma BootMap(mem: Memory, k: Statics)
    requires BootLayout(mem, k) && FiveApart(k)
    ensures KernelEntries(mem, k) && HalfMatches(mem, k, k.pml4)
    ensures forall v: Page :: Query(mem, k.pml4, v) == ABSENT
  {
    forall v: Page ensures Query(mem, k.pml4, v) == ABSENT {
      if Ix(v, 4) == DIRECT_SLOT {
        assert QueryFrom(mem, k.pdDirect, 2, v) == ABSENT;
        assert QueryFrom(mem, k.pdptHigh, 3, v) == ABSENT;
      } else if Ix(v, 4) == 0 {
        assert QueryFrom(mem, k.pdLow, 2, v) == ABSENT;
        assert QueryFrom(mem, k.pdptLow, 3, v) == ABSENT;
      }
    }
  }
}
