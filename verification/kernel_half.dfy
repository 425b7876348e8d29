/** The half of every address map that belongs to the body, and what a table operation must keep of all maps. */
module KernelHalf {
  import opened PageTree

  /** Huge-page slots of the retained identity: CANONICAL_BASE / 2 MiB. */
  const IDENTITY_SLOTS: nat := 2

  /** Pages below CANONICAL_BASE. */
  const IDENTITY_PAGES: nat := 1024

  /** A supervisor huge page over the i-th 2 MiB of physical memory. */
  function HugePte(i: nat): Pte { Pte(true, true, false, true, 512 * i) }

  /** The body's own kernel half, as vmm_init leaves it and as every later operation must. */
  predicate KernelEntries(mem: Memory, k: Statics) {
    && |mem| == FRAMES && k.pdLow < FRAMES && k.pdDirect < FRAMES && k.pdptHigh < FRAMES && k.pml4 < FRAMES
    && (forall i :: 0 <= i < IDENTITY_SLOTS ==> mem[k.pdLow][i] == HugePte(i))
    && (forall i :: 0 <= i < 512 ==> mem[k.pdDirect][i] == HugePte(i))
    && IsLink(mem[k.pdptHigh][0]) && mem[k.pdptHigh][0].frame == k.pdDirect
    && IsLink(mem[k.pml4][DIRECT_SLOT]) && mem[k.pml4][DIRECT_SLOT].frame == k.pdptHigh
  }

  /** vmm_map_kernel_half_matches: the direct-map slot equal to the body's, and the identity entries equal. */
  predicate HalfMatches(mem: Memory, k: Statics, r: nat)
    requires r < |mem| && k.pml4 < |mem| && k.pdLow < |mem|
  {
    && mem[r][DIRECT_SLOT] == mem[k.pml4][DIRECT_SLOT]
    && LinksTo(mem, r, 0) && LinksTo(mem, mem[r][0].frame, 0)
    && forall i :: 0 <= i < IDENTITY_SLOTS ==> mem[mem[mem[r][0].frame][0].frame][i] == mem[k.pdLow][i]
  }

  predicate LinksTo(mem: Memory, t: nat, i: nat)
    requires t < |mem| && i < 512
  {
    IsLink(mem[t][i]) && mem[t][i].frame < |mem|
  }

  /** Ring 3 reaches the page: USER at every level down to its leaf or huge page. */
  predicate UserReaches(mem: Memory, t: nat, level: nat, v: Page)
    requires t < |mem| && 1 <= level <= 4
    decreases level
  {
    var e := mem[t][Ix(v, level)];
    e.present && e.user && (level == 1 || e.ps || (e.frame < |mem| && UserReaches(mem, e.frame, level - 1, v)))
  }

  /** Whatever intermediate tables have been opened to ring 3, the low identity stays the body's in every map
      that carries the kernel half. */
  lemma IdentityNeverUser(mem: Memory, k: Statics, r: nat, v: Page)
    requires KernelEntries(mem, k) && r < |mem| && HalfMatches(mem, k, r) && v < IDENTITY_PAGES
    ensures !UserReaches(mem, r, 4, v)
  {
    assert Ix(v, 4) == 0 && Ix(v, 3) == 0 && Ix(v, 2) < IDENTITY_SLOTS;
    var pdpt := mem[r][0].frame;
    var pd := mem[pdpt][0].frame;
    assert mem[pd][Ix(v, 2)] == HugePte(Ix(v, 2));
    assert !UserReaches(mem, pd, 2, v);
    assert !UserReaches(mem, pdpt, 3, v);
  }

  /** And so does the first gibibyte of the direct map. */
  lemma DirectMapNeverUser(mem: Memory, k: Statics, r: nat, v: Page)
    requires KernelEntries(mem, k) && r < |mem| && HalfMatches(mem, k, r)
    requires Ix(v, 4) == DIRECT_SLOT && Ix(v, 3) == 0
    ensures !UserReaches(mem, r, 4, v)
  {
    assert mem[k.pdDirect][Ix(v, 2)] == HugePte(Ix(v, 2));
    assert !UserReaches(mem, k.pdDirect, 2, v);
    assert !UserReaches(mem, k.pdptHigh, 3, v);
  }

  // ---- what a table operation keeps ------------------------------------------------------------------------

  /** No page of any map reads differently. */
  ghost predicate SameView(mem: Memory, role: Roles, mem': Memory)
    requires |mem| == |mem'| == FRAMES
  {
    forall r: nat, v: Page :: IsTable(role, r, 4) && r < FRAMES ==> Query(mem', r, v) == Query(mem, r, v)
  }

  /** Every map that carried the kernel half still does. */
  ghost predicate HalvesKept(mem: Memory, role: Roles, mem': Memory, k: Statics)
    requires |mem| == |mem'| == FRAMES && k.pml4 < FRAMES && k.pdLow < FRAMES
  {
    forall r: nat :: IsTable(role, r, 4) && r < FRAMES && HalfMatches(mem, k, r) ==> HalfMatches(mem', k, r)
  }

  /** The frames that gained a role became tables; none lost or changed one. */
  ghost predicate OnlyTablesAdded(role: Roles, role': Roles) {
    && (forall f: nat :: f in role ==> f in role' && role'[f] == role[f])
    && (forall f: nat :: f in role' && f !in role ==> role'[f].Sub?)
  }

  /** The bytes of every page are as they were. */
  ghost predicate PagesKept(mem: Memory, role: Roles, mem': Memory) {
    |mem| == |mem'| && forall f: nat :: f in role && role[f].Leaf? && f < |mem| ==> mem'[f] == mem[f]
  }

  /** Tables may have been added; no page of any map, no ownership and no kernel half has changed. */
  ghost predicate Kept(mem: Memory, role: Roles, mem': Memory, role': Roles, k: Statics) {
    && Tree(mem, role, k) && Tree(mem', role', k)
    && OnlyTablesAdded(role, role') && SameView(mem, role, mem') && PagesKept(mem, role, mem')
    && (Owned(mem, role) ==> Owned(mem', role'))
    && (KernelEntries(mem, k) ==> KernelEntries(mem', k))
  }

  lemma KeptSelf(mem: Memory, role: Roles, k: Statics)
    requires Tree(mem, role, k)
    ensures Kept(mem, role, mem, role, k)
  {
  }

  lemma KeptTwice(m0: Memory, r0: Roles, m1: Memory, r1: Roles, m2: Memory, r2: Roles, k: Statics)
    requires Kept(m0, r0, m1, r1, k) && Kept(m1, r1, m2, r2, k)
    ensures Kept(m0, r0, m2, r2, k)
  {
    hide Owned, KernelEntries, Query, LinkOk, SubOk, StaticRoles;
    forall r: nat, v: Page | IsTable(r0, r, 4) && r < FRAMES ensures Query(m2, r, v) == Query(m0, r, v) {
      assert IsTable(r1, r, 4);
    }
  }

  ghost predicate AtEmptySlot(mem: Memory, role: Roles, k: Statics, t: nat, i: nat, f: nat, e: Pte) {
    CanLink(mem, role, k, t, i, f, e) && !mem[t][i].present && !mem[t][i].ps
  }

  lemma LinkedOwned(mem: Memory, role: Roles, k: Statics, t: nat, i: nat, f: nat, e: Pte)
    requires AtEmptySlot(mem, role, k, t, i, f, e) && Owned(mem, role)
    ensures Owned(Linked(mem, t, i, f, e), role[f := Sub(LevelOf(role[t]) - 1, t, i)])
  {
    hide Tree;
    var mem', role' := Linked(mem, t, i, f, e), role[f := Sub(LevelOf(role[t]) - 1, t, i)];
    forall s, j | s in role' && LevelOf(role'[s]) == 1 && 0 <= j < 512 && Mine(mem'[s][j])
      ensures mem'[s][j].frame in role' && role'[mem'[s][j].frame] == Leaf(s, j)
    {
      assert s != f && mem'[s] == mem[s];
    }
    forall g | g in role' && role'[g].Leaf? ensures LeafOk(mem', role', g) {
      assert LeafOk(mem, role, g);
    }
  }

  lemma LinkedKernel(mem: Memory, role: Roles, k: Statics, t: nat, i: nat, f: nat, e: Pte)
    requires AtEmptySlot(mem, role, k, t, i, f, e) && KernelEntries(mem, k)
    ensures KernelEntries(Linked(mem, t, i, f, e), k) && HalvesKept(mem, role, Linked(mem, t, i, f, e), k)
  {
    var mem' := Linked(mem, t, i, f, e);
    forall r: nat | IsTable(role, r, 4) && r < FRAMES && HalfMatches(mem, k, r) ensures HalfMatches(mem', k, r) {
      assert LinkOk(mem, role, k, r, 0) && LinkOk(mem, role, k, mem[r][0].frame, 0);
    }
  }

  /** Linking a fresh zeroed table into an empty slot, in place. */
  lemma LinkedKeeps(mem: Memory, role: Roles, k: Statics, t: nat, i: nat, f: nat, e: Pte)
    requires AtEmptySlot(mem, role, k, t, i, f, e)
    ensures Kept(mem, role, Linked(mem, t, i, f, e), role[f := Sub(LevelOf(role[t]) - 1, t, i)], k)
    ensures KernelEntries(mem, k) ==> HalvesKept(mem, role, Linked(mem, t, i, f, e), k)
  {
    hide Owned, KernelEntries, HalvesKept, Query;
    var mem', role' := Linked(mem, t, i, f, e), role[f := Sub(LevelOf(role[t]) - 1, t, i)];
    LinkTree(mem, role, k, t, i, f, e);
    LinkedView(mem, role, k, t, i, f, e);
    if Owned(mem, role) {
      LinkedOwned(mem, role, k, t, i, f, e);
    }
    if KernelEntries(mem, k) {
      LinkedKernel(mem, role, k, t, i, f, e);
    }
  }

  lemma LinkedView(mem: Memory, role: Roles, k: Statics, t: nat, i: nat, f: nat, e: Pte)
    requires AtEmptySlot(mem, role, k, t, i, f, e)
    ensures SameView(mem, role, Linked(mem, t, i, f, e))
  {
    forall r: nat, v: Page | IsTable(role, r, 4) && r < FRAMES
      ensures Query(Linked(mem, t, i, f, e), r, v) == Query(mem, r, v)
    {
      LinkKeeps(mem, role, k, t, i, f, e, r, 4, v);
    }
  }

  /** Opening a link to ring 3, in place.  Only opening the direct map's slot parts a map from the body's. */
  lemma PromotedKeeps(mem: Memory, role: Roles, k: Statics, t: nat, i: nat)
    requires Tree(mem, role, k) && t in role && LevelOf(role[t]) >= 2 && i < 512 && IsLink(mem[t][i])
    ensures Kept(mem, role, Promoted(mem, t, i), role, k)
    ensures KernelEntries(mem, k) && !(role[t].Root? && i == DIRECT_SLOT) ==>
              HalvesKept(mem, role, Promoted(mem, t, i), k)
  {
    hide Owned, KernelEntries, HalvesKept, Query;
    PromoteTree(mem, role, k, t, i);
    PromotedView(mem, role, k, t, i);
    if Owned(mem, role) {
      PromotedOwned(mem, role, t, i);
    }
    if KernelEntries(mem, k) {
      PromotedKernel(mem, role, k, t, i);
    }
  }

  lemma PromotedView(mem: Memory, role: Roles, k: Statics, t: nat, i: nat)
    requires Tree(mem, role, k) && t in role && LevelOf(role[t]) >= 2 && i < 512
    ensures SameView(mem, role, Promoted(mem, t, i))
  {
    forall r: nat, v: Page | IsTable(role, r, 4) && r < FRAMES
      ensures Query(Promoted(mem, t, i), r, v) == Query(mem, r, v)
    {
      PromoteKeeps(mem, role, k, t, i, r, 4, v);
    }
  }

  lemma PromotedOwned(mem: Memory, role: Roles, t: nat, i: nat)
    requires Owned(mem, role) && t in role && LevelOf(role[t]) >= 2 && i < 512
    ensures Owned(Promoted(mem, t, i), role)
  {
    forall g | g in role && role[g].Leaf? ensures LeafOk(Promoted(mem, t, i), role, g) {
      assert LeafOk(mem, role, g);
    }
  }

  lemma PromotedKernel(mem: Memory, role: Roles, k: Statics, t: nat, i: nat)
    requires Tree(mem, role, k) && t in role && LevelOf(role[t]) >= 2 && i < 512 && IsLink(mem[t][i])
    requires KernelEntries(mem, k)
    ensures KernelEntries(Promoted(mem, t, i), k)
    ensures !(role[t].Root? && i == DIRECT_SLOT) ==> HalvesKept(mem, role, Promoted(mem, t, i), k)
  {
    var mem' := Promoted(mem, t, i);
    if !(role[t].Root? && i == DIRECT_SLOT) {
      forall r: nat | IsTable(role, r, 4) && r < FRAMES && HalfMatches(mem, k, r) ensures HalfMatches(mem', k, r) {
        assert LinkOk(mem, role, k, r, 0) && LinkOk(mem, role, k, mem[r][0].frame, 0);
      }
    }
  }

  /** A last-level write touches no kernel half. */
  lemma LeafKernel(mem: Memory, role: Roles, k: Statics, t: nat, i: nat, e: Pte)
    requires Tree(mem, role, k) && IsTable(role, t, 1) && i < 512
    ensures KernelEntries(mem, k) ==> KernelEntries(Poke(mem, t, i, e), k)
    ensures HalvesKept(mem, role, Poke(mem, t, i, e), k)
  {
    var mem' := Poke(mem, t, i, e);
    forall r: nat | IsTable(role, r, 4) && r < FRAMES && HalfMatches(mem, k, r) ensures HalfMatches(mem', k, r) {
      assert LinkOk(mem, role, k, r, 0) && LinkOk(mem, role, k, mem[r][0].frame, 0);
    }
  }

  // ---- a new map ---------------------------------------------------------------------------------------------

  /** What vmm_map_new writes into its three frames. */
  function NewMap(mem: Memory, k: Statics, r: nat, pdpt: nat, pd: nat): Memory
    requires |mem| == FRAMES && r < FRAMES && pdpt < FRAMES && pd < FRAMES && k.pml4 < FRAMES && k.pdLow < FRAMES
  {
    var root: Table := ZeroTable()[0 := Pte(true, true, false, false, pdpt)][DIRECT_SLOT := mem[k.pml4][DIRECT_SLOT]];
    var low: Table := ZeroTable()[0 := mem[k.pdLow][0]][1 := mem[k.pdLow][1]];
    mem[r := root][pdpt := ZeroTable()[0 := Pte(true, true, false, false, pd)]][pd := low]
  }

  function NewRoles(role: Roles, r: nat, pdpt: nat, pd: nat): Roles {
    role[r := Root][pdpt := Sub(3, r, 0)][pd := Sub(2, pdpt, 0)]
  }

  ghost predicate CanMapNew(mem: Memory, role: Roles, k: Statics, r: nat, pdpt: nat, pd: nat) {
    && Tree(mem, role, k) && KernelEntries(mem, k)
    && r < FRAMES && pdpt < FRAMES && pd < FRAMES && r != pdpt && r != pd && pdpt != pd
    && r !in role && pdpt !in role && pd !in role
  }

  lemma NewMapTree(mem: Memory, role: Roles, k: Statics, r: nat, pdpt: nat, pd: nat)
    requires CanMapNew(mem, role, k, r, pdpt, pd)
    ensures Tree(NewMap(mem, k, r, pdpt, pd), NewRoles(role, r, pdpt, pd), k)
  {
    hide LinkOk, SubOk, KernelEntries;
    var mem', role' := NewMap(mem, k, r, pdpt, pd), NewRoles(role, r, pdpt, pd);
    forall s, j | s in role' && LevelOf(role'[s]) >= 2 && 0 <= j < 512 ensures LinkOk(mem', role', k, s, j) {
      NewMapLink(mem, role, k, r, pdpt, pd, s, j);
    }
    forall g | g in role' && role'[g].Sub? ensures SubOk(mem', role', g) {
      NewMapSub(mem, role, k, r, pdpt, pd, g);
    }
    NewMapShares(mem, role, k, r, pdpt, pd);
  }

  lemma NewMapLink(mem: Memory, role: Roles, k: Statics, r: nat, pdpt: nat, pd: nat, s: nat, j: nat)
    requires CanMapNew(mem, role, k, r, pdpt, pd) && j < 512
    requires s in NewRoles(role, r, pdpt, pd) && LevelOf(NewRoles(role, r, pdpt, pd)[s]) >= 2 && s < |mem|
    ensures LinkOk(NewMap(mem, k, r, pdpt, pd), NewRoles(role, r, pdpt, pd), k, s, j)
  {
    if s in role {
      assert LinkOk(mem, role, k, s, j);
    }
  }

  lemma NewMapSub(mem: Memory, role: Roles, k: Statics, r: nat, pdpt: nat, pd: nat, g: nat)
    requires CanMapNew(mem, role, k, r, pdpt, pd)
    requires g in NewRoles(role, r, pdpt, pd) && NewRoles(role, r, pdpt, pd)[g].Sub?
    ensures SubOk(NewMap(mem, k, r, pdpt, pd), NewRoles(role, r, pdpt, pd), g)
  {
    if g in role {
      assert SubOk(mem, role, g);
    }
  }

  lemma NewMapShares(mem: Memory, role: Roles, k: Statics, r: nat, pdpt: nat, pd: nat)
    requires CanMapNew(mem, role, k, r, pdpt, pd)
    ensures var mem', role' := NewMap(mem, k, r, pdpt, pd), NewRoles(role, r, pdpt, pd);
            forall q :: q in role' && role'[q].Root? ==> q < |mem'| && SharesDirect(mem', k, q)
  {
    hide LinkOk, SubOk;
  }

  lemma {:induction false} NewMapKeeps(mem: Memory, role: Roles, k: Statics, r: nat, pdpt: nat, pd: nat,
                                       s: nat, level: nat, v: Page)
    requires CanMapNew(mem, role, k, r, pdpt, pd) && 1 <= level <= 4 && IsTable(role, s, level)
    ensures QueryFrom(NewMap(mem, k, r, pdpt, pd), s, level, v) == QueryFrom(mem, s, level, v)
    decreases level
  {
    if level > 1 {
      assert LinkOk(mem, role, k, s, Ix(v, level));
      if IsLink(mem[s][Ix(v, level)]) {
        NewMapKeeps(mem, role, k, r, pdpt, pd, mem[s][Ix(v, level)].frame, level - 1, v);
      }
    }
  }

  /** A new map has an empty user half, shares the body's direct map, and matches the kernel half. */
  lemma NewMapLaw(mem: Memory, role: Roles, k: Statics, r: nat, pdpt: nat, pd: nat, v: Page)
    requires CanMapNew(mem, role, k, r, pdpt, pd)
    ensures var mem' := NewMap(mem, k, r, pdpt, pd);
            && KernelEntries(mem', k) && HalfMatches(mem', k, r) && HalvesKept(mem, role, mem', k)
            && Query(mem', r, v) == if Ix(v, 4) == DIRECT_SLOT then Query(mem, k.pml4, v) else ABSENT
  {
    var mem' := NewMap(mem, k, r, pdpt, pd);
    assert mem'[r][0] == Pte(true, true, false, false, pdpt) && mem'[pdpt][0] == Pte(true, true, false, false, pd);
    forall q: nat | IsTable(role, q, 4) && q < FRAMES && HalfMatches(mem, k, q) ensures HalfMatches(mem', k, q) {
      assert LinkOk(mem, role, k, q, 0) && LinkOk(mem, role, k, mem[q][0].frame, 0);
    }
    if Ix(v, 4) == DIRECT_SLOT {
      NewMapKeeps(mem, role, k, r, pdpt, pd, k.pdptHigh, 3, v);
    } else if Ix(v, 4) == 0 {
      assert QueryFrom(mem', pd, 2, v) == ABSENT;
      assert QueryFrom(mem', pdpt, 3, v) == ABSENT;
    }
  }

  lemma NewMapOwned(mem: Memory, role: Roles, k: Statics, r: nat, pdpt: nat, pd: nat)
    requires CanMapNew(mem, role, k, r, pdpt, pd) && Owned(mem, role)
    ensures Owned(NewMap(mem, k, r, pdpt, pd), NewRoles(role, r, pdpt, pd))
  {
    hide Tree;
    var mem', role' := NewMap(mem, k, r, pdpt, pd), NewRoles(role, r, pdpt, pd);
    forall s, j | s in role' && LevelOf(role'[s]) == 1 && 0 <= j < 512 && Mine(mem'[s][j])
      ensures mem'[s][j].frame in role' && role'[mem'[s][j].frame] == Leaf(s, j)
    {
      assert s in role && mem'[s] == mem[s];
    }
    forall g | g in role' && role'[g].Leaf? ensures LeafOk(mem', role', g) {
      assert LeafOk(mem, role, g);
    }
  }
}
