/**
 * Four-level page tables as values: 512-entry tables stored in frames, the walk from a root to a leaf
 * (section 4.5 of volume 3A of the Intel SDM), and the shape that makes the walk a map from pages to leaves.
 */
module PageTree {
  import Pmm

  /** One table fits a frame, and every frame of physical memory may hold one. */
  const FRAMES: nat := Pmm.MAX_FRAMES

  datatype Pte = Pte(present: bool, rw: bool, user: bool, ps: bool, frame: nat)

  const ABSENT := Pte(false, false, false, false, 0)

  type Table = t: seq<Pte> | |t| == 512 witness seq(512, _ => ABSENT)

  function ZeroTable(): (t: Table)
    ensures forall i :: 0 <= i < 512 ==> t[i] == ABSENT
  {
    seq(512, _ => ABSENT)
  }

  /** What every frame holds, read as a table. */
  type Memory = seq<Table>

  /** A 48-bit address without its page offset. */
  type Page = v: nat | v < 0x10_0000_0000

  /** The page an address falls in; bits above the 48th select nothing. */
  function PageOf(virt: nat): Page { virt / 4096 % 0x10_0000_0000 }

  /** The index a page selects at a level: 4 for the root, 1 for the last table. */
  function Ix(v: Page, level: nat): (i: nat)
    ensures i < 512
  {
    match level
    case 4 => v / 0x800_0000 % 512
    case 3 => v / 0x4_0000 % 512
    case 2 => v / 512 % 512
    case _ => v % 512
  }

  lemma IxInjective(v: Page, w: Page)
    requires forall l :: 1 <= l <= 4 ==> Ix(v, l) == Ix(w, l)
    ensures v == w
  {
    assert Ix(v, 1) == Ix(w, 1) && Ix(v, 2) == Ix(w, 2) && Ix(v, 3) == Ix(w, 3) && Ix(v, 4) == Ix(w, 4);
    IxParts(v);
    IxParts(w);
  }

  lemma IxParts(v: Page)
    ensures v == 0x800_0000 * Ix(v, 4) + 0x4_0000 * Ix(v, 3) + 512 * Ix(v, 2) + Ix(v, 1)
  {
    var a := v / 512;
    var b := a / 512;
    var c := b / 512;
    assert b == v / 0x4_0000 && c == v / 0x800_0000;
    assert v == 512 * a + v % 512 && a == 512 * b + a % 512 && b == 512 * c + b % 512;
    assert c < 512;
  }

  /** An entry that leads to a lower table. */
  predicate IsLink(e: Pte) { e.present && !e.ps }

  /** The entry the walk finds for a page below table t, or an absent one. */
  function QueryFrom(mem: Memory, t: nat, level: nat, v: Page): Pte
    requires t < |mem| && 1 <= level <= 4
    decreases level
  {
    var e := mem[t][Ix(v, level)];
    if level == 1 then e
    else if IsLink(e) && e.frame < |mem| then QueryFrom(mem, e.frame, level - 1, v)
    else ABSENT
  }

  function Query(mem: Memory, root: nat, v: Page): Pte
    requires root < |mem|
  {
    QueryFrom(mem, root, 4, v)
  }

  datatype Found = Missing | At(table: nat)

  /** The last-level table the walk reaches. */
  function Descend(mem: Memory, t: nat, level: nat, v: Page): (r: Found)
    requires t < |mem| && 1 <= level <= 4
    ensures r.At? ==> r.table < |mem|
    decreases level
  {
    var e := mem[t][Ix(v, level)];
    if level == 1 then At(t)
    else if IsLink(e) && e.frame < |mem| then Descend(mem, e.frame, level - 1, v)
    else Missing
  }

  // ---- who owns a frame -----------------------------------------------------------------------------

  /** What an owned frame is for: a root, a table under one slot of another, or the page behind one leaf. */
  datatype Role = Root | Sub(level: nat, parent: nat, index: nat) | Leaf(table: nat, index: nat)

  type Roles = map<nat, Role>

  function LevelOf(r: Role): nat {
    match r
    case Root => 4
    case Sub(level, _, _) => level
    case Leaf(_, _) => 0
  }

  /** Where the body's own five tables live. */
  datatype Statics = Statics(pml4: nat, pdptLow: nat, pdLow: nat, pdptHigh: nat, pdDirect: nat)

  /** The root slot of the direct map, (DIRECT_MAP_BASE >> 39) & 0x1FF. */
  const DIRECT_SLOT: nat := 256

  /** The slot every root but the body's own carries as a copy. */
  predicate SharedSlot(role: Roles, k: Statics, t: nat, i: nat) {
    t in role && role[t].Root? && t != k.pml4 && i == DIRECT_SLOT
  }

  /** A link leads to the one table that belongs under that slot; only the direct map is reached from elsewhere. */
  predicate LinkOk(mem: Memory, role: Roles, k: Statics, t: nat, i: nat)
    requires t in role && LevelOf(role[t]) >= 2 && t < |mem| && i < 512
  {
    var e := mem[t][i];
    IsLink(e) ==> e.frame in role && role[e.frame] == SlotRole(role, k, t, i)
  }

  /** What the table under a slot is for: it belongs under that slot, but the direct map's under the body's own. */
  function SlotRole(role: Roles, k: Statics, t: nat, i: nat): Role
    requires t in role && LevelOf(role[t]) >= 2
  {
    if SharedSlot(role, k, t, i) then Sub(3, k.pml4, DIRECT_SLOT) else Sub(LevelOf(role[t]) - 1, t, i)
  }

  /** A table hangs under its parent's slot. */
  predicate SubOk(mem: Memory, role: Roles, f: nat)
    requires f in role && role[f].Sub?
  {
    var Sub(level, p, i) := role[f];
    && 1 <= level <= 3 && i < 512 && p in role && p < |mem| && LevelOf(role[p]) == level + 1
    && IsLink(mem[p][i]) && mem[p][i].frame == f
  }

  /** Every root leads to the body's direct map. */
  predicate SharesDirect(mem: Memory, k: Statics, r: nat)
    requires r < |mem|
  {
    IsLink(mem[r][DIRECT_SLOT]) && mem[r][DIRECT_SLOT].frame == k.pdptHigh
  }

  /** The table frames form a tree: every link and every table agree, so no table is shared or a leaf; and from
      every root the direct map's slot leads to the body's one table under it. */
  ghost predicate Tree(mem: Memory, role: Roles, k: Statics) {
    && |mem| == FRAMES
    && (forall t :: t in role ==> t < FRAMES)
    && (forall t, i :: t in role && LevelOf(role[t]) >= 2 && 0 <= i < 512 ==> LinkOk(mem, role, k, t, i))
    && (forall f :: f in role && role[f].Sub? ==> SubOk(mem, role, f))
    && (forall r :: r in role && role[r].Root? ==> SharesDirect(mem, k, r))
    && StaticRoles(role, k)
  }

  /** The body's five tables: its root, and two tables under the identity slot and the direct-map slot each. */
  predicate StaticRoles(role: Roles, k: Statics) {
    && k.pml4 in role && role[k.pml4] == Root
    && k.pdptLow in role && role[k.pdptLow] == Sub(3, k.pml4, 0)
    && k.pdLow in role && role[k.pdLow] == Sub(2, k.pdptLow, 0)
    && k.pdptHigh in role && role[k.pdptHigh] == Sub(3, k.pml4, DIRECT_SLOT)
    && k.pdDirect in role && role[k.pdDirect] == Sub(2, k.pdptHigh, 0)
  }

  ghost predicate IsTable(role: Roles, t: nat, level: nat) { t in role && LevelOf(role[t]) == level }

  lemma {:induction false} DescendEnds(mem: Memory, role: Roles, k: Statics, t: nat, level: nat, v: Page)
    requires Tree(mem, role, k) && 1 <= level <= 4 && IsTable(role, t, level)
    ensures var r := Descend(mem, t, level, v);
            match r
            case Missing => QueryFrom(mem, t, level, v) == ABSENT
            case At(pt) => IsTable(role, pt, 1) && pt < |mem| && QueryFrom(mem, t, level, v) == mem[pt][Ix(v, 1)]
    decreases level
  {
    if level > 1 {
      assert LinkOk(mem, role, k, t, Ix(v, level));
      var e := mem[t][Ix(v, level)];
      if IsLink(e) {
        DescendEnds(mem, role, k, e.frame, level - 1, v);
      }
    }
  }

  /** Under the direct map's slot every root shows what the body's shows. */
  lemma DirectShared(mem: Memory, role: Roles, k: Statics, r: nat, v: Page)
    requires Tree(mem, role, k) && IsTable(role, r, 4) && Ix(v, 4) == DIRECT_SLOT
    ensures r < |mem| && k.pml4 < |mem| && Query(mem, r, v) == Query(mem, k.pml4, v)
  {
    hide LinkOk, SubOk;
    RootOf(mem, role, k, r);
    assert SharesDirect(mem, k, r) && SharesDirect(mem, k, k.pml4);
  }

  lemma RootOf(mem: Memory, role: Roles, k: Statics, root: nat)
    requires Tree(mem, role, k) && IsTable(role, root, 4)
    ensures role[root].Root?
  {
    if role[root].Sub? {
      assert SubOk(mem, role, root);
    }
  }

  /** Below the root two walks that meet in a table came the same way. */
  lemma {:induction false} PathUnique(mem: Memory, role: Roles, k: Statics, t: nat, t': nat, level: nat, v: Page,
                                      v': Page)
    requires Tree(mem, role, k) && 1 <= level <= 3 && IsTable(role, t, level) && IsTable(role, t', level)
    requires Descend(mem, t, level, v).At? && Descend(mem, t, level, v) == Descend(mem, t', level, v')
    ensures t == t' && forall l :: 2 <= l <= level ==> Ix(v, l) == Ix(v', l)
    decreases level
  {
    if level > 1 {
      assert LinkOk(mem, role, k, t, Ix(v, level)) && LinkOk(mem, role, k, t', Ix(v', level));
      PathUnique(mem, role, k, mem[t][Ix(v, level)].frame, mem[t'][Ix(v', level)].frame, level - 1, v, v');
    }
  }

  /** Two walks that end in the same table are for the same root and the same 2 MiB region, except that every
      root reaches the direct map's tables. */
  lemma WalkUnique(mem: Memory, role: Roles, k: Statics, r: nat, r': nat, v: Page, v': Page)
    requires Tree(mem, role, k) && IsTable(role, r, 4) && IsTable(role, r', 4)
    requires Descend(mem, r, 4, v).At? && Descend(mem, r, 4, v) == Descend(mem, r', 4, v')
    ensures forall l :: 2 <= l <= 4 ==> Ix(v, l) == Ix(v', l)
    ensures r == r' || Ix(v, 4) == DIRECT_SLOT
  {
    var i, i' := Ix(v, 4), Ix(v', 4);
    assert LinkOk(mem, role, k, r, i) && LinkOk(mem, role, k, r', i');
    PathUnique(mem, role, k, mem[r][i].frame, mem[r'][i'].frame, 3, v, v');
  }

  // ---- the three ways an entry is written ---------------------------------------------------------------

  function Poke(mem: Memory, t: nat, i: nat, e: Pte): Memory
    requires t < |mem| && i < 512
  {
    mem[t := mem[t][i := e]]
  }

  /** Memory without the leaf of a page, if the walk gets that far. */
  function Cleared(mem: Memory, root: nat, v: Page): Memory
    requires root < |mem|
  {
    match Descend(mem, root, 4, v)
    case Missing => mem
    case At(pt) => if pt < |mem| then Poke(mem, pt, Ix(v, 1), ABSENT) else mem
  }

  /** Linking a zeroed frame under an empty slot. */
  function Linked(mem: Memory, t: nat, i: nat, f: nat, e: Pte): Memory
    requires t < |mem| && f < |mem| && i < 512
  {
    Poke(mem[f := ZeroTable()], t, i, e)
  }

  ghost predicate CanLink(mem: Memory, role: Roles, k: Statics, t: nat, i: nat, f: nat, e: Pte) {
    && Tree(mem, role, k) && t in role && LevelOf(role[t]) >= 2 && i < 512 && !SharedSlot(role, k, t, i)
    && !IsLink(mem[t][i]) && f !in role && f < FRAMES && IsLink(e) && e.frame == f
  }

  lemma LinkTree(mem: Memory, role: Roles, k: Statics, t: nat, i: nat, f: nat, e: Pte)
    requires CanLink(mem, role, k, t, i, f, e)
    ensures Tree(Linked(mem, t, i, f, e), role[f := Sub(LevelOf(role[t]) - 1, t, i)], k)
  {
    var mem', role' := Linked(mem, t, i, f, e), role[f := Sub(LevelOf(role[t]) - 1, t, i)];
    forall s, j | s in role' && LevelOf(role'[s]) >= 2 && 0 <= j < 512 ensures LinkOk(mem', role', k, s, j) {
      if s != f {
        assert LinkOk(mem, role, k, s, j);
      }
    }
    forall g | g in role' && role'[g].Sub? ensures SubOk(mem', role', g) {
      if g != f {
        assert SubOk(mem, role, g);
      }
    }
  }

  /** A new empty table changes no page, under any root. */
  lemma {:induction false} LinkKeeps(mem: Memory, role: Roles, k: Statics, t: nat, i: nat, f: nat, e: Pte,
                                     s: nat, level: nat, v: Page)
    requires CanLink(mem, role, k, t, i, f, e) && 1 <= level <= 4 && IsTable(role, s, level)
    ensures QueryFrom(Linked(mem, t, i, f, e), s, level, v) == QueryFrom(mem, s, level, v)
    decreases level
  {
    var mem' := Linked(mem, t, i, f, e);
    if level > 1 {
      if s == t && Ix(v, level) == i {
        assert mem'[f] == ZeroTable();
        assert QueryFrom(mem', f, level - 1, v) == ABSENT;
      } else {
        assert LinkOk(mem, role, k, s, Ix(v, level));
        if IsLink(mem[s][Ix(v, level)]) {
          LinkKeeps(mem, role, k, t, i, f, e, mem[s][Ix(v, level)].frame, level - 1, v);
        }
      }
    }
  }

  /** Opening an intermediate link to ring 3. */
  function Promoted(mem: Memory, t: nat, i: nat): Memory
    requires t < |mem| && i < 512
  {
    Poke(mem, t, i, mem[t][i].(user := true))
  }

  lemma PromoteTree(mem: Memory, role: Roles, k: Statics, t: nat, i: nat)
    requires Tree(mem, role, k) && t in role && i < 512
    ensures Tree(Promoted(mem, t, i), role, k)
  {
    var mem' := Promoted(mem, t, i);
    forall s, j | s in role && LevelOf(role[s]) >= 2 && 0 <= j < 512 ensures LinkOk(mem', role, k, s, j) {
      assert LinkOk(mem, role, k, s, j);
    }
    forall g | g in role && role[g].Sub? ensures SubOk(mem', role, g) {
      assert SubOk(mem, role, g);
    }
  }

  lemma {:induction false} PromoteKeeps(mem: Memory, role: Roles, k: Statics, t: nat, i: nat, s: nat, level: nat,
                                        v: Page)
    requires Tree(mem, role, k) && t in role && LevelOf(role[t]) >= 2 && i < 512
    requires 1 <= level <= 4 && IsTable(role, s, level)
    ensures QueryFrom(Promoted(mem, t, i), s, level, v) == QueryFrom(mem, s, level, v)
    decreases level
  {
    if level > 1 {
      assert LinkOk(mem, role, k, s, Ix(v, level));
      if IsLink(mem[s][Ix(v, level)]) {
        PromoteKeeps(mem, role, k, t, i, mem[s][Ix(v, level)].frame, level - 1, v);
      }
    }
  }

  lemma LeafTree(mem: Memory, role: Roles, k: Statics, t: nat, i: nat, e: Pte)
    requires Tree(mem, role, k) && IsTable(role, t, 1) && i < 512
    ensures Tree(Poke(mem, t, i, e), role, k)
  {
    var mem' := Poke(mem, t, i, e);
    forall s, j | s in role && LevelOf(role[s]) >= 2 && 0 <= j < 512 ensures LinkOk(mem', role, k, s, j) {
      assert LinkOk(mem, role, k, s, j);
    }
    forall g | g in role && role[g].Sub? ensures SubOk(mem', role, g) {
      assert SubOk(mem, role, g);
    }
  }

  /** Writing a last-level entry changes exactly the pages whose walk ends there. */
  lemma {:induction false} LeafWrites(mem: Memory, role: Roles, k: Statics, t: nat, i: nat, e: Pte, s: nat,
                                      level: nat, v: Page)
    requires Tree(mem, role, k) && IsTable(role, t, 1) && i < 512
    requires 1 <= level <= 4 && IsTable(role, s, level)
    ensures Descend(Poke(mem, t, i, e), s, level, v) == Descend(mem, s, level, v)
    ensures QueryFrom(Poke(mem, t, i, e), s, level, v)
            == if Descend(mem, s, level, v) == At(t) && Ix(v, 1) == i then e else QueryFrom(mem, s, level, v)
    decreases level
  {
    if level > 1 {
      assert LinkOk(mem, role, k, s, Ix(v, level));
      if IsLink(mem[s][Ix(v, level)]) {
        LeafWrites(mem, role, k, t, i, e, mem[s][Ix(v, level)].frame, level - 1, v);
      }
    }
  }

  /** Whether root r' sees page v' through the same last-level entry as root r sees page v. */
  predicate SameLeaf(r: nat, v: Page, r': nat, v': Page) {
    v == v' && (r == r' || Ix(v, 4) == DIRECT_SLOT)
  }

  /** So it changes one page of one root, and under the direct map's slot that page of every root. */
  lemma LeafChangesOne(mem: Memory, role: Roles, k: Statics, r: nat, v: Page, e: Pte, r': nat, v': Page)
    requires Tree(mem, role, k) && IsTable(role, r, 4) && IsTable(role, r', 4)
    requires Descend(mem, r, 4, v).At?
    ensures var pt := Descend(mem, r, 4, v).table;
            && IsTable(role, pt, 1)
            && Query(Poke(mem, pt, Ix(v, 1), e), r, v) == e
            && (!SameLeaf(r, v, r', v') ==> Query(Poke(mem, pt, Ix(v, 1), e), r', v') == Query(mem, r', v'))
  {
    DescendEnds(mem, role, k, r, 4, v);
    var pt := Descend(mem, r, 4, v).table;
    LeafWrites(mem, role, k, pt, Ix(v, 1), e, r, 4, v);
    LeafWrites(mem, role, k, pt, Ix(v, 1), e, r', 4, v');
    if Descend(mem, r', 4, v') == At(pt) && Ix(v', 1) == Ix(v, 1) {
      WalkUnique(mem, role, k, r, r', v, v');
      assert Ix(v, 2) == Ix(v', 2) && Ix(v, 3) == Ix(v', 3) && Ix(v, 4) == Ix(v', 4);
      IxInjective(v, v');
    }
  }

  // ---- ownership of the pages themselves ---------------------------------------------------------------

  predicate Mine(e: Pte) { e.present && e.user }

  /** Every user leaf owns its frame, and every owned page frame is behind exactly one user leaf. */
  ghost predicate Owned(mem: Memory, role: Roles) {
    && |mem| == FRAMES && (forall t :: t in role ==> t < FRAMES)
    && (forall t, i :: t in role && LevelOf(role[t]) == 1 && 0 <= i < 512 && Mine(mem[t][i]) ==>
          mem[t][i].frame in role && role[mem[t][i].frame] == Leaf(t, i))
    && (forall f :: f in role && role[f].Leaf? ==> LeafOk(mem, role, f))
  }

  predicate LeafOk(mem: Memory, role: Roles, f: nat)
    requires f in role && role[f].Leaf?
  {
    var Leaf(t, i) := role[f];
    t in role && t < |mem| && LevelOf(role[t]) == 1 && i < 512 && Mine(mem[t][i]) && mem[t][i].frame == f
  }

  /** No frame backs two pages: equal frames behind user leaves mean the same leaf. */
  lemma OneFrameOnePage(mem: Memory, role: Roles, k: Statics, r: nat, v: Page, r': nat, v': Page)
    requires Tree(mem, role, k) && Owned(mem, role) && IsTable(role, r, 4) && IsTable(role, r', 4)
    requires Mine(Query(mem, r, v)) && Mine(Query(mem, r', v')) && Query(mem, r, v).frame == Query(mem, r', v').frame
    ensures SameLeaf(r, v, r', v')
  {
    DescendEnds(mem, role, k, r, 4, v);
    DescendEnds(mem, role, k, r', 4, v');
    WalkUnique(mem, role, k, r, r', v, v');
    assert Ix(v, 2) == Ix(v', 2) && Ix(v, 3) == Ix(v', 3) && Ix(v, 4) == Ix(v', 4);
    IxInjective(v, v');
  }
}
