/** The way from a root to the program's own pages: what ring 3 needs at every level, kept by every table operation. */
module UserHalf {
  import opened PageTree
  import opened KernelHalf

  /** Ring 3 reads and writes the page: present, USER and RW at every level down to a 4 KiB leaf. */
  predicate UserWrites(mem: Memory, t: nat, level: nat, v: Page)
    requires t < |mem| && 1 <= level <= 4
    decreases level
  {
    var e := mem[t][Ix(v, level)];
    e.present && e.user && e.rw
    && (level == 1 || (!e.ps && e.frame < |mem| && UserWrites(mem, e.frame, level - 1, v)))
  }

  /** The link to a table is open to ring 3.  The direct map's tables, which every map shares, are left out. */
  predicate OpenTo(mem: Memory, role: Roles, k: Statics, t: nat) {
    t in role && (role[t].Sub? && t != k.pdptHigh ==>
      role[t].parent < |mem| && role[t].index < 512 && mem[role[t].parent][role[t].index].user)
  }

  predicate EntryOpen(mem: Memory, role: Roles, k: Statics, t: nat, i: nat)
    requires t < |mem| && i < 512
  {
    var e := mem[t][i];
    e.present ==> e.rw && (e.user ==> OpenTo(mem, role, k, t))
  }

  /** Every entry of every table is writable, and one open to ring 3 is in a table whose link is. */
  ghost predicate UserOpen(mem: Memory, role: Roles, k: Statics) {
    forall t, i :: t in role && !role[t].Leaf? && t < |mem| && 0 <= i < 512 ==> EntryOpen(mem, role, k, t, i)
  }

  // ---- what it gives ------------------------------------------------------------------------------------------

  /** So ring 3 reads and writes every user page of every map, below the direct map's slot. */
  lemma UserPagesWritten(mem: Memory, role: Roles, k: Statics, r: nat, v: Page)
    requires Tree(mem, role, k) && UserOpen(mem, role, k) && IsTable(role, r, 4) && Ix(v, 4) != DIRECT_SLOT
    ensures r < |mem| && (Mine(Query(mem, r, v)) ==> UserWrites(mem, r, 4, v))
  {
    hide LinkOk, SubOk;
    RootLevel(mem, role, k, r);
    if Mine(Query(mem, r, v)) {
      DownHalf(mem, role, k, r, 4, v);
    }
  }

  /** Ring 3 reads and writes every user page of every map, below the direct map's slot. */
  ghost predicate AllWritten(mem: Memory, role: Roles)
    requires |mem| == FRAMES
  {
    forall r: nat, v: Page :: IsTable(role, r, 4) && r < FRAMES && Ix(v, 4) != DIRECT_SLOT && Mine(Query(mem, r, v)) ==>
      UserWrites(mem, r, 4, v)
  }

  lemma EveryPageWritten(mem: Memory, role: Roles, k: Statics)
    requires Tree(mem, role, k) && UserOpen(mem, role, k)
    ensures |mem| == FRAMES && AllWritten(mem, role)
  {
    hide Query, UserOpen, UserWrites, LinkOk, SubOk;
    forall r: nat, v: Page | IsTable(role, r, 4) && r < FRAMES && Ix(v, 4) != DIRECT_SLOT && Mine(Query(mem, r, v))
      ensures UserWrites(mem, r, 4, v)
    {
      UserPagesWritten(mem, role, k, r, v);
    }
  }

  lemma RootLevel(mem: Memory, role: Roles, k: Statics, r: nat)
    requires Tree(mem, role, k) && IsTable(role, r, 4)
    ensures r < |mem| && r != k.pdptHigh && role[r].Root?
  {
    RootOf(mem, role, k, r);
  }

  lemma {:induction false} DownHalf(mem: Memory, role: Roles, k: Statics, t: nat, level: nat, v: Page)
    requires Tree(mem, role, k) && UserOpen(mem, role, k) && IsTable(role, t, level) && 1 <= level <= 4
    requires t < |mem| && (level == 4 ==> role[t].Root? && Ix(v, 4) != DIRECT_SLOT)
    requires Mine(QueryFrom(mem, t, level, v))
    ensures UserWrites(mem, t, level, v)
    decreases level
  {
    hide OpenTo;
    var i := Ix(v, level);
    assert EntryOpen(mem, role, k, t, i);
    if level > 1 {
      assert LinkOk(mem, role, k, t, i);
      var next := mem[t][i].frame;
      DownHalf(mem, role, k, next, level - 1, v);
      assert EntryOpen(mem, role, k, next, Ix(v, level - 1));
      LinkIsOpen(mem, role, k, t, i);
    }
  }

  lemma LinkIsOpen(mem: Memory, role: Roles, k: Statics, t: nat, i: nat)
    requires Tree(mem, role, k) && t in role && LevelOf(role[t]) >= 2 && i < 512 && IsLink(mem[t][i])
    requires role[t].Root? ==> i != DIRECT_SLOT
    requires OpenTo(mem, role, k, mem[t][i].frame)
    ensures mem[t][i].user
  {
    assert LinkOk(mem, role, k, t, i);
  }

  // ---- what keeps it ------------------------------------------------------------------------------------------

  /** A fresh empty table under an empty slot. */
  lemma LinkedOpen(mem: Memory, role: Roles, k: Statics, t: nat, i: nat, f: nat, e: Pte)
    requires AtEmptySlot(mem, role, k, t, i, f, e) && UserOpen(mem, role, k)
    requires e.rw && (e.user ==> OpenTo(mem, role, k, t))
    ensures UserOpen(Linked(mem, t, i, f, e), role[f := Sub(LevelOf(role[t]) - 1, t, i)], k)
  {
    var mem', role' := Linked(mem, t, i, f, e), role[f := Sub(LevelOf(role[t]) - 1, t, i)];
    forall s, j | s in role' && !role'[s].Leaf? && s < |mem'| && 0 <= j < 512 ensures EntryOpen(mem', role', k, s, j) {
      if s != f {
        assert EntryOpen(mem, role, k, s, j);
        if role[s].Sub? { assert SubOk(mem, role, s); }
      }
    }
  }

  /** A link opened in a table whose own link is open. */
  lemma PromotedOpen(mem: Memory, role: Roles, k: Statics, t: nat, i: nat)
    requires Tree(mem, role, k) && t in role && LevelOf(role[t]) >= 2 && i < 512
    requires UserOpen(mem, role, k) && OpenTo(mem, role, k, t)
    ensures UserOpen(Promoted(mem, t, i), role, k)
  {
    var mem' := Promoted(mem, t, i);
    forall s, j | s in role && !role[s].Leaf? && s < |mem'| && 0 <= j < 512 ensures EntryOpen(mem', role, k, s, j) {
      assert EntryOpen(mem, role, k, s, j);
    }
  }

  /** A last-level entry, if it is a user page's, written in a table whose link is open. */
  lemma LeafOpen(mem: Memory, role: Roles, k: Statics, t: nat, i: nat, e: Pte)
    requires Tree(mem, role, k) && IsTable(role, t, 1) && i < 512 && UserOpen(mem, role, k)
    requires e.present ==> e.rw && (e.user ==> OpenTo(mem, role, k, t))
    ensures UserOpen(Poke(mem, t, i, e), role, k)
  {
    var mem' := Poke(mem, t, i, e);
    forall s, j | s in role && !role[s].Leaf? && s < |mem'| && 0 <= j < 512 ensures EntryOpen(mem', role, k, s, j) {
      assert EntryOpen(mem, role, k, s, j);
      if role[s].Sub? { assert SubOk(mem, role, s); }
    }
  }

  /** Bytes written into a frame that is no table; it may become, be or stop being a page's. */
  lemma FilledOpen(mem: Memory, role: Roles, k: Statics, f: nat, c: Table, role': Roles)
    requires Tree(mem, role, k) && UserOpen(mem, role, k) && f < FRAMES && (f in role ==> role[f].Leaf?)
    requires (forall g :: g in role && g != f ==> g in role' && role'[g] == role[g])
    requires (forall g :: g in role' && g != f ==> g in role) && (f in role' ==> role'[f].Leaf?)
    ensures UserOpen(mem[f := c], role', k)
  {
    var mem' := mem[f := c];
    forall s, j | s in role' && !role'[s].Leaf? && s < |mem'| && 0 <= j < 512 ensures EntryOpen(mem', role', k, s, j) {
      assert EntryOpen(mem, role, k, s, j);
      if role[s].Sub? { assert SubOk(mem, role, s); }
    }
  }

  /** A page's frame given up. */
  lemma DroppedOpen(mem: Memory, role: Roles, k: Statics, f: nat)
    requires Tree(mem, role, k) && UserOpen(mem, role, k) && f in role && role[f].Leaf? && f < FRAMES
    ensures UserOpen(mem, role - {f}, k)
  {
    FilledOpen(mem, role, k, f, mem[f], role - {f});
    assert mem[f := mem[f]] == mem;
  }

  lemma NewMapOpen(mem: Memory, role: Roles, k: Statics, r: nat, pdpt: nat, pd: nat)
    requires CanMapNew(mem, role, k, r, pdpt, pd) && UserOpen(mem, role, k)
    ensures UserOpen(NewMap(mem, k, r, pdpt, pd), NewRoles(role, r, pdpt, pd), k)
  {
    var mem', role' := NewMap(mem, k, r, pdpt, pd), NewRoles(role, r, pdpt, pd);
    forall s, j | s in role' && !role'[s].Leaf? && s < |mem'| && 0 <= j < 512 ensures EntryOpen(mem', role', k, s, j) {
      assert EntryOpen(mem, role, k, k.pml4, DIRECT_SLOT);
      if s in role {
        assert EntryOpen(mem, role, k, s, j);
        if role[s].Sub? { assert SubOk(mem, role, s); }
      }
    }
  }
}
