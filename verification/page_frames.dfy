/** What a program sees in a page, and how giving a page a frame, taking it back or filling it changes that. */
module PageFrames {
  import opened PageTree
  import opened KernelHalf

  /** Absent; a supervisor page of the body's; or a user page with the bytes behind it. */
  datatype Seen = Nothing | Body(frame: nat) | Bytes(bytes: Table)

  function PageAt(mem: Memory, root: nat, v: Page): Seen
    requires root < |mem|
  {
    var e := Query(mem, root, v);
    if !e.present then Nothing
    else if e.user && e.frame < |mem| then Bytes(mem[e.frame])
    else Body(e.frame)
  }

  function UserLeaf(f: nat): Pte { Pte(true, true, true, false, f) }

  /** The tables form a tree, and every frame with a role is a table or backs the one leaf its role names. */
  ghost predicate Sane(mem: Memory, role: Roles, k: Statics) {
    Tree(mem, role, k) && Owned(mem, role)
  }

  /** Page v of a map reads `now`; no other page of that map, and no page of another map outside the direct map's
      slot, reads differently. */
  ghost predicate OnePage(m0: Memory, r0: Roles, m1: Memory, root: nat, v: Page, now: Seen) {
    && |m0| == |m1| == FRAMES && root < FRAMES
    && PageAt(m1, root, v) == now
    && SameBut(m0, r0, m1, root, v)
  }

  ghost predicate SameBut(m0: Memory, r0: Roles, m1: Memory, root: nat, v: Page)
    requires |m0| == |m1| == FRAMES
  {
    forall r: nat, w: Page :: IsTable(r0, r, 4) && r < FRAMES && !SameLeaf(root, v, r, w) ==>
      PageAt(m1, r, w) == PageAt(m0, r, w)
  }

  /** Every map is still a map. */
  ghost predicate RootsKept(r0: Roles, r1: Roles) {
    forall r: nat :: IsTable(r0, r, 4) ==> IsTable(r1, r, 4)
  }

  /** Outside the direct map's slot every other map shows its program the same bytes in the same pages. */
  ghost predicate OtherMaps(m0: Memory, r0: Roles, m1: Memory, r1: Roles, root: nat) {
    && |m0| == |m1| == FRAMES && RootsKept(r0, r1)
    && forall r: nat, w: Page :: IsTable(r0, r, 4) && r < FRAMES && r != root && Ix(w, 4) != DIRECT_SLOT ==>
         PageAt(m1, r, w) == PageAt(m0, r, w)
  }

  /** One page at a time adds up. */
  lemma NextPage(m0: Memory, r0: Roles, m1: Memory, r1: Roles, m2: Memory, r2: Roles, root: nat, v: Page, now: Seen)
    requires OtherMaps(m0, r0, m1, r1, root) && OnePage(m1, r1, m2, root, v, now) && RootsKept(r1, r2)
    requires IsTable(r1, root, 4)
    ensures OtherMaps(m0, r0, m2, r2, root)
    ensures root < |m1| && root < |m2|
    ensures forall w: Page :: PageAt(m2, root, w) == if w == v then now else PageAt(m1, root, w)
  {
    hide PageAt;
  }

  // ---- a frame that is no table ----------------------------------------------------------------------------

  lemma {:induction false} FillKeeps(mem: Memory, role: Roles, k: Statics, f: nat, c: Table, s: nat, level: nat,
                                     v: Page)
    requires Tree(mem, role, k) && f < FRAMES && (f in role ==> role[f].Leaf?)
    requires 1 <= level <= 4 && IsTable(role, s, level)
    ensures QueryFrom(mem[f := c], s, level, v) == QueryFrom(mem, s, level, v)
    decreases level
  {
    if level > 1 {
      assert LinkOk(mem, role, k, s, Ix(v, level));
      if IsLink(mem[s][Ix(v, level)]) {
        FillKeeps(mem, role, k, f, c, mem[s][Ix(v, level)].frame, level - 1, v);
      }
    }
  }

  /** Writing the bytes of a page changes no table and no ownership. */
  lemma FillSane(mem: Memory, role: Roles, k: Statics, f: nat, c: Table)
    requires Sane(mem, role, k) && f in role && role[f].Leaf? && f < FRAMES
    ensures Sane(mem[f := c], role, k)
    ensures KernelEntries(mem, k) ==> KernelEntries(mem[f := c], k)
  {
    FillTree(mem, role, k, f, c);
    var mem' := mem[f := c];
    forall g | g in role && role[g].Leaf? ensures LeafOk(mem', role, g) {
      assert LeafOk(mem, role, g);
    }
  }

  lemma FillTree(mem: Memory, role: Roles, k: Statics, f: nat, c: Table)
    requires Tree(mem, role, k) && f < FRAMES && (f in role ==> role[f].Leaf?)
    ensures Tree(mem[f := c], role, k)
  {
    var mem' := mem[f := c];
    forall s, j | s in role && LevelOf(role[s]) >= 2 && 0 <= j < 512 ensures LinkOk(mem', role, k, s, j) {
      assert LinkOk(mem, role, k, s, j);
    }
    forall g | g in role && role[g].Sub? ensures SubOk(mem', role, g) {
      assert SubOk(mem, role, g);
    }
  }

  /** Writing the bytes of a page is seen in that page and nowhere else. */
  lemma Filled(mem: Memory, role: Roles, k: Statics, root: nat, v: Page, c: Table)
    requires Sane(mem, role, k) && IsTable(role, root, 4) && root < FRAMES && Mine(Query(mem, root, v))
    ensures var f := Query(mem, root, v).frame;
            && f in role && role[f].Leaf? && f < FRAMES && |mem| == FRAMES
            && OnePage(mem, role, mem[f := c], root, v, Bytes(c))
  {
    hide Query;
    var f := Query(mem, root, v).frame;
    OwnsFrame(mem, role, k, root, v);
    var mem' := mem[f := c];
    QuerySame(mem, role, k, f, c, root, v);
    forall r: nat, w: Page | IsTable(role, r, 4) && r < FRAMES && !SameLeaf(root, v, r, w)
      ensures PageAt(mem', r, w) == PageAt(mem, r, w)
    {
      QuerySame(mem, role, k, f, c, r, w);
      if Mine(Query(mem, r, w)) && Query(mem, r, w).frame == f {
        OneFrameOnePage(mem, role, k, root, v, r, w);
      }
    }
  }

  /** Bytes written into a frame that is nobody's table or page are seen nowhere. */
  lemma ForeignFilled(mem: Memory, role: Roles, k: Statics, root: nat, v: Page, f: nat, c: Table)
    requires Sane(mem, role, k) && IsTable(role, root, 4) && root < FRAMES && f !in role && f < FRAMES
    ensures |mem| == FRAMES && Sane(mem[f := c], role, k) && (KernelEntries(mem, k) ==> KernelEntries(mem[f := c], k))
    ensures OnePage(mem, role, mem[f := c], root, v, PageAt(mem, root, v))
  {
    hide Query, Tree, PageAt;
    FillTree(mem, role, k, f, c);
    MapSize(mem, role, k);
    var mem' := mem[f := c];
    ForeignOwned(mem, role, f, c);
    if KernelEntries(mem, k) {
      ForeignKernel(mem, role, k, f, c);
    }
    forall r: nat, w: Page | IsTable(role, r, 4) && r < FRAMES ensures PageAt(mem', r, w) == PageAt(mem, r, w) {
      ForeignUnseen(mem, role, k, f, c, r, w);
    }
  }

  lemma ForeignUnseen(mem: Memory, role: Roles, k: Statics, f: nat, c: Table, r: nat, w: Page)
    requires Sane(mem, role, k) && f !in role && f < FRAMES && IsTable(role, r, 4)
    ensures r < FRAMES && |mem| == FRAMES && PageAt(mem[f := c], r, w) == PageAt(mem, r, w)
  {
    hide Query, Tree;
    QuerySame(mem, role, k, f, c, r, w);
    if Mine(Query(mem, r, w)) { OwnsFrame(mem, role, k, r, w); }
  }

  lemma ForeignOwned(mem: Memory, role: Roles, f: nat, c: Table)
    requires Owned(mem, role) && f !in role && f < FRAMES
    ensures Owned(mem[f := c], role)
  {
    forall g | g in role && role[g].Leaf? ensures LeafOk(mem[f := c], role, g) {
      assert LeafOk(mem, role, g);
    }
  }

  lemma ForeignKernel(mem: Memory, role: Roles, k: Statics, f: nat, c: Table)
    requires Tree(mem, role, k) && f !in role && f < FRAMES && KernelEntries(mem, k)
    ensures KernelEntries(mem[f := c], k)
  {
  }

  lemma QuerySame(mem: Memory, role: Roles, k: Statics, f: nat, c: Table, r: nat, w: Page)
    requires Tree(mem, role, k) && f < FRAMES && (f in role ==> role[f].Leaf?) && IsTable(role, r, 4)
    ensures r < FRAMES && |mem| == FRAMES && Query(mem[f := c], r, w) == Query(mem, r, w)
  {
    FillKeeps(mem, role, k, f, c, r, 4, w);
  }

  /** The frame behind a user page is owned by the leaf the walk ends at. */
  lemma OwnsFrame(mem: Memory, role: Roles, k: Statics, root: nat, v: Page)
    requires Sane(mem, role, k) && IsTable(role, root, 4) && root < FRAMES && Mine(Query(mem, root, v))
    ensures var f := Query(mem, root, v).frame;
            && Descend(mem, root, 4, v).At? && f in role && f < FRAMES
            && role[f] == Leaf(Descend(mem, root, 4, v).table, Ix(v, 1))
  {
    DescendEnds(mem, role, k, root, 4, v);
  }

  // ---- giving a page a frame -------------------------------------------------------------------------------

  ghost predicate CanGive(mid: Memory, role: Roles, k: Statics, root: nat, v: Page, f: nat) {
    && Sane(mid, role, k) && IsTable(role, root, 4) && root < FRAMES && f !in role && f < FRAMES
    && Descend(mid, root, 4, v).At? && !Mine(Query(mid, root, v))
  }

  lemma GiveTree(mem: Memory, role: Roles, k: Statics, pt: nat, i: nat, f: nat)
    requires Tree(mem, role, k) && f !in role && f < FRAMES
    ensures Tree(mem, role[f := Leaf(pt, i)], k)
  {
    var r1 := role[f := Leaf(pt, i)];
    forall s, j | s in r1 && LevelOf(r1[s]) >= 2 && 0 <= j < 512 ensures LinkOk(mem, r1, k, s, j) {
      assert LinkOk(mem, role, k, s, j);
    }
    forall g | g in r1 && r1[g].Sub? ensures SubOk(mem, r1, g) {
      assert SubOk(mem, role, g);
    }
  }

  lemma GiveOwned(mid: Memory, role: Roles, pt: nat, i: nat, f: nat)
    requires Owned(mid, role) && IsTable(role, pt, 1) && i < 512 && f !in role && f < FRAMES && !Mine(mid[pt][i])
    ensures Owned(Poke(mid, pt, i, UserLeaf(f)), role[f := Leaf(pt, i)])
  {
    var m1, r1 := Poke(mid, pt, i, UserLeaf(f)), role[f := Leaf(pt, i)];
    forall t, j | t in r1 && LevelOf(r1[t]) == 1 && 0 <= j < 512 && Mine(m1[t][j])
      ensures m1[t][j].frame in r1 && r1[m1[t][j].frame] == Leaf(t, j)
    {
      if !(t == pt && j == i) {
        assert m1[t][j] == mid[t][j];
      }
    }
    forall g | g in r1 && r1[g].Leaf? ensures LeafOk(m1, r1, g) {
      if g != f {
        assert LeafOk(mid, role, g);
      }
    }
  }

  /** A page that was not a user page gets a frame nobody had, filled: it reads those bytes, and nothing else is
      seen to change. */
  lemma Given(m0: Memory, r0: Roles, mid: Memory, role: Roles, k: Statics, root: nat, v: Page, f: nat, c: Table)
    requires Kept(m0, r0, mid, role, k) && Owned(m0, r0) && IsTable(r0, root, 4) && root < FRAMES
    requires |m0| == FRAMES && !Mine(Query(m0, root, v)) && CanGive(mid, role, k, root, v, f)
    ensures var pt := Descend(mid, root, 4, v).table; var m1 := Poke(mid, pt, Ix(v, 1), UserLeaf(f));
            var r1 := role[f := Leaf(pt, Ix(v, 1))];
            && pt < |mid| && Sane(m1, r1, k) && Sane(m1[f := c], r1, k)
            && (KernelEntries(m1, k) ==> KernelEntries(m1[f := c], k))
            && OnePage(m0, r0, m1[f := c], root, v, Bytes(c))
            && IsTable(r1, root, 4) && Query(m1, root, v) == UserLeaf(f) && RootsKept(r0, r1)
  {
    hide Tree, Owned, Query, KernelEntries, PageAt, Kept, RootsKept;
    MapSize(mid, role, k);
    var pt := Descend(mid, root, 4, v).table;
    DescendEnds(mid, role, k, root, 4, v);
    QueryDef(mid, root, v);
    LeafTree(mid, role, k, pt, Ix(v, 1), UserLeaf(f));
    GiveTree(Poke(mid, pt, Ix(v, 1), UserLeaf(f)), role, k, pt, Ix(v, 1), f);
    GiveOwned(mid, role, pt, Ix(v, 1), f);
    var m1, r1 := Poke(mid, pt, Ix(v, 1), UserLeaf(f)), role[f := Leaf(pt, Ix(v, 1))];
    LeafChangesOne(mid, role, k, root, v, UserLeaf(f), root, v);
    Filled(m1, r1, k, root, v, c);
    FillSane(m1, r1, k, f, c);
    GivenRoots(m0, r0, mid, role, k, f, Leaf(pt, Ix(v, 1)));
    forall r: nat, w: Page | IsTable(r0, r, 4) && r < FRAMES && !SameLeaf(root, v, r, w)
      ensures PageAt(m1[f := c], r, w) == PageAt(m0, r, w)
    {
      KeptTables(m0, r0, mid, role, k, r);
      assert IsTable(r1, r, 4);
      GivenElsewhere(m0, r0, mid, role, k, root, v, f, r, w);
    }
  }

  lemma GivenRoots(m0: Memory, r0: Roles, mid: Memory, role: Roles, k: Statics, f: nat, l: Role)
    requires Kept(m0, r0, mid, role, k) && f !in role
    ensures RootsKept(r0, role[f := l])
  {
  }

  lemma KeptTables(m0: Memory, r0: Roles, m1: Memory, r1: Roles, k: Statics, r: nat)
    requires Kept(m0, r0, m1, r1, k) && IsTable(r0, r, 4)
    ensures IsTable(r1, r, 4) && r < FRAMES
  {
  }

  lemma GivenElsewhere(m0: Memory, r0: Roles, mid: Memory, role: Roles, k: Statics, root: nat, v: Page, f: nat,
                       r: nat, w: Page)
    requires Kept(m0, r0, mid, role, k) && Owned(m0, r0) && |m0| == FRAMES && CanGive(mid, role, k, root, v, f)
    requires IsTable(r0, r, 4) && r < FRAMES && !SameLeaf(root, v, r, w)
    ensures var pt := Descend(mid, root, 4, v).table;
            pt < |mid| && PageAt(Poke(mid, pt, Ix(v, 1), UserLeaf(f)), r, w) == PageAt(m0, r, w)
  {
    hide Query, KernelEntries, SubOk, LinkOk, StaticRoles, HalfMatches;
    var pt := Descend(mid, root, 4, v).table;
    assert IsTable(role, r, 4);
    LeafChangesOne(mid, role, k, root, v, UserLeaf(f), r, w);
    assert Query(mid, r, w) == Query(m0, r, w);
    if Mine(Query(m0, r, w)) {
      OwnsFrame(m0, r0, k, r, w);
    }
  }

  // ---- taking it back --------------------------------------------------------------------------------------

  /** The frame a page gives up: the one behind it, if it was a user page. */
  function Freed(role: Roles, e: Pte): Roles {
    if Mine(e) then role - {e.frame} else role
  }

  lemma TakeTree(mem: Memory, role: Roles, k: Statics, f: nat)
    requires Tree(mem, role, k) && f in role && role[f].Leaf?
    ensures Tree(mem, role - {f}, k)
  {
    var r1 := role - {f};
    forall s, j | s in r1 && LevelOf(r1[s]) >= 2 && 0 <= j < 512 ensures LinkOk(mem, r1, k, s, j) {
      assert LinkOk(mem, role, k, s, j);
    }
    forall g | g in r1 && r1[g].Sub? ensures SubOk(mem, r1, g) {
      assert SubOk(mem, role, g);
    }
  }

  lemma TakeOwned(mem: Memory, role: Roles, pt: nat, i: nat)
    requires Owned(mem, role) && IsTable(role, pt, 1) && i < 512
    ensures Owned(Poke(mem, pt, i, ABSENT), Freed(role, mem[pt][i]))
  {
    var m1, r1 := Poke(mem, pt, i, ABSENT), Freed(role, mem[pt][i]);
    forall t, j | t in r1 && LevelOf(r1[t]) == 1 && 0 <= j < 512 && Mine(m1[t][j])
      ensures m1[t][j].frame in r1 && r1[m1[t][j].frame] == Leaf(t, j)
    {
      assert m1[t][j] == mem[t][j] && !(t == pt && j == i);
    }
    forall g | g in r1 && r1[g].Leaf? ensures LeafOk(m1, r1, g) {
      assert LeafOk(mem, role, g);
    }
  }

  /** A page cleared reads as nothing, its frame is nobody's, and nothing else is seen to change. */
  lemma Taken(mem: Memory, role: Roles, k: Statics, root: nat, v: Page)
    requires Sane(mem, role, k) && IsTable(role, root, 4) && root < FRAMES
    ensures var m1, r1 := Cleared(mem, root, v), Freed(role, Query(mem, root, v));
            && |mem| == FRAMES && Sane(m1, r1, k) && OnePage(mem, role, m1, root, v, Nothing) && IsTable(r1, root, 4)
            && (Mine(Query(mem, root, v)) ==>
                Query(mem, root, v).frame in role && role[Query(mem, root, v).frame].Leaf?)
  {
    hide Tree, Owned, Query, PageAt;
    MapSize(mem, role, k);
    DescendEnds(mem, role, k, root, 4, v);
    QueryDef(mem, root, v);
    if Mine(Query(mem, root, v)) { OwnsFrame(mem, role, k, root, v); }
    if Descend(mem, root, 4, v).At? {
      var pt := Descend(mem, root, 4, v).table;
      var e := Query(mem, root, v);
      LeafTree(mem, role, k, pt, Ix(v, 1), ABSENT);
      if Mine(e) { TakeTree(Poke(mem, pt, Ix(v, 1), ABSENT), role, k, e.frame); }
      TakeOwned(mem, role, pt, Ix(v, 1));
      TakenViews(mem, role, k, root, v);
    } else {
      AbsentReads(mem, root, v);
    }
  }

  lemma MapSize(mem: Memory, role: Roles, k: Statics)
    requires Tree(mem, role, k)
    ensures |mem| == FRAMES
  {
  }

  lemma QueryDef(mem: Memory, root: nat, v: Page)
    requires root < |mem|
    ensures Query(mem, root, v) == QueryFrom(mem, root, 4, v)
  {
  }

  lemma AbsentReads(mem: Memory, root: nat, v: Page)
    requires root < |mem| && Query(mem, root, v) == ABSENT
    ensures PageAt(mem, root, v) == Nothing
  {
  }

  lemma TakenViews(mem: Memory, role: Roles, k: Statics, root: nat, v: Page)
    requires Sane(mem, role, k) && IsTable(role, root, 4) && root < FRAMES && Descend(mem, root, 4, v).At?
    ensures |mem| == FRAMES && OnePage(mem, role, Cleared(mem, root, v), root, v, Nothing)
  {
    hide Query, LinkOk, SubOk, StaticRoles, Owned;
    DescendEnds(mem, role, k, root, 4, v);
    var m1 := Cleared(mem, root, v);
    LeafChangesOne(mem, role, k, root, v, ABSENT, root, v);
    forall r: nat, w: Page | IsTable(role, r, 4) && r < FRAMES && !SameLeaf(root, v, r, w)
      ensures PageAt(m1, r, w) == PageAt(mem, r, w)
    {
      LeafChangesOne(mem, role, k, root, v, ABSENT, r, w);
      if Mine(Query(mem, r, w)) {
        OwnsFrame(mem, role, k, r, w);
      }
    }
  }

  // ---- every owned frame backs a page --------------------------------------------------------------------

  /** The page whose walk takes these four indices. */
  function PageWith(i4: nat, i3: nat, i2: nat, i1: nat): (v: Page)
    requires i4 < 512 && i3 < 512 && i2 < 512 && i1 < 512
    ensures Ix(v, 4) == i4 && Ix(v, 3) == i3 && Ix(v, 2) == i2 && Ix(v, 1) == i1
  {
    var v: nat := 0x800_0000 * i4 + 0x4_0000 * i3 + 512 * i2 + i1;
    assert v / 512 == 0x4_0000 * i4 + 512 * i3 + i2;
    assert v / 0x4_0000 == 512 * i4 + i3 && v / 0x800_0000 == i4;
    v
  }

  ghost predicate Backs(mem: Memory, role: Roles, f: nat, r: nat, v: Page) {
    IsTable(role, r, 4) && r < |mem| && Mine(Query(mem, r, v)) && Query(mem, r, v).frame == f
  }

  /** No frame is owned in vain: a frame owned by a leaf is behind a user page of some map. */
  lemma OwnedIsMapped(mem: Memory, role: Roles, k: Statics, f: nat)
    requires Sane(mem, role, k) && f in role && role[f].Leaf?
    ensures exists r: nat, v: Page :: Backs(mem, role, f, r, v)
  {
    assert LeafOk(mem, role, f);
    var t1, i1 := role[f].table, role[f].index;
    assert SubOk(mem, role, t1);
    var t2, i2 := role[t1].parent, role[t1].index;
    assert SubOk(mem, role, t2);
    var t3, i3 := role[t2].parent, role[t2].index;
    assert SubOk(mem, role, t3);
    var r, i4 := role[t3].parent, role[t3].index;
    var v := PageWith(i4, i3, i2, i1);
    assert QueryFrom(mem, t2, 2, v) == mem[t1][i1];
    assert QueryFrom(mem, t3, 3, v) == mem[t1][i1];
    assert Backs(mem, role, f, r, v);
  }
}
