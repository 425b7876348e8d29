/** Whole runs of table operations: what every page of every map reads in the end. */
module MapRuns {
  import opened PageTree
  import opened KernelHalf
  import opened Paging

  /** Switch goes to the `which`-th map the caller has: those it began with, then those it has had made. */
  datatype Op =
    | Map(virt: nat, phys: nat)
    | MapUser(virt: nat, phys: nat)
    | Unmap(virt: nat)
    | MapNew
    | Switch(which: nat)

  /** What an operation answered: whether it succeeded, and the root of a new map, or 0. */
  datatype Answer = Answer(ok: bool, root: nat)

  /** The maps the caller has after a run. */
  function MapsAfter(ops: seq<Op>, rs: seq<Answer>, maps: seq<nat>): seq<nat>
    requires |ops| == |rs|
  {
    if ops == [] then maps
    else
      var n := |ops| - 1;
      var had := MapsAfter(ops[..n], rs[..n], maps);
      if ops[n].MapNew? && rs[n].ok then had + [rs[n].root] else had
  }

  /** The map user pages go to after a run. */
  function ActiveAfter(ops: seq<Op>, rs: seq<Answer>, maps: seq<nat>, active: nat): nat
    requires |ops| == |rs|
  {
    if ops == [] then active
    else
      var n := |ops| - 1;
      var had := MapsAfter(ops[..n], rs[..n], maps);
      if ops[n].Switch? && ops[n].which < |had| then had[ops[n].which]
      else ActiveAfter(ops[..n], rs[..n], maps, active)
  }

  /** The map a page of map r lives in: the direct map's pages are the body's, in every map. */
  function Owner(k: Statics, r: nat, v: Page): nat { if Ix(v, 4) == DIRECT_SLOT then k.pml4 else r }

  /** What an operation leaves in page v as map r owns it, if it touches it. */
  function Written(op: Op, a: Answer, k: Statics, active: nat, r: nat, v: Page, was: Pte): Pte {
    match op
    case Map(virt, phys) =>
      if a.ok && r == k.pml4 && v == PageOf(virt) then Pte(true, true, false, false, FrameOf(phys)) else was
    case MapUser(virt, phys) =>
      if a.ok && r == Owner(k, active, v) && v == PageOf(virt) then Pte(true, true, true, false, FrameOf(phys)) else was
    case Unmap(virt) => if r == k.pml4 && v == PageOf(virt) then ABSENT else was
    case MapNew => if a.ok && r == a.root then ABSENT else was
    case Switch(_) => was
  }

  /** The leaf last written for a page, or the one it had. */
  function LastLeaf(ops: seq<Op>, rs: seq<Answer>, k: Statics, maps: seq<nat>, active: nat, r: nat, v: Page,
                    was: Pte): Pte
    requires |ops| == |rs|
  {
    if ops == [] then was
    else
      var n := |ops| - 1;
      Written(ops[n], rs[n], k, ActiveAfter(ops[..n], rs[..n], maps, active), r, v,
              LastLeaf(ops[..n], rs[..n], k, maps, active, r, v, was))
  }

  lemma RunSnoc(ops: seq<Op>, rs: seq<Answer>, op: Op, a: Answer, k: Statics, maps: seq<nat>, active: nat)
    requires |ops| == |rs|
    ensures MapsAfter(ops + [op], rs + [a], maps)
            == if op.MapNew? && a.ok then MapsAfter(ops, rs, maps) + [a.root] else MapsAfter(ops, rs, maps)
    ensures ActiveAfter(ops + [op], rs + [a], maps, active)
            == if op.Switch? && op.which < |MapsAfter(ops, rs, maps)| then MapsAfter(ops, rs, maps)[op.which]
               else ActiveAfter(ops, rs, maps, active)
  {
    assert (ops + [op])[..|ops|] == ops && (rs + [a])[..|ops|] == rs;
  }

  lemma LastLeafSnoc(ops: seq<Op>, rs: seq<Answer>, op: Op, a: Answer, k: Statics, maps: seq<nat>, active: nat,
                     r: nat, v: Page, was: Pte)
    requires |ops| == |rs|
    ensures LastLeaf(ops + [op], rs + [a], k, maps, active, r, v, was)
            == Written(op, a, k, ActiveAfter(ops, rs, maps, active), r, v,
                       LastLeaf(ops, rs, k, maps, active, r, v, was))
  {
    assert (ops + [op])[..|ops|] == ops && (rs + [a])[..|ops|] == rs;
  }

  /** What page v of map r read, or nothing if there was no such map. */
  ghost function Was(m0: Memory, r0: Roles, r: nat, v: Page): Pte {
    if IsTable(r0, r, 4) && r < |m0| then Query(m0, r, v) else ABSENT
  }

  /** Every page of every map, those made on the way included, reads the leaf last written for it. */
  ghost predicate Reads(mem: Memory, role: Roles, m0: Memory, r0: Roles, k: Statics,
                        ops: seq<Op>, rs: seq<Answer>, maps: seq<nat>, active: nat)
    requires |ops| == |rs|
  {
    |mem| == |m0| == FRAMES &&
    forall r: nat, v: Page :: IsTable(role, r, 4) && r < FRAMES ==>
      Query(mem, r, v) == LastLeaf(ops, rs, k, maps, active, Owner(k, r, v), v, Was(m0, r0, Owner(k, r, v), v))
  }

  predicate Low(op: Op) { op.Unmap? || op.MapNew? || op.Switch? || Ix(PageOf(op.virt), 4) != DIRECT_SLOT }

  /** Every map that carried the kernel half still does, and every new one does. */
  ghost predicate HalvesHeld(m0: Memory, r0: Roles, m1: Memory, r1: Roles, k: Statics)
    requires |m0| == |m1| == FRAMES && k.pml4 < FRAMES && k.pdLow < FRAMES
  {
    forall r: nat :: IsTable(r1, r, 4) && r < FRAMES && (IsTable(r0, r, 4) ==> HalfMatches(m0, k, r)) ==>
        HalfMatches(m1, k, r)
  }

  /** The maps are those there were, and a new one if the operation made one. */
  ghost predicate MapsKept(op: Op, a: Answer, r0: Roles, r1: Roles) {
    && (forall r: nat :: IsTable(r0, r, 4) ==> IsTable(r1, r, 4))
    && (forall r: nat :: IsTable(r1, r, 4) && !IsTable(r0, r, 4) ==> op.MapNew? && a.ok && r == a.root)
    && (op.MapNew? && a.ok ==> IsTable(r1, a.root, 4) && !IsTable(r0, a.root, 4))
  }

  /** One operation: exactly one page changes, unless it fails, and no kernel half. */
  ghost predicate StepDone(op: Op, a: Answer, k: Statics, active: nat, m0: Memory, r0: Roles, m1: Memory, r1: Roles) {
    && |m0| == |m1| == FRAMES && k.pml4 < FRAMES && k.pdLow < FRAMES && IsTable(r0, k.pml4, 4)
    && MapsKept(op, a, r0, r1)
    && (forall r: nat, v: Page :: IsTable(r1, r, 4) && r < FRAMES ==>
          Query(m1, r, v) == Written(op, a, k, active, Owner(k, r, v), v, Was(m0, r0, Owner(k, r, v), v)))
    && (Low(op) ==> HalvesHeld(m0, r0, m1, r1, k))
  }

  // ---- one operation -------------------------------------------------------------------------------------

  /** Nothing but tables below the roots came to be. */
  lemma SameMaps(r0: Roles, m1: Memory, r1: Roles, k: Statics, r: nat)
    requires Tree(m1, r1, k) && OnlyTablesAdded(r0, r1)
    ensures IsTable(r1, r, 4) <==> IsTable(r0, r, 4)
  {
    hide LinkOk;
    if IsTable(r1, r, 4) && r !in r0 {
      RootOf(m1, r1, k, r);
    }
  }

  /** A page that two maps share reads, in both, what its owner reads. */
  lemma OwnerReads(mem: Memory, role: Roles, k: Statics, r: nat, v: Page)
    requires Tree(mem, role, k) && IsTable(role, r, 4)
    ensures r < |mem| == FRAMES && IsTable(role, Owner(k, r, v), 4) && Owner(k, r, v) < FRAMES
    ensures Query(mem, r, v) == Query(mem, Owner(k, r, v), v)
  {
    hide LinkOk, SubOk, Query;
    if Ix(v, 4) == DIRECT_SLOT {
      DirectShared(mem, role, k, r, v);
    }
  }

  /** One leaf written, or none: every other page of every map reads as before. */
  lemma LeafStep(op: Op, a: Answer, k: Statics, active: nat, root: nat, p: Page, leaf: Pte, ok: bool,
                 m0: Memory, r0: Roles, m1: Memory, r1: Roles, r: nat, v: Page)
    requires Tree(m0, r0, k) && Tree(m1, r1, k) && OnlyTablesAdded(r0, r1) && IsTable(r0, root, 4) && IsTable(r1, r, 4)
    requires root < FRAMES && (ok ==> Query(m1, root, p) == leaf)
    requires forall q: nat, w: Page :: IsTable(r0, q, 4) && q < FRAMES && (!ok || !SameLeaf(root, p, q, w)) ==>
               Query(m1, q, w) == Query(m0, q, w)
    requires forall q: nat, w: Page, was: Pte ::
               Written(op, a, k, active, q, w, was) == if ok && q == Owner(k, root, w) && w == p then leaf else was
    ensures r < FRAMES && |m1| == FRAMES
    ensures Query(m1, r, v) == Written(op, a, k, active, Owner(k, r, v), v, Was(m0, r0, Owner(k, r, v), v))
  {
    hide Tree, Query, OnlyTablesAdded, Written;
    SameMaps(r0, m1, r1, k, r);
    SameMaps(r0, m1, r1, k, root);
    OwnerReads(m1, r1, k, r, v);
    OwnerReads(m1, r1, k, root, v);
    OwnerReads(m0, r0, k, r, v);
    var o := Owner(k, r, v);
    if ok && o == Owner(k, root, v) && v == p {
    } else {
      assert !ok || !SameLeaf(root, p, o, v);
    }
  }

  lemma Inside(mem: Memory, role: Roles, k: Statics)
    requires Tree(mem, role, k)
    ensures |mem| == FRAMES && k.pml4 < FRAMES && k.pdLow < FRAMES && IsTable(role, k.pml4, 4)
  {
  }

  lemma HeldHalves(m0: Memory, r0: Roles, m1: Memory, r1: Roles, k: Statics)
    requires Tree(m1, r1, k) && OnlyTablesAdded(r0, r1)
    requires |m0| == |m1| == FRAMES && k.pml4 < FRAMES && k.pdLow < FRAMES && HalvesKept(m0, r0, m1, k)
    ensures HalvesHeld(m0, r0, m1, r1, k)
  {
    hide Tree, OnlyTablesAdded, HalfMatches;
    forall r: nat | IsTable(r1, r, 4) ensures IsTable(r0, r, 4) {
      SameMaps(r0, m1, r1, k, r);
    }
  }

  /** What any operation that writes at most one leaf has done. */
  lemma LeafDone(op: Op, a: Answer, k: Statics, active: nat, root: nat, p: Page, leaf: Pte, ok: bool,
                 m0: Memory, r0: Roles, m1: Memory, r1: Roles)
    requires Tree(m0, r0, k) && Tree(m1, r1, k) && OnlyTablesAdded(r0, r1) && IsTable(r0, root, 4)
    requires |m0| == |m1| == FRAMES && k.pml4 < FRAMES && k.pdLow < FRAMES
    requires root < FRAMES && (ok ==> Query(m1, root, p) == leaf)
    requires forall q: nat, w: Page :: IsTable(r0, q, 4) && q < FRAMES && (!ok || !SameLeaf(root, p, q, w)) ==>
               Query(m1, q, w) == Query(m0, q, w)
    requires forall q: nat, w: Page, was: Pte ::
               Written(op, a, k, active, q, w, was) == if ok && q == Owner(k, root, w) && w == p then leaf else was
    requires Low(op) ==> HalvesKept(m0, r0, m1, k)
    requires !op.MapNew?
    ensures StepDone(op, a, k, active, m0, r0, m1, r1)
  {
    hide Tree, Query, OnlyTablesAdded, Written, HalfMatches, Low, SameLeaf, HalvesHeld, HalvesKept;
    Inside(m0, r0, k);
    forall r: nat ensures IsTable(r1, r, 4) <==> IsTable(r0, r, 4) {
      SameMaps(r0, m1, r1, k, r);
    }
    forall r: nat, v: Page | IsTable(r1, r, 4) && r < FRAMES
      ensures Query(m1, r, v) == Written(op, a, k, active, Owner(k, r, v), v, Was(m0, r0, Owner(k, r, v), v))
    {
      LeafStep(op, a, k, active, root, p, leaf, ok, m0, r0, m1, r1, r, v);
    }
    if Low(op) {
      HeldHalves(m0, r0, m1, r1, k);
    }
  }

  method Step(vm: Vmm, op: Op, maps: seq<nat>) returns (a: Answer)
    requires vm.Inv() && forall m :: m in maps ==> IsTable(vm.role, m, 4)
    modifies vm`umap, vm`role, vm.mem, vm.pmm, vm.pmm.bitmap
    ensures vm.Inv() && vm.umap == if op.Switch? && op.which < |maps| then maps[op.which] else old(vm.umap)
    ensures StepDone(op, a, vm.k, old(vm.umap), old(vm.mem[..]), old(vm.role), vm.mem[..], vm.role)
  {
    hide Tree, KernelEntries, Balanced, Owned, Query, HalfMatches, HalvesKept, Kept, PageOf, Blocked, Cleared, StepDone,
         SameLeaf, OnlyTablesAdded, Low, FrameOf, Written, FreshMap;
    ghost var m0, r0, k, u0 := vm.mem[..], vm.role, vm.k, vm.umap;
    Inside(m0, r0, k);
    a := Answer(true, 0);
    WrittenLeaf(op, a, k, u0);
    match op {
      case Map(virt, phys) =>
        var ok := vm.VmmMap(virt, phys);
        a := Answer(ok, 0);
        MapOk(op, a, k, u0, k.pml4, vm, m0, r0);
      case MapUser(virt, phys) =>
        ghost var pt, mid;
        var ok: bool;
        ok, pt, mid := vm.VmmMapUser(virt, phys);
        a := Answer(ok, 0);
        MapOk(op, a, k, u0, u0, vm, m0, r0);
      case Unmap(virt) =>
        vm.VmmUnmap(virt);
        SameTables(r0);
        LeafDone(op, a, k, u0, k.pml4, PageOf(virt), ABSENT, true, m0, r0, vm.mem[..], vm.role);
      case MapNew =>
        var root := vm.VmmMapNew();
        a := Answer(root != 0, root);
        if root == 0 {
          NothingDone(op, a, k, u0, m0, r0);
        } else {
          MapNewDone(op, a, k, u0, m0, r0, vm.mem[..], vm.role);
        }
      case Switch(which) =>
        NothingDone(op, a, k, u0, m0, r0);
        if which < |maps| {
          vm.VmmSwitch(maps[which]);
        }
    }
  }

  function LeafOf(op: Op): Pte
    requires op.Map? || op.MapUser? || op.Unmap?
  {
    if op.Unmap? then ABSENT else Pte(true, true, op.MapUser?, false, FrameOf(op.phys))
  }

  lemma WrittenLeaf(op: Op, a: Answer, k: Statics, active: nat)
    ensures op.Map? || op.Unmap? ==>
              forall q: nat, w: Page, was: Pte ::
                Written(op, a, k, active, q, w, was)
                == if (op.Unmap? || a.ok) && q == Owner(k, k.pml4, w) && w == PageOf(op.virt) then LeafOf(op) else was
    ensures op.MapUser? ==>
              forall q: nat, w: Page, was: Pte ::
                Written(op, a, k, active, q, w, was)
                == if a.ok && q == Owner(k, active, w) && w == PageOf(op.virt) then LeafOf(op) else was
  {
    hide PageOf, FrameOf;
  }

  lemma SameTables(role: Roles)
    ensures OnlyTablesAdded(role, role)
  {
  }

  lemma LowMap(op: Op)
    requires op.Map? || op.MapUser?
    ensures Low(op) <==> Ix(PageOf(op.virt), 4) != DIRECT_SLOT
  {
  }

  lemma MapOk(op: Op, a: Answer, k: Statics, active: nat, root: nat, vm: Vmm, m0: Memory, r0: Roles)
    requires (op.Map? && root == k.pml4) || (op.MapUser? && root == active)
    requires vm.Inv() && k == vm.k && Tree(m0, r0, k) && IsTable(r0, root, 4)
    requires vm.Mapped(root, PageOf(op.virt), LeafOf(op), a.ok, m0, r0)
    ensures StepDone(op, a, k, active, m0, r0, vm.mem[..], vm.role)
  {
    hide Tree, KernelEntries, Balanced, Owned, Query, HalfMatches, HalvesKept, PageOf, StepDone, SameLeaf,
         OnlyTablesAdded,
         Low, LeafOf, Written;
    WrittenLeaf(op, a, k, active);
    LowMap(op);
    LeafDone(op, a, k, active, root, PageOf(op.virt), LeafOf(op), a.ok, m0, r0, vm.mem[..], vm.role);
  }

  /** An operation that changes nothing: a switch, or a new map there are no frames for. */
  lemma NothingDone(op: Op, a: Answer, k: Statics, active: nat, m0: Memory, r0: Roles)
    requires Tree(m0, r0, k) && (op.Switch? || (op.MapNew? && !a.ok))
    ensures StepDone(op, a, k, active, m0, r0, m0, r0)
  {
    hide Tree, Query, HalfMatches;
    Inside(m0, r0, k);
    forall r: nat, v: Page | IsTable(r0, r, 4) && r < FRAMES
      ensures Query(m0, r, v) == Was(m0, r0, Owner(k, r, v), v)
    {
      OwnerReads(m0, r0, k, r, v);
    }
  }

  lemma MapNewDone(op: Op, a: Answer, k: Statics, active: nat, m0: Memory, r0: Roles, m1: Memory, r1: Roles)
    requires Tree(m0, r0, k) && Tree(m1, r1, k) && op.MapNew? && a.ok && FreshMap(m0, r0, m1, r1, k, a.root)
    ensures StepDone(op, a, k, active, m0, r0, m1, r1)
  {
    hide Tree, Query, HalfMatches;
    Inside(m0, r0, k);
    forall r: nat, v: Page | IsTable(r1, r, 4) && r < FRAMES
      ensures Query(m1, r, v) == Written(op, a, k, active, Owner(k, r, v), v, Was(m0, r0, Owner(k, r, v), v))
    {
      if r != a.root {
        OwnerReads(m0, r0, k, r, v);
      }
    }
  }

  // ---- a run ---------------------------------------------------------------------------------------------

  lemma NextRead(m0: Memory, r0: Roles, m1: Memory, r1: Roles, m2: Memory, r2: Roles, k: Statics,
                 ops: seq<Op>, rs: seq<Answer>, maps: seq<nat>, op: Op, a: Answer, active: nat)
    requires |ops| == |rs| && Reads(m1, r1, m0, r0, k, ops, rs, maps, active)
    requires StepDone(op, a, k, ActiveAfter(ops, rs, maps, active), m1, r1, m2, r2)
    ensures Reads(m2, r2, m0, r0, k, ops + [op], rs + [a], maps, active)
  {
    hide Query, LastLeaf, ActiveAfter, IsTable, PageOf;
    forall r: nat, v: Page | IsTable(r2, r, 4) && r < FRAMES
      ensures Query(m2, r, v)
              == LastLeaf(ops + [op], rs + [a], k, maps, active, Owner(k, r, v), v, Was(m0, r0, Owner(k, r, v), v))
    {
      var o := Owner(k, r, v);
      LastLeafSnoc(ops, rs, op, a, k, maps, active, o, v, Was(m0, r0, o, v));
      assert Owner(k, o, v) == o;
      if IsTable(r1, o, 4) {
        assert o < FRAMES;
        assert Was(m1, r1, o, v) == Query(m1, o, v);
      } else {
        assert o == r && op.MapNew? && a.ok && r == a.root;
      }
    }
  }

  lemma NoneRead(mem: Memory, role: Roles, k: Statics, maps: seq<nat>, active: nat)
    requires Tree(mem, role, k)
    ensures Reads(mem, role, mem, role, k, [], [], maps, active)
    ensures ActiveAfter([], [], maps, active) == active && MapsAfter([], [], maps) == maps
    ensures |mem| == FRAMES && k.pml4 < FRAMES && k.pdLow < FRAMES && HalvesHeld(mem, role, mem, role, k)
  {
    hide Tree, Query, HalfMatches;
    Inside(mem, role, k);
    forall r: nat, v: Page | IsTable(role, r, 4) && r < FRAMES
      ensures Query(mem, r, v) == Was(mem, role, Owner(k, r, v), v)
    {
      OwnerReads(mem, role, k, r, v);
    }
  }

  lemma HeldTwice(m0: Memory, r0: Roles, m1: Memory, r1: Roles, m2: Memory, r2: Roles, k: Statics, op: Op, a: Answer,
                  active: nat)
    requires |m0| == FRAMES && StepDone(op, a, k, active, m1, r1, m2, r2)
    ensures Low(op) && HalvesHeld(m0, r0, m1, r1, k) ==> HalvesHeld(m0, r0, m2, r2, k)
  {
    hide Query, HalfMatches, Low, Written;
  }

  lemma HandlesKept(op: Op, a: Answer, r0: Roles, r1: Roles, had: seq<nat>)
    requires MapsKept(op, a, r0, r1) && forall m :: m in had ==> IsTable(r0, m, 4)
    ensures forall m :: m in (if op.MapNew? && a.ok then had + [a.root] else had) ==> IsTable(r1, m, 4)
  {
  }

  /** After any run every page of every map, of those made on the way too, reads the leaf last written for it;
      operations on other pages and maps have not touched it; and every map that carried the kernel half, or was
      made in the run, carries it, so that ring 3 reaches none of it. */
  method RunAll(vm: Vmm, ops: seq<Op>, maps: seq<nat>) returns (rs: seq<Answer>)
    requires vm.Inv() && forall m :: m in maps ==> IsTable(vm.role, m, 4)
    modifies vm`umap, vm`role, vm.mem, vm.pmm, vm.pmm.bitmap
    ensures vm.Inv() && |rs| == |ops| && vm.umap == ActiveAfter(ops, rs, maps, old(vm.umap))
    ensures forall m :: m in MapsAfter(ops, rs, maps) ==> IsTable(vm.role, m, 4)
    ensures Reads(vm.mem[..], vm.role, old(vm.mem[..]), old(vm.role), vm.k, ops, rs, maps, old(vm.umap))
    ensures vm.mem.Length == FRAMES && vm.k.pml4 < FRAMES && vm.k.pdLow < FRAMES
    ensures (forall op :: op in ops ==> Low(op)) ==>
              HalvesHeld(old(vm.mem[..]), old(vm.role), vm.mem[..], vm.role, vm.k)
  {
    hide Tree, KernelEntries, Balanced, Owned, Query, HalfMatches, HalvesHeld, Low, Reads, LastLeaf, ActiveAfter,
         MapsAfter,
         StepDone, MapsKept;
    rs := [];
    ghost var m0, r0, u0 := vm.mem[..], vm.role, vm.umap;
    NoneRead(m0, r0, vm.k, maps, u0);
    var had := maps;
    var i := 0;
    while i < |ops|
      invariant 0 <= i <= |ops| && |rs| == i && vm.Inv() && vm.umap == ActiveAfter(ops[..i], rs, maps, u0)
      invariant had == MapsAfter(ops[..i], rs, maps) && forall m :: m in had ==> IsTable(vm.role, m, 4)
      invariant Reads(vm.mem[..], vm.role, m0, r0, vm.k, ops[..i], rs, maps, u0)
      invariant (forall op :: op in ops[..i] ==> Low(op)) ==> HalvesHeld(m0, r0, vm.mem[..], vm.role, vm.k)
    {
      ghost var m1, r1 := vm.mem[..], vm.role;
      var a := Step(vm, ops[i], had);
      StepMaps(ops[i], a, vm.k, ActiveAfter(ops[..i], rs, maps, u0), m1, r1, vm.mem[..], vm.role);
      NextRead(m0, r0, m1, r1, vm.mem[..], vm.role, vm.k, ops[..i], rs, maps, ops[i], a, u0);
      RunSnoc(ops[..i], rs, ops[i], a, vm.k, maps, u0);
      HeldTwice(m0, r0, m1, r1, vm.mem[..], vm.role, vm.k, ops[i], a, ActiveAfter(ops[..i], rs, maps, u0));
      HandlesKept(ops[i], a, r1, vm.role, had);
      assert ops[..i + 1] == ops[..i] + [ops[i]];
      if ops[i].MapNew? && a.ok { had := had + [a.root]; }
      rs := rs + [a];
      i := i + 1;
    }
    assert ops[..i] == ops;
  }

  lemma StepMaps(op: Op, a: Answer, k: Statics, active: nat, m0: Memory, r0: Roles, m1: Memory, r1: Roles)
    requires StepDone(op, a, k, active, m0, r0, m1, r1)
    ensures MapsKept(op, a, r0, r1)
  {
  }

  /** With the kernel half held, ring 3 reaches neither the low identity nor the direct map's first gibibyte, in any
      map, however many intermediate links user pages have opened. */
  lemma NeverUser(m0: Memory, r0: Roles, m1: Memory, r1: Roles, k: Statics, r: nat, v: Page)
    requires |m0| == |m1| == FRAMES && k.pml4 < FRAMES && k.pdLow < FRAMES
    requires KernelEntries(m1, k) && HalvesHeld(m0, r0, m1, r1, k)
    requires IsTable(r1, r, 4) && r < FRAMES && (IsTable(r0, r, 4) ==> HalfMatches(m0, k, r))
    requires v < IDENTITY_PAGES || (Ix(v, 4) == DIRECT_SLOT && Ix(v, 3) == 0)
    ensures !UserReaches(m1, r, 4, v)
  {
    hide UserReaches, KernelEntries, HalfMatches;
    if v < IDENTITY_PAGES {
      IdentityNeverUser(m1, k, r, v);
    } else {
      DirectMapNeverUser(m1, k, r, v);
    }
  }
}
