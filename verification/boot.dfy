/** From boot: each part initialised as the body initialises it, and then run. */
module Boot {
  import opened Pmm
  import opened PageTree
  import opened KernelHalf
  import opened Paging
  import opened PageFrames
  import opened Translation
  import opened UserHalf
  import opened Wrappers
  import AddressSpace
  import Heap
  import MapRuns
  import Scheduling
  import SchedRuns
  import SchedSteps

  // ---- page tables ---------------------------------------------------------------------------------------

  /** The body's five tables are page-aligned variables of its own image. */
  ghost predicate InImage(k: Statics, kernelEnd: nat) {
    && FiveApart(k)
    && forall f :: f in StaticFrames(k) ==> f < FRAMES && 0x100000 <= f * FRAME_SIZE < kernelEnd
  }

  /** A frame the allocator may give out once it is initialised. */
  ghost predicate Spare(regions: seq<Region>, kernelEnd: nat, modules: seq<(nat, nat)>, f: nat) {
    && f < FRAMES && Available(regions, f) && !Touches((0, 0x100000), f)
    && !Touches((0x100000, kernelEnd), f) && !Touched(modules, f)
  }

  /** pmm_init and vmm_init: every other frame is out of reach, the tables are the body's five, no page of the one map
      has a leaf, and an address leads where it should: below CANONICAL_BASE to itself, in the direct map to the
      physical address it is for, and anywhere else nowhere. */
  method Paged(regions: seq<Region>, kernelEnd: nat, modules: seq<(nat, nat)>, k: Statics) returns (vm: Vmm)
    requires InImage(k, kernelEnd)
    ensures fresh(vm) && fresh(vm.mem) && fresh(vm.pmm) && fresh(vm.pmm.bitmap) && vm.k == k
    ensures vm.Inv() && vm.umap == k.pml4 && Owned(vm.mem[..], vm.role) && vm.role.Keys == StaticFrames(k)
    ensures forall f: nat :: f in vm.reserved <==> f < FRAMES && !Spare(regions, kernelEnd, modules, f)
    ensures vm.held == {} && k.pml4 < FRAMES && k.pdLow < FRAMES && vm.mem.Length == FRAMES
    ensures forall v: Page :: Query(vm.mem[..], k.pml4, v) == ABSENT
    ensures HalfMatches(vm.mem[..], k, k.pml4) && forall r: nat :: IsTable(vm.role, r, 4) <==> r == k.pml4
    ensures forall virt: nat :: Translate(vm.mem[..], k.pml4, virt) == BootLeads(virt)
  {
    hide Tree, Owned, KernelEntries, HalfMatches, Query, CountFree, Available, Touched, Balanced, BootLayout, Translate,
         BootLeads, FiveApart;
    var pmm := new Allocator();
    pmm.Init(regions, kernelEnd, modules);
    vm := new Vmm(pmm, k);
    assert StaticFrames(k) <= vm.reserved by { ImageInUse(k, kernelEnd); }
    ImageFits(k, kernelEnd);
    vm.VmmInit();
    OneRoot(vm.mem[..], vm.role, k);
    forall virt: nat ensures Translate(vm.mem[..], k.pml4, virt) == BootLeads(virt) {
      BootTranslates(vm.mem[..], k, virt);
    }
  }

  lemma ImageInUse(k: Statics, kernelEnd: nat)
    requires InImage(k, kernelEnd)
    ensures forall f :: f in StaticFrames(k) ==> f < FRAMES && Touches((0x100000, kernelEnd), f)
  {
  }

  lemma ImageFits(k: Statics, kernelEnd: nat)
    requires InImage(k, kernelEnd)
    ensures 0 < k.pml4 < FRAMES && 0 < k.pdptLow < FRAMES && 0 < k.pdLow < FRAMES
    ensures 0 < k.pdptHigh < FRAMES && 0 < k.pdDirect < FRAMES
  {
    assert forall f :: f in StaticFrames(k) ==> 0 < f;
  }

  lemma OneRoot(mem: Memory, role: Roles, k: Statics)
    requires Tree(mem, role, k) && role.Keys == StaticFrames(k)
    ensures forall r: nat :: IsTable(role, r, 4) <==> r == k.pml4
    ensures k.pml4 < FRAMES && k.pdLow < FRAMES
  {
    hide LinkOk, SubOk;
  }

  /** And any run of table operations from there: every page of every map reads the leaf last written for it, or
      nothing; and if no operation enters the direct map's slot ring 3 reaches no page of the kernel half. */
  method PagedRun(regions: seq<Region>, kernelEnd: nat, modules: seq<(nat, nat)>, k: Statics, ops: seq<MapRuns.Op>)
    returns (vm: Vmm, rs: seq<MapRuns.Answer>)
    requires InImage(k, kernelEnd)
    ensures vm.Inv() && vm.k == k && vm.mem.Length == FRAMES && |rs| == |ops|
    ensures forall r: nat, v: Page :: IsTable(vm.role, r, 4) && r < FRAMES ==>
              Query(vm.mem[..], r, v)
              == MapRuns.LastLeaf(ops, rs, k, [k.pml4], k.pml4, MapRuns.Owner(k, r, v), v, ABSENT)
    ensures AllWritten(vm.mem[..], vm.role)
    ensures (forall op :: op in ops ==> MapRuns.Low(op)) ==>
              forall r: nat, v: Page :: IsTable(vm.role, r, 4) && r < FRAMES && Kernel(v) ==>
                !UserReaches(vm.mem[..], r, 4, v)
    ensures (forall op :: op in ops ==> MapRuns.Low(op)) ==>
              forall r: nat, phys: nat :: IsTable(vm.role, r, 4) && r < FRAMES ==> KernelLeads(vm.mem[..], r, phys)
  {
    hide Tree, Owned, KernelEntries, HalfMatches, Query, CountFree, Balanced, UserReaches, MapRuns.LastLeaf,
         MapRuns.Reads,
         MapRuns.Low, MapRuns.HalvesHeld, UserOpen, AllWritten;
    vm := Paged(regions, kernelEnd, modules, k);
    ghost var m0, r0 := vm.mem[..], vm.role;
    rs := MapRuns.RunAll(vm, ops, [k.pml4]);
    FromNothing(vm.mem[..], vm.role, m0, r0, k, ops, rs);
    EveryPageWritten(vm.mem[..], vm.role, k);
    if forall op :: op in ops ==> MapRuns.Low(op) {
      forall r: nat, v: Page | IsTable(vm.role, r, 4) && r < FRAMES && Kernel(v)
        ensures !UserReaches(vm.mem[..], r, 4, v)
      {
        MapRuns.NeverUser(m0, r0, vm.mem[..], vm.role, k, r, v);
      }
      forall r: nat, phys: nat | IsTable(vm.role, r, 4) && r < FRAMES ensures KernelLeads(vm.mem[..], r, phys) {
        HeldLeads(m0, r0, vm.mem[..], vm.role, k, r, phys);
      }
    }
  }

  /** The map leads low addresses to themselves and has physical memory at its place in the direct map. */
  ghost predicate KernelLeads(mem: Memory, r: nat, phys: nat)
    requires r < |mem|
  {
    && (phys < CANONICAL_BASE ==> Translate(mem, r, phys) == Some(phys))
    && (phys < DIRECT_MAP_MAX ==> Translate(mem, r, DIRECT_MAP_BASE + phys) == Some(phys))
  }

  lemma HeldLeads(m0: Memory, r0: Roles, m1: Memory, r1: Roles, k: Statics, r: nat, phys: nat)
    requires |m0| == |m1| == FRAMES && k.pml4 < FRAMES && k.pdLow < FRAMES
    requires KernelEntries(m1, k) && MapRuns.HalvesHeld(m0, r0, m1, r1, k)
    requires IsTable(r1, r, 4) && r < FRAMES && (IsTable(r0, r, 4) ==> HalfMatches(m0, k, r))
    ensures KernelLeads(m1, r, phys)
  {
    hide Translate, HalfMatches, KernelEntries;
    if phys < CANONICAL_BASE { IdentityLeads(m1, k, r, phys); }
    if phys < DIRECT_MAP_MAX { DirectLeads(m1, k, r, phys); }
  }

  /** The low identity, and the direct map's first gibibyte. */
  predicate Kernel(v: Page) { v < IDENTITY_PAGES || (Ix(v, 4) == DIRECT_SLOT && Ix(v, 3) == 0) }

  lemma FromNothing(mem: Memory, role: Roles, m0: Memory, r0: Roles, k: Statics, ops: seq<MapRuns.Op>,
                    rs: seq<MapRuns.Answer>)
    requires |ops| == |rs| && MapRuns.Reads(mem, role, m0, r0, k, ops, rs, [k.pml4], k.pml4)
    requires k.pml4 < FRAMES && |m0| == FRAMES && forall v: Page :: Query(m0, k.pml4, v) == ABSENT
    requires forall r: nat :: IsTable(r0, r, 4) <==> r == k.pml4
    ensures |mem| == FRAMES
    ensures forall r: nat, v: Page :: IsTable(role, r, 4) && r < FRAMES ==>
              Query(mem, r, v) == MapRuns.LastLeaf(ops, rs, k, [k.pml4], k.pml4, MapRuns.Owner(k, r, v), v, ABSENT)
  {
    hide Query, MapRuns.LastLeaf, IsTable, MapRuns.Owner;
    forall r: nat, v: Page ensures MapRuns.Was(m0, r0, r, v) == ABSENT {}
  }

  /** Or any run of a program's memory calls: frames in use are exactly the reserved ones, the tables and the frames
      behind user pages, each behind one page. */
  method ProgramRun(regions: seq<Region>, kernelEnd: nat, modules: seq<(nat, nat)>, k: Statics,
                    acts: seq<AddressSpace.Act>)
    returns (space: AddressSpace.Space)
    requires InImage(k, kernelEnd)
    ensures space.Valid() && space.AllForeign() && space.vmm.held == {}
    ensures AllWritten(space.vmm.mem[..], space.vmm.role)
    ensures forall f: nat :: f < FRAMES ==>
              (space.vmm.pmm.Used()[f] <==>
                 !Spare(regions, kernelEnd, modules, f) || (f in space.vmm.role && !space.vmm.role[f].Leaf?)
                 || exists r: nat, v: Page :: Backs(space.vmm.mem[..], space.vmm.role, f, r, v))
  {
    hide Tree, Owned, KernelEntries, HalfMatches, Query, CountFree, Balanced, PageAt, Backs, UserOpen, AllWritten;
    var vm := Paged(regions, kernelEnd, modules, k);
    NothingSeen(vm.mem[..], k);
    space := new AddressSpace.Space(vm);
    space.Run(acts);
    EveryPageWritten(space.vmm.mem[..], space.vmm.role, k);
    forall f: nat | f < FRAMES
      ensures space.vmm.pmm.Used()[f] <==>
                !Spare(regions, kernelEnd, modules, f) || (f in space.vmm.role && !space.vmm.role[f].Leaf?)
                || exists r: nat, v: Page :: Backs(space.vmm.mem[..], space.vmm.role, f, r, v)
    {
      AddressSpace.UsedExactly(vm.pmm.Used(), vm.mem[..], vm.role, vm.reserved, vm.held, k, f);
    }
  }

  lemma NothingSeen(mem: Memory, k: Statics)
    requires |mem| == FRAMES && k.pml4 < FRAMES && forall v: Page :: Query(mem, k.pml4, v) == ABSENT
    ensures forall v: Page :: PageAt(mem, k.pml4, v) == Nothing
  {
    hide Query;
  }

  // ---- heap and threads ----------------------------------------------------------------------------------

  /** heap_init, and any run of kmalloc and of kfree of what it gave. */
  method HeapRun(ops: seq<Heap.Op>) returns (area: Heap.Area, owned: map<nat, nat>)
    requires forall op :: op in ops && op.Malloc? ==> op.size < Heap.WORD
    ensures area.Valid() && Heap.Owns(area.blocks, owned) && Heap.Bytes(area.blocks) == Heap.HEAP_SIZE
  {
    area := new Heap.Area();
    owned := area.Run(ops);
  }

  /** sched_init, and any run of the timer and the threads' calls: the state is the run's, so that what is proved of
      every run from the initial state holds of the object. */
  method SchedRun(memory: map<nat, nat>, since: nat, acts: seq<SchedSteps.Act>, base: nat)
    returns (s: Scheduling.Scheduler)
    requires SchedRuns.Runs(SchedSteps.Initial(memory, since), acts, base)
    ensures s.Valid() && s.State() == SchedRuns.After(SchedSteps.Initial(memory, since), acts, base)
  {
    s := new Scheduling.Scheduler(memory, since);
    s.RunAll(acts, base);
  }
}
