/** The memory calls of a program: brk, mmap, munmap and mprotect over the active map and its frames. */
module AddressSpace {
  import opened Pmm
  import opened PageTree
  import opened KernelHalf
  import opened Paging
  import opened PageFrames
  import opened Ranges
  import opened Translation
  import opened UserHalf
  import opened Wrappers

  const CANON_LIMIT: nat := 0x8000_0000_0000
  const SERVE_MMAP_BASE: nat := 0x7000_0000_0000
  const ENOMEM: int := -12

  /** What the i-th page of a mapping is filled with: the file's page, or zeros past its end or without a file. */
  function Content(file: seq<Table>, i: nat): Table {
    if i < |file| then file[i] else ZeroTable()
  }

  /** What a page shows once the first n pages of a mapping have been filled.  A supervisor page stays one. */
  function Laid(start: nat, n: nat, file: seq<Table>, v: Page, was: Seen): Seen {
    if n == 0 || was.Body? then was
    else if v == Nth(start, n - 1) then Bytes(Content(file, n - 1))
    else Laid(start, n - 1, file, v, was)
  }

  /** What committing a page makes of it: a page already present stays as it is. */
  function Backed(s: Seen): Seen { if s.Nothing? then Bytes(ZeroTable()) else s }

  /** What growing the break makes of a page: a user page stays, anything else becomes a zeroed one. */
  function Grown(s: Seen): Seen { if s.Bytes? then s else Bytes(ZeroTable()) }

  /** A memory call, with its flags read out. */
  datatype Act =
    | Brk(addr: nat)
    | Mmap(addr: nat, len: nat, accessible: bool, anon: bool, fixed: bool, file: seq<Table>)
    | Munmap(addr: nat, len: nat)
    | Mprotect(addr: nat, len: nat, accessible: bool)

  class Space {
    const vmm: Vmm
    var brkBase: nat
    var brkCur: nat
    var mmapNext: nat

    /** The invariant of every run: page tables form a tree, used frames are exactly the reserved ones, the tables and
        the frames behind user pages, each frame behind one page, the free count is exact, and the next mapping goes to
        a page boundary. */
    ghost predicate Valid()
      reads this, vmm, vmm.mem, vmm.pmm, vmm.pmm.bitmap
    {
      && vmm.Inv() && Owned(vmm.mem[..], vmm.role) && vmm.umap == vmm.k.pml4
      && vmm.k.pml4 < FRAMES && mmapNext % FRAME_SIZE == 0
    }

    /** What the program sees in a page. */
    ghost function Sees(v: Page): Seen
      requires vmm.Shaped() && vmm.k.pml4 < FRAMES
      reads vmm.mem
    {
      PageAt(vmm.mem[..], vmm.k.pml4, v)
    }

    ghost predicate Foreign(v: Page)
      requires vmm.Shaped() && vmm.k.pml4 < FRAMES
      reads vmm`held, vmm.mem
    {
      ForeignPage(Sees(v), vmm.reserved, vmm.held, vmm.k)
    }

    /** Why a page could not be given a frame: at most the one given back is free, or a huge page is in the way. */
    ghost predicate Short(virt: nat)
      requires vmm.Shaped() && vmm.k.pml4 < FRAMES
      reads vmm.mem, vmm.pmm
    {
      vmm.pmm.freeFrames <= 1 || Blocked(vmm.mem[..], vmm.k.pml4, 4, PageOf(virt))
    }

    constructor (m: Vmm)
      requires m.Inv() && Owned(m.mem[..], m.role) && m.umap == m.k.pml4
      ensures Valid() && vmm == m && brkCur == 0 && mmapNext == 0
    {
      vmm, brkBase, brkCur, mmapNext := m, 0, 0, 0;
    }

    /** A frame of its own for whoever asks, or none. */
    method Hold() returns (f: nat)
      requires vmm.Inv()
      modifies vmm`held, vmm.pmm, vmm.pmm.bitmap
      ensures vmm.Inv() && (f == 0 <==> old(vmm.pmm.freeFrames) == 0)
      ensures f == 0 ==> vmm.held == old(vmm.held) && vmm.pmm.freeFrames == 0
      ensures f != 0 ==> vmm.held == old(vmm.held) + {f} && f !in old(vmm.held) && f < FRAMES && f !in vmm.role
    {
      hide Tree, KernelEntries, Balanced, CountFree, UserOpen;
      FreeIsNobodys(vmm.pmm.Used(), vmm.role, vmm.reserved, vmm.held, vmm.k);
      ghost var used := vmm.pmm.Used();
      f := vmm.pmm.Alloc();
      if f == 0 { return; }
      BalanceHold(used, vmm.role, vmm.reserved, vmm.held, vmm.k, f);
      vmm.held := vmm.held + {f};
    }

    /** Gives a held frame back. */
    method Drop(f: nat)
      requires vmm.Inv() && f in vmm.held
      modifies vmm`held, vmm.pmm, vmm.pmm.bitmap
      ensures vmm.Inv() && vmm.held == old(vmm.held) - {f} && vmm.pmm.freeFrames == old(vmm.pmm.freeFrames) + 1
    {
      hide Tree, KernelEntries, Balanced, UserOpen;
      BalanceDrop(vmm.pmm.Used(), vmm.role, vmm.reserved, vmm.held, vmm.k, f);
      CountUpdate(vmm.pmm.Used(), f, false);
      vmm.pmm.Free(f);
      vmm.held := vmm.held - {f};
    }

    /** A frame for a page that is no user page: allocated, mapped and filled, or given back. */
    method Commit(virt: nat, content: Table) returns (ok: bool)
      requires Valid() && !Sees(PageOf(virt)).Bytes?
      modifies vmm`role, vmm`held, vmm.mem, vmm.pmm, vmm.pmm.bitmap
      ensures Valid()
      ensures OnePage(old(vmm.mem[..]), old(vmm.role), vmm.mem[..], vmm.k.pml4, PageOf(virt),
                      if ok then Bytes(content) else old(Sees(PageOf(virt))))
      ensures RootsKept(old(vmm.role), vmm.role) && vmm.held == old(vmm.held)
      ensures !ok ==> Short(virt)
    {
      hide Tree, KernelEntries, Balanced, CountFree, Owned, Query, OnePage, PageAt, Kept, HalvesKept, Vmm.Mapped,
           Blocked, UserOpen;
      var v := PageOf(virt);
      var f := Hold();
      if f == 0 { Same(vmm.mem[..], vmm.role, vmm.k, v); return false; }
      ghost var m0, r0 := vmm.mem[..], vmm.role;
      ghost var pt, mid;
      ok, pt, mid := vmm.VmmMapUser(virt, f * FRAME_SIZE);
      if !ok {
        StillSeen(m0, r0, mid, vmm.role, vmm.k, v);
        Drop(f);
        return;
      }
      Fill(f, m0, r0, mid, v, pt, content);
    }

    /** The frame just mapped is filled: from here on it is the page's. */
    method Fill(f: nat, ghost m0: Memory, ghost r0: Roles, ghost mid: Memory, ghost v: Page, ghost pt: nat,
                content: Table)
      requires vmm.Inv() && f in vmm.held && f < FRAMES && vmm.umap == vmm.k.pml4 && mmapNext % FRAME_SIZE == 0
      requires Kept(m0, r0, mid, vmm.role, vmm.k) && Owned(m0, r0) && IsTable(r0, vmm.k.pml4, 4) && vmm.k.pml4 < |m0|
      requires !PageAt(m0, vmm.k.pml4, v).Bytes?
      requires IsTable(vmm.role, pt, 1) && pt < |mid| && vmm.k.pml4 < |mid| && Descend(mid, vmm.k.pml4, 4, v) == At(pt)
      requires vmm.mem[..] == Poke(mid, pt, Ix(v, 1), UserLeaf(f))
      modifies vmm`role, vmm`held, vmm.mem
      ensures Valid() && OnePage(m0, r0, vmm.mem[..], vmm.k.pml4, v, Bytes(content)) && RootsKept(r0, vmm.role)
      ensures vmm.held == old(vmm.held) - {f}
    {
      hide Tree, KernelEntries, Balanced, CountFree, Owned, Query, OnePage, PageAt, Kept, UserOpen;
      BalanceGive(vmm.pmm.Used(), vmm.role, vmm.reserved, vmm.held, vmm.k, f, Leaf(pt, Ix(v, 1)));
      Ready(m0, r0, mid, vmm.role, vmm.k, v, f);
      Given(m0, r0, mid, vmm.role, vmm.k, vmm.k.pml4, v, f, content);
      FilledOpen(vmm.mem[..], vmm.role, vmm.k, f, content, vmm.role[f := Leaf(pt, Ix(v, 1))]);
      vmm.mem[f] := content;
      assert vmm.mem[..] == Poke(mid, pt, Ix(v, 1), UserLeaf(f))[f := content];
      vmm.role := vmm.role[f := Leaf(pt, Ix(v, 1))];
      vmm.held := vmm.held - {f};
    }

    /** Unmaps a page and gives its frame back, if it was a user page. */
    method Release(virt: nat)
      requires Valid()
      modifies vmm`role, vmm.mem, vmm.pmm, vmm.pmm.bitmap
      ensures Valid()
      ensures OnePage(old(vmm.mem[..]), old(vmm.role), vmm.mem[..], vmm.k.pml4, PageOf(virt), Nothing)
      ensures RootsKept(old(vmm.role), vmm.role)
    {
      hide Tree, KernelEntries, Balanced, CountFree, Owned, Query, OnePage, PageAt, HalvesKept, Cleared, UserOpen;
      var pte := vmm.VmmQueryIn(vmm.k.pml4, virt);
      Taken(vmm.mem[..], vmm.role, vmm.k, vmm.k.pml4, PageOf(virt));
      vmm.VmmUnmap(virt);
      if pte.present && pte.user {
        BalanceFree(vmm.pmm.Used(), vmm.mem[..], vmm.role, vmm.reserved, vmm.held, vmm.k, pte.frame);
        vmm.pmm.Free(pte.frame);
        DroppedOpen(vmm.mem[..], vmm.role, vmm.k, pte.frame);
        vmm.role := vmm.role - {pte.frame};
      }
    }

    // ---- the four calls ------------------------------------------------------------------------------------

    /** Releases the n pages from an address on. */
    method ReleaseAll(start: nat, n: nat)
      requires Valid()
      modifies vmm`role, vmm.mem, vmm.pmm, vmm.pmm.bitmap
      ensures Valid()
      ensures forall v: Page :: Sees(v) == if Spans(start, n, v) then Nothing else old(Sees(v))
      ensures OtherMaps(old(vmm.mem[..]), old(vmm.role), vmm.mem[..], vmm.role, vmm.k.pml4)
    {
      hide Tree, KernelEntries, Balanced, CountFree, Owned, PageAt, OnePage, PageOf, Spans, RootsKept, OtherMaps,
           Laid, Content,
           RoundUp, RoundDown, Blocked, UserOpen;
      ghost var m0, r0 := vmm.mem[..], vmm.role;
      Start(m0, r0, vmm.k);
      var i := 0;
      while i < n
        invariant 0 <= i <= n && Valid()
        invariant forall v: Page :: Sees(v) == if Spans(start, i, v) then Nothing else PageAt(m0, vmm.k.pml4, v)
        invariant OtherMaps(m0, r0, vmm.mem[..], vmm.role, vmm.k.pml4) && vmm.held == old(vmm.held)
      {
        ghost var m1, r1 := vmm.mem[..], vmm.role;
        Release(start + i * FRAME_SIZE);
        NextPage(m0, r0, m1, r1, vmm.mem[..], vmm.role, vmm.k.pml4, Nth(start, i), Nothing);
        forall v: Page { SpansSnoc(start, i, v); }
        i := i + 1;
      }
    }

    /** serve_munmap.  As many pages as the length asks for read as nothing, whoever's they were; no error is
        reported.  They are the pages of that length from the address's own boundary on. */
    method Munmap(addr: nat, len: nat) returns (rc: int)
      requires Valid()
      modifies vmm`role, vmm.mem, vmm.pmm, vmm.pmm.bitmap
      ensures Valid() && rc == 0
      ensures forall v: Page ::
                Sees(v) == if 0 < addr < CANON_LIMIT && Spans(addr, PagesOf(len), v) then Nothing else old(Sees(v))
      ensures 0 < addr < CANON_LIMIT && len > 0 ==>
                forall v: Page ::
                  Sees(v) == if Meets(RoundDown(addr), RoundDown(addr) + len, v) then Nothing else old(Sees(v))
      ensures OtherMaps(old(vmm.mem[..]), old(vmm.role), vmm.mem[..], vmm.role, vmm.k.pml4)
    {
      hide Tree, KernelEntries, Balanced, CountFree, Owned, PageAt, OnePage, PageOf, Spans, RootsKept, OtherMaps,
           Laid, Content,
           RoundUp, RoundDown, Blocked, UserOpen;
      Start(vmm.mem[..], vmm.role, vmm.k);
      if addr == 0 || addr >= CANON_LIMIT { return 0; }
      ReleaseAll(addr, PagesOf(len));
      if len > 0 {
        forall v: Page { PagesTouched(addr, len, v); }
      }
      return 0;
    }

    /** serve_mprotect.  Made accessible, every absent page of the range is backed by zeros, in order, until one cannot
        be; pages already present stay as they are.  Anything else is a success that does nothing. */
    method Mprotect(addr: nat, len: nat, accessible: bool) returns (rc: int, ghost done: nat)
      requires Valid()
      modifies vmm`role, vmm`held, vmm.mem, vmm.pmm, vmm.pmm.bitmap
      ensures Valid() && (rc == 0 || rc == ENOMEM)
      ensures forall v: Page ::
                Sees(v) == if Spans(RoundDown(addr), done, v) then Backed(old(Sees(v))) else old(Sees(v))
      ensures !(accessible && 0 < addr < CANON_LIMIT) ==> rc == 0 && done == 0
      ensures accessible && 0 < addr < CANON_LIMIT ==>
                var n := (RoundUp(addr + len) - RoundDown(addr)) / FRAME_SIZE;
                && (rc == 0 ==> done == n)
                && (rc == ENOMEM ==> done < n && Short(RoundDown(addr) + done * FRAME_SIZE))
      ensures accessible && 0 < addr < CANON_LIMIT && len > 0 && rc == 0 ==>
                && (forall v: Page :: Sees(v) == if Meets(addr, addr + len, v) then Backed(old(Sees(v)))
                                                 else old(Sees(v)))
                && (forall a: nat :: addr <= a < addr + len ==>
                      Sees(PageOf(a)) == if old(Sees(PageOf(a))).Nothing? then Bytes(ZeroTable())
                                         else old(Sees(PageOf(a))))
      ensures OtherMaps(old(vmm.mem[..]), old(vmm.role), vmm.mem[..], vmm.role, vmm.k.pml4)
      ensures vmm.held == old(vmm.held)
    {
      hide Tree, KernelEntries, Balanced, CountFree, Owned, PageAt, OnePage, PageOf, Spans, RootsKept, OtherMaps,
           Laid, Content,
           Blocked, UserOpen;
      ghost var m0, r0 := vmm.mem[..], vmm.role;
      Start(m0, r0, vmm.k);
      done := 0;
      if addr == 0 || addr >= CANON_LIMIT { return 0, 0; }
      if !accessible { return 0, 0; }
      var base, end := RoundDown(addr), RoundUp(addr + len);
      var page := base;
      while page < end
        invariant Valid() && page == base + done * FRAME_SIZE && done <= (end - base) / FRAME_SIZE
        invariant forall v: Page :: Sees(v) == if Spans(base, done, v) then Backed(PageAt(m0, vmm.k.pml4, v))
                                               else PageAt(m0, vmm.k.pml4, v)
        invariant OtherMaps(m0, r0, vmm.mem[..], vmm.role, vmm.k.pml4) && vmm.held == old(vmm.held)
        decreases end - page
      {
        ghost var m1, r1 := vmm.mem[..], vmm.role;
        var pte := vmm.VmmQueryIn(vmm.k.pml4, page);
        SeenFrom(m1, r1, vmm.k, PageOf(page));
        forall v: Page { SpansSnoc(base, done, v); }
        if !pte.present {
          var ok := Commit(page, ZeroTable());
          NextPage(m0, r0, m1, r1, vmm.mem[..], vmm.role, vmm.k.pml4, PageOf(page),
              if ok then Bytes(ZeroTable()) else Nothing);
          if !ok { return ENOMEM, done; }
        }
        page, done := page + FRAME_SIZE, done + 1;
      }
      if len > 0 {
        forall v: Page { SpansTouches(addr, len, v); }
      }
      return 0, done;
    }

    /** New bytes in the frame a page already has. */
    method Refill(virt: nat, f: nat, content: Table)
      requires Valid() && Mine(Query(vmm.mem[..], vmm.k.pml4, PageOf(virt)))
      requires f == Query(vmm.mem[..], vmm.k.pml4, PageOf(virt)).frame
      modifies vmm.mem
      ensures Valid()
      ensures OnePage(old(vmm.mem[..]), vmm.role, vmm.mem[..], vmm.k.pml4, PageOf(virt), Bytes(content))
    {
      hide Tree, KernelEntries, Balanced, CountFree, Owned, Query, OnePage, PageAt, UserOpen;
      Filled(vmm.mem[..], vmm.role, vmm.k, vmm.k.pml4, PageOf(virt), content);
      FillSane(vmm.mem[..], vmm.role, vmm.k, f, content);
      FilledOpen(vmm.mem[..], vmm.role, vmm.k, f, content, vmm.role);
      ghost var m1 := vmm.mem[..][f := content];
      vmm.mem[f] := content;
      assert vmm.mem[..] == m1;
    }

    /** Bytes written into the frame a supervisor page shows: nothing of the program's changes. */
    method WriteForeign(virt: nat, f: nat, content: Table)
      requires Valid() && !Mine(Query(vmm.mem[..], vmm.k.pml4, PageOf(virt)))
      requires f >= FRAMES || Theirs(vmm.reserved, vmm.held, vmm.k, f)
      modifies vmm.mem
      ensures Valid()
      ensures OnePage(old(vmm.mem[..]), vmm.role, vmm.mem[..], vmm.k.pml4, PageOf(virt), old(Sees(PageOf(virt))))
    {
      hide Tree, KernelEntries, Balanced, CountFree, Owned, Query, OnePage, PageAt, Theirs, UserOpen;
      ghost var m0 := vmm.mem[..];
      Same(m0, vmm.role, vmm.k, PageOf(virt));
      if f < FRAMES {
        NotTheirs(vmm.pmm.Used(), vmm.role, vmm.reserved, vmm.held, vmm.k, f);
        ForeignFilled(m0, vmm.role, vmm.k, vmm.k.pml4, PageOf(virt), f, content);
        FilledOpen(m0, vmm.role, vmm.k, f, content, vmm.role);
        vmm.mem[f] := content;
        assert vmm.mem[..] == m0[f := content];
      }
    }

    /** Fills the pages from an address on, in order, until one cannot be given a frame. */
    method LayAll(base: nat, pages: nat, file: seq<Table>) returns (ok: bool, ghost done: nat)
      requires Valid()
      requires forall v: Page :: Spans(base, pages, v) ==> Foreign(v)
      modifies vmm`role, vmm`held, vmm.mem, vmm.pmm, vmm.pmm.bitmap
      ensures Valid()
      ensures forall v: Page :: Sees(v) == Laid(base, done, file, v, old(Sees(v)))
      ensures if ok then done == pages else done < pages && Short(base + done * FRAME_SIZE)
      ensures OtherMaps(old(vmm.mem[..]), old(vmm.role), vmm.mem[..], vmm.role, vmm.k.pml4)
      ensures vmm.held == old(vmm.held)
    {
      hide Tree, KernelEntries, Balanced, CountFree, Owned, PageAt, OnePage, PageOf, Spans, RootsKept, OtherMaps,
           Laid, Content, Query,
           RoundUp, RoundDown, Blocked, UserOpen;
      ghost var m0, r0 := vmm.mem[..], vmm.role;
      Start(m0, r0, vmm.k);
      var i := 0;
      forall v: Page { LaidNone(base, file, v, PageAt(m0, vmm.k.pml4, v)); }
      while i < pages
        invariant 0 <= i <= pages && Valid()
        invariant forall v: Page :: Sees(v) == Laid(base, i, file, v, PageAt(m0, vmm.k.pml4, v))
        invariant OtherMaps(m0, r0, vmm.mem[..], vmm.role, vmm.k.pml4) && vmm.held == old(vmm.held)
      {
        ghost var m1, r1 := vmm.mem[..], vmm.role;
        var page := base + i * FRAME_SIZE;
        var content := Content(file, i);
        var pte := vmm.VmmQueryIn(vmm.k.pml4, page);
        SeenFrom(m1, r1, vmm.k, Nth(base, i));
        NthSpans(base, i, pages);
        LaidKind(base, i, file, Nth(base, i), PageAt(m0, vmm.k.pml4, Nth(base, i)));
        ghost var was := Sees(Nth(base, i));
        assert ForeignPage(PageAt(m0, vmm.k.pml4, Nth(base, i)), vmm.reserved, vmm.held, vmm.k);
        ok := true;
        if pte.present {
          if pte.user {
            Refill(page, pte.frame, content);
          } else {
            WriteForeign(page, pte.frame, content);
          }
          KeptRoots(r1);
        } else {
          ok := Commit(page, content);
        }
        ghost var now := if ok && !was.Body? then Bytes(content) else was;
        NextPage(m0, r0, m1, r1, vmm.mem[..], vmm.role, vmm.k.pml4, Nth(base, i), now);
        if !ok { return false, i; }
        forall v: Page { LaidSnoc(base, i, file, v, PageAt(m0, vmm.k.pml4, v)); }
        i := i + 1;
      }
      return true, i;
    }

    /** Where a mapping goes: where it is told to, or past everything mapped before. */
    function Base(addr: nat, fixed: bool): nat
      reads this
    {
      if fixed then RoundDown(addr) else if mmapNext == 0 then SERVE_MMAP_BASE else mmapNext
    }

    /** serve_mmap; `file` is what a sealed file holds from the offset on, page by page.  An inaccessible anonymous map
        only takes addresses.  Any other is filled page by page, a page already there in the frame it has, until a
        page cannot be given one. */
    method Mmap(addr: nat, len: nat, accessible: bool, anon: bool, mapFixed: bool, file: seq<Table>)
      returns (rc: int, ghost done: nat)
      requires Valid() && (anon ==> file == [])
      requires forall v: Page :: Spans(Base(addr, mapFixed && addr != 0), PagesOf(len), v) ==> Foreign(v)
      modifies `mmapNext, vmm`role, vmm`held, vmm.mem, vmm.pmm, vmm.pmm.bitmap
      ensures Valid()
      ensures var fixed := mapFixed && addr != 0; var base := old(Base(addr, fixed));
              && (forall v: Page :: Sees(v) == Laid(base, done, file, v, old(Sees(v))))
              && (rc == base || rc == ENOMEM)
              && (rc == base ==> done == if anon && !fixed && !accessible then 0 else PagesOf(len))
              && (rc == ENOMEM ==> done < PagesOf(len) && Short(base + done * FRAME_SIZE))
              && mmapNext == (if rc == base && !fixed then base + PagesOf(len) * FRAME_SIZE + FRAME_SIZE
                              else if old(mmapNext) == 0 then SERVE_MMAP_BASE else old(mmapNext))
      ensures rc != ENOMEM && len > 0 && (accessible || !anon || (mapFixed && addr != 0)) ==>
                Shows(old(vmm.mem[..]), vmm.mem[..], vmm.k.pml4, rc, len, file)
      ensures rc != ENOMEM && mapFixed && addr != 0 ==> rc == addr - addr % FRAME_SIZE
      ensures rc != ENOMEM && !(mapFixed && addr != 0) ==>
                && rc == (if old(mmapNext) == 0 then 0x7000_0000_0000 else old(mmapNext))
                && rc % FRAME_SIZE == 0 && rc + len + FRAME_SIZE <= mmapNext
      ensures OtherMaps(old(vmm.mem[..]), old(vmm.role), vmm.mem[..], vmm.role, vmm.k.pml4)
      ensures vmm.held == old(vmm.held)
    {
      hide Tree, KernelEntries, Balanced, CountFree, Owned, PageAt, OnePage, PageOf, Spans, RootsKept, OtherMaps,
           Laid, Content, Shows, PagesOf,
           RoundUp, RoundDown, Blocked, UserOpen;
      ghost var m0, r0 := vmm.mem[..], vmm.role;
      Start(m0, r0, vmm.k);
      done := 0;
      if mmapNext == 0 { mmapNext := SERVE_MMAP_BASE; }
      var pages := PagesOf(len);
      var fixed := mapFixed && addr != 0;
      if anon && !fixed && !accessible {
        var rbase := mmapNext;
        PastIsBoundary(rbase, len);
        mmapNext := rbase + pages * FRAME_SIZE + FRAME_SIZE;
        forall v: Page { LaidNone(rbase, file, v, PageAt(m0, vmm.k.pml4, v)); }
        return rbase, 0;
      }
      var base := if fixed then RoundDown(addr) else mmapNext;
      RoundDownIs(addr);
      PastIsBoundary(base, len);
      var ok;
      ok, done := LayAll(base, pages, file);
      if !ok { return ENOMEM, done; }
      ghost var m1 := vmm.mem[..];
      forall v: Page ensures PageAt(m1, vmm.k.pml4, v) == Laid(base, pages, file, v, PageAt(m0, vmm.k.pml4, v)) {
        assert Sees(v) == PageAt(m1, vmm.k.pml4, v);
      }
      LaidOut(m0, m1, vmm.k.pml4, base, len, file);
      if !fixed {
        mmapNext := base + pages * FRAME_SIZE + FRAME_SIZE;
      }
      return base, done;
    }

    /** Zeroed pages from an address on, wherever there is no user page yet, in order, until one cannot be given a
        frame. */
    method GrowAll(start: nat, n: nat) returns (ok: bool, ghost done: nat)
      requires Valid()
      modifies vmm`role, vmm`held, vmm.mem, vmm.pmm, vmm.pmm.bitmap
      ensures Valid()
      ensures forall v: Page :: Sees(v) == if Spans(start, done, v) then Grown(old(Sees(v))) else old(Sees(v))
      ensures if ok then done == n else done < n && Short(start + done * FRAME_SIZE)
      ensures OtherMaps(old(vmm.mem[..]), old(vmm.role), vmm.mem[..], vmm.role, vmm.k.pml4)
      ensures vmm.held == old(vmm.held)
    {
      hide Tree, KernelEntries, Balanced, CountFree, Owned, PageAt, OnePage, PageOf, Spans, RootsKept, OtherMaps,
           Laid, Content, Query,
           RoundUp, RoundDown, Blocked, UserOpen;
      ghost var m0, r0 := vmm.mem[..], vmm.role;
      Start(m0, r0, vmm.k);
      var i := 0;
      while i < n
        invariant 0 <= i <= n && Valid()
        invariant forall v: Page :: Sees(v) == if Spans(start, i, v) then Grown(PageAt(m0, vmm.k.pml4, v))
                                               else PageAt(m0, vmm.k.pml4, v)
        invariant OtherMaps(m0, r0, vmm.mem[..], vmm.role, vmm.k.pml4) && vmm.held == old(vmm.held)
      {
        ghost var m1, r1 := vmm.mem[..], vmm.role;
        var pg := start + i * FRAME_SIZE;
        var pte := vmm.VmmQueryIn(vmm.k.pml4, pg);
        SeenFrom(m1, r1, vmm.k, Nth(start, i));
        forall v: Page { SpansSnoc(start, i, v); }
        if !(pte.present && pte.user) {
          ghost var was := Sees(Nth(start, i));
          ok := Commit(pg, ZeroTable());
          NextPage(m0, r0, m1, r1, vmm.mem[..], vmm.role, vmm.k.pml4, Nth(start, i),
              if ok then Bytes(ZeroTable()) else was);
          if !ok { return false, i; }
        }
        i := i + 1;
      }
      return true, i;
    }

    /** serve_brk; the answer is always the break as it now is.  A lower break gives back every page above it.  A
        higher one is taken only once every page up to it is there; a page that cannot be given leaves the break
        where it was and the pages before it in place.  So the program has every address up to the break it is told,
        if it had those up to the old one and the first break's page is its own or begins there. */
    method Brk(addr: nat) returns (rc: nat, ghost done: nat)
      requires Valid()
      modifies `brkCur, vmm`role, vmm`held, vmm.mem, vmm.pmm, vmm.pmm.bitmap
      ensures Valid() && rc == brkCur
      ensures var cur := old(brkCur);
              if cur == 0 || addr == 0 || addr < brkBase then
                brkCur == cur && forall v: Page :: Sees(v) == old(Sees(v))
              else if brkCur == addr then
                forall v: Page :: Sees(v) == if Starts(addr, cur, v) then Nothing
                                             else if Starts(cur, addr, v) then Grown(old(Sees(v))) else old(Sees(v))
              else
                && brkCur == cur < addr
                && (forall v: Page :: Sees(v) == if Spans(RoundUp(cur), done, v) then Grown(old(Sees(v)))
                                                 else old(Sees(v)))
                && done < (RoundUp(addr) - RoundUp(cur)) / FRAME_SIZE && Short(RoundUp(cur) + done * FRAME_SIZE)
      ensures rc == addr && brkBase <= addr ==>
                brkBase % FRAME_SIZE == 0 || brkBase < old(brkCur) || old(Sees(PageOf(brkBase))).Bytes? ==>
                (forall a: nat :: brkBase <= a < old(brkCur) ==> old(Sees(PageOf(a))).Bytes?) ==>
                forall a: nat :: brkBase <= a < addr ==>
                  Sees(PageOf(a)).Bytes? && (a < old(brkCur) ==> Sees(PageOf(a)) == old(Sees(PageOf(a))))
      ensures rc == addr > old(brkCur) == brkBase && addr <= 2 * CANON_LIMIT && brkBase % FRAME_SIZE != 0 ==>
                Sees(PageOf(brkBase)) == old(Sees(PageOf(brkBase)))
      ensures old(brkCur) < rc == addr ==>
                forall a: nat :: old(brkCur) <= a < addr && a % FRAME_SIZE == 0 && !old(Sees(PageOf(a))).Bytes? ==>
                  Sees(PageOf(a)) == Bytes(ZeroTable())
      ensures rc == addr < old(brkCur) <= 2 * CANON_LIMIT ==>
                forall a: nat :: a < addr ==> Sees(PageOf(a)) == old(Sees(PageOf(a)))
      ensures OtherMaps(old(vmm.mem[..]), old(vmm.role), vmm.mem[..], vmm.role, vmm.k.pml4)
      ensures vmm.held == old(vmm.held)
    {
      hide Tree, KernelEntries, Balanced, CountFree, Owned, PageAt, OnePage, PageOf, Spans, RootsKept, OtherMaps,
           Laid, Content, Starts,
           RoundUp, RoundDown, Blocked, UserOpen;
      Start(vmm.mem[..], vmm.role, vmm.k);
      done := 0;
      if brkCur == 0 { return 0, 0; }
      if addr == 0 { return brkCur, 0; }
      if addr < brkBase { return brkCur, 0; }
      var from, to := RoundUp(brkCur), RoundUp(addr);
      ghost var m0, cur := vmm.mem[..], brkCur;
      SpansBetween(cur, addr);
      SpansBetween(addr, cur);
      if to < from {
        ReleaseAll(to, (from - to) / FRAME_SIZE);
      } else {
        var ok;
        ok, done := GrowAll(from, (to - from) / FRAME_SIZE);
        if !ok { return brkCur, done; }
      }
      brkCur := addr;
      forall a: nat | cur <= a < addr && a % FRAME_SIZE == 0 ensures Starts(cur, addr, PageOf(a)) {
        StartsAt(cur, addr, a);
      }
      if addr > cur == brkBase && addr <= 2 * CANON_LIMIT && brkBase % FRAME_SIZE != 0 {
        FirstPageStays(m0, vmm.mem[..], vmm.k, brkBase, addr);
      }
      if addr < cur <= 2 * CANON_LIMIT {
        forall a: nat | a < addr ensures !Starts(addr, cur, PageOf(a)) { Below(addr, cur, a); }
      }
      Covered(m0, vmm.mem[..], vmm.k, brkBase, cur, addr);
      return addr, done;
    }

    /** A grow over absent pages that succeeds is undone by the shrink to the old break: every page is as it was. */
    method GrowAndShrink(addr: nat) returns (grew: bool)
      requires Valid() && brkCur != 0 && brkBase <= brkCur < addr
      requires forall v: Page :: Starts(brkCur, addr, v) ==> Sees(v) == Nothing
      modifies `brkCur, vmm`role, vmm`held, vmm.mem, vmm.pmm, vmm.pmm.bitmap
      ensures Valid() && brkCur == old(brkCur)
      ensures grew ==> forall v: Page :: Sees(v) == old(Sees(v))
      ensures OtherMaps(old(vmm.mem[..]), old(vmm.role), vmm.mem[..], vmm.role, vmm.k.pml4)
      ensures vmm.held == old(vmm.held)
    {
      hide Tree, KernelEntries, Balanced, CountFree, Owned, PageAt, Spans, RootsKept, OtherMaps, Blocked, UserOpen;
      var from := brkCur;
      ghost var m0, r0 := vmm.mem[..], vmm.role;
      ghost var done;
      var rc;
      rc, done := this.Brk(addr);
      if rc != addr { return false; }
      ghost var m1, r1 := vmm.mem[..], vmm.role;
      rc, done := this.Brk(from);
      OtherMapsTwice(m0, r0, m1, r1, vmm.mem[..], vmm.role, vmm.k.pml4);
      return true;
    }

    /** serve_set_brk_base, called by the loader. */
    method SetBrkBase(base: nat)
      requires Valid()
      modifies `brkBase, `brkCur
      ensures Valid() && brkBase == brkCur == base
    {
      hide Tree, KernelEntries, Balanced, CountFree, Owned, UserOpen;
      brkBase, brkCur := base, base;
    }

    /** No supervisor page of the program's map shows a table or a page of its own. */
    ghost predicate AllForeign()
      requires vmm.Shaped() && vmm.k.pml4 < FRAMES
      reads vmm`held, vmm.mem
    {
      forall v: Page :: ForeignPage(Sees(v), vmm.reserved, vmm.held, vmm.k)
    }

    /** Any run of the four calls, whatever they ask and wherever memory runs out, keeps the invariant, and no other map
        sees a difference. */
    method Run(acts: seq<Act>)
      requires Valid() && AllForeign()
      modifies this, vmm`role, vmm`held, vmm.mem, vmm.pmm, vmm.pmm.bitmap
      ensures Valid() && AllForeign()
      ensures OtherMaps(old(vmm.mem[..]), old(vmm.role), vmm.mem[..], vmm.role, vmm.k.pml4)
      ensures vmm.held == old(vmm.held)
    {
      hide Tree, KernelEntries, Balanced, CountFree, Owned, PageAt, PageOf, Spans, RootsKept, OtherMaps, Content,
           RoundUp, RoundDown, Blocked, Laid, UserOpen;
      ghost var m0, r0 := vmm.mem[..], vmm.role;
      Start(m0, r0, vmm.k);
      var i := 0;
      while i < |acts|
        invariant 0 <= i <= |acts| && Valid() && AllForeign()
        invariant OtherMaps(m0, r0, vmm.mem[..], vmm.role, vmm.k.pml4) && vmm.held == old(vmm.held)
      {
        ghost var m1, r1 := vmm.mem[..], vmm.role;
        var rc; ghost var done;
        match acts[i] {
          case Brk(addr) => rc, done := this.Brk(addr);
          case Mmap(addr, len, accessible, anon, fixed, file) =>
            ghost var base := Base(addr, fixed && addr != 0);
            rc, done := this.Mmap(addr, len, accessible, anon, fixed, if anon then [] else file);
            forall v: Page { LaidKind(base, done, if anon then [] else file, v, PageAt(m1, vmm.k.pml4, v)); }
          case Munmap(addr, len) => rc := this.Munmap(addr, len);
          case Mprotect(addr, len, accessible) => rc, done := this.Mprotect(addr, len, accessible);
        }
        OtherMapsTwice(m0, r0, m1, r1, vmm.mem[..], vmm.role, vmm.k.pml4);
        i := i + 1;
      }
    }
  }

  /** In use, but for neither a table nor a page of the program's. */
  ghost predicate Theirs(reserved: set<nat>, held: set<nat>, k: Statics, f: nat) {
    f in held || (f in reserved && f !in StaticFrames(k))
  }

  /** A supervisor page shows a frame that is neither a table nor a page: one in use since boot, one held by someone
      else, or none of the allocator's. */
  ghost predicate ForeignPage(s: Seen, reserved: set<nat>, held: set<nat>, k: Statics) {
    s.Body? ==> s.frame >= FRAMES || Theirs(reserved, held, k, s.frame)
  }

  lemma NotTheirs(used: seq<bool>, role: Roles, reserved: set<nat>, held: set<nat>, k: Statics, f: nat)
    requires |used| == FRAMES && Balanced(used, role, reserved, held, k) && Theirs(reserved, held, k, f)
    ensures f !in role
  {
  }

  lemma BalanceHold(used: seq<bool>, role: Roles, reserved: set<nat>, held: set<nat>, k: Statics, f: nat)
    requires |used| == FRAMES && Balanced(used, role, reserved, held, k) && f < FRAMES && !used[f]
    ensures f !in held && Balanced(used[f := true], role, reserved, held + {f}, k)
  {
  }

  lemma BalanceDrop(used: seq<bool>, role: Roles, reserved: set<nat>, held: set<nat>, k: Statics, f: nat)
    requires |used| == FRAMES && Balanced(used, role, reserved, held, k) && f in held
    ensures f < FRAMES && used[f] && Balanced(used[f := false], role, reserved, held - {f}, k)
  {
  }

  lemma BalanceGive(used: seq<bool>, role: Roles, reserved: set<nat>, held: set<nat>, k: Statics, f: nat, r: Role)
    requires |used| == FRAMES && Balanced(used, role, reserved, held, k) && f in held
    ensures f !in role && Balanced(used, role[f := r], reserved, held - {f}, k)
  {
  }

  /** A page's frame is never one of the reserved or held ones, so giving it back frees nothing else. */
  lemma BalanceFree(used: seq<bool>, mem: Memory, role: Roles, reserved: set<nat>, held: set<nat>, k: Statics, f: nat)
    requires |used| == FRAMES && Balanced(used, role, reserved, held, k) && Tree(mem, role, k)
    requires f in role && role[f].Leaf?
    ensures f < FRAMES && Balanced(used[f := false], role - {f}, reserved, held, k)
  {
    hide LinkOk, SubOk;
    assert f !in StaticFrames(k);
  }

  lemma Same(mem: Memory, role: Roles, k: Statics, v: Page)
    requires Tree(mem, role, k)
    ensures k.pml4 < |mem| && OnePage(mem, role, mem, k.pml4, v, PageAt(mem, k.pml4, v))
  {
  }

  lemma Start(mem: Memory, role: Roles, k: Statics)
    requires |mem| == FRAMES
    ensures OtherMaps(mem, role, mem, role, k.pml4)
    ensures forall v: Page, a: nat :: !Spans(a, 0, v)
  {
  }

  /** What a program sees in a page, told from the entry the walk finds. */
  lemma SeenFrom(mem: Memory, role: Roles, k: Statics, v: Page)
    requires Sane(mem, role, k)
    ensures k.pml4 < |mem| && IsTable(role, k.pml4, 4)
    ensures var e := Query(mem, k.pml4, v); var s := PageAt(mem, k.pml4, v);
            && (s.Nothing? <==> !e.present) && (s.Bytes? <==> Mine(e)) && (s.Body? ==> s.frame == e.frame)
  {
    assert IsTable(role, k.pml4, 4);
    if Mine(Query(mem, k.pml4, v)) {
      OwnsFrame(mem, role, k, k.pml4, v);
    }
  }

  lemma LaidNone(start: nat, file: seq<Table>, v: Page, was: Seen)
    ensures Laid(start, 0, file, v, was) == was
  {
  }

  lemma LaidSnoc(start: nat, n: nat, file: seq<Table>, v: Page, was: Seen)
    ensures Laid(start, n + 1, file, v, was)
            == if !was.Body? && v == Nth(start, n) then Bytes(Content(file, n)) else Laid(start, n, file, v, was)
  {
  }

  lemma {:induction false} LaidKind(start: nat, n: nat, file: seq<Table>, v: Page, was: Seen)
    ensures Laid(start, n, file, v, was).Body? <==> was.Body?
    ensures was.Body? ==> Laid(start, n, file, v, was) == was
  {
    if n > 0 { LaidKind(start, n - 1, file, v, was); }
  }

  /** A mapping filled to its end shows each of its pages the page's own content, exactly where no supervisor page was
      in the way. */
  lemma {:induction false} LaidAt(start: nat, n: nat, file: seq<Table>, i: nat, was: Seen)
    requires i < n <= 0x10_0000_0000
    ensures Laid(start, n, file, Nth(start, i), was).Bytes? <==> !was.Body?
    ensures !was.Body? ==> Laid(start, n, file, Nth(start, i), was) == Bytes(Content(file, i))
  {
    LaidKind(start, n, file, Nth(start, i), was);
    if i < n - 1 {
      NthApart(start, i, n - 1);
      LaidAt(start, n - 1, file, i, was);
    }
  }

  /** And every other page what it showed before. */
  lemma {:induction false} LaidElsewhere(start: nat, n: nat, file: seq<Table>, v: Page, was: Seen)
    requires !Spans(start, n, v)
    ensures Laid(start, n, file, v, was) == was
  {
    if n > 0 {
      SpansSnoc(start, n - 1, v);
      LaidElsewhere(start, n - 1, file, v, was);
    }
  }

  // ---- by addresses -----------------------------------------------------------------------------------------

  /** Every address of a mapping shows its own page of the file, or zeros past the file's end, wherever no supervisor
      page was in the way; and a page without an address in it shows what it did. */
  ghost predicate Shows(m0: Memory, m1: Memory, root: nat, base: int, len: nat, file: seq<Table>)
    requires root < |m0| && root < |m1|
  {
    && (forall a: nat :: 0 <= base <= a < base + len && len <= CANON_LIMIT && !PageAt(m0, root, PageOf(a)).Body? ==>
          var i := (a - base) / FRAME_SIZE;
          PageAt(m1, root, PageOf(a)) == Bytes(if i < |file| then file[i] else ZeroTable()))
    && (0 <= base ==>
          forall v: Page :: !Meets(base, base + len, v) ==> PageAt(m1, root, v) == PageAt(m0, root, v))
  }

  /** Filled to its end, a mapping shows at every address the content of the address's own page. */
  lemma LaidOut(m0: Memory, m1: Memory, root: nat, base: nat, len: nat, file: seq<Table>)
    requires root < |m0| && root < |m1| && base % FRAME_SIZE == 0
    requires forall v: Page :: PageAt(m1, root, v) == Laid(base, PagesOf(len), file, v, PageAt(m0, root, v))
    ensures len > 0 ==> Shows(m0, m1, root, base, len, file)
  {
    hide PageAt, PageOf, Spans, Laid, Meets;
    if len > 0 {
      forall a: nat | base <= a < base + len && len <= CANON_LIMIT && !PageAt(m0, root, PageOf(a)).Body?
        ensures var i := (a - base) / FRAME_SIZE;
                PageAt(m1, root, PageOf(a)) == Bytes(if i < |file| then file[i] else ZeroTable()) {
        var i: nat := (a - base) / FRAME_SIZE;
        SamePage(a, base + i * FRAME_SIZE);
        LaidAt(base, PagesOf(len), file, i, PageAt(m0, root, PageOf(a)));
      }
      forall v: Page | !Meets(base, base + len, v) ensures PageAt(m1, root, v) == PageAt(m0, root, v) {
        PagesTouched(base, len, v);
        LaidElsewhere(base, PagesOf(len), file, v, PageAt(m0, root, v));
      }
    }
  }

  /** An address whose page shows bytes is one ring 3 reads and writes, and leads to its place among those bytes. */
  lemma BytesLead(mem: Memory, role: Roles, k: Statics, virt: nat)
    requires Sane(mem, role, k) && UserOpen(mem, role, k) && Ix(PageOf(virt), 4) != DIRECT_SLOT
    requires k.pml4 < |mem| && PageAt(mem, k.pml4, PageOf(virt)).Bytes?
    ensures UserWrites(mem, k.pml4, 4, PageOf(virt))
    ensures exists f: nat ::
              f < |mem| && Translate(mem, k.pml4, virt) == Some(4096 * f + virt % 4096)
              && PageAt(mem, k.pml4, PageOf(virt)) == Bytes(mem[f])
  {
    hide Tree, Owned, UserOpen, UserWrites, Query, PageOf, Ix;
    SeenFrom(mem, role, k, PageOf(virt));
    UserPagesWritten(mem, role, k, k.pml4, PageOf(virt));
    QueryIs(mem, k.pml4, PageOf(virt));
    LeafFrom(mem, k.pml4, 4, virt);
    var f := Query(mem, k.pml4, PageOf(virt)).frame;
    assert Translate(mem, k.pml4, virt) == Some(4096 * f + virt % 4096);
  }

  /** The direct map's first page is never the program's. */
  lemma DirectIsBodys(mem: Memory, k: Statics)
    requires KernelEntries(mem, k)
    ensures !PageAt(mem, k.pml4, PageOf(CANON_LIMIT)).Bytes?
  {
    var v := PageOf(CANON_LIMIT);
    assert Ix(v, 4) == DIRECT_SLOT && Ix(v, 3) == 0 && Ix(v, 2) == 0;
    assert mem[k.pdDirect][0] == HugePte(0);
  }

  /** So a range that is the program's throughout is too short for two of its addresses to share a page by wrapping. */
  lemma Unwrapped(mem: Memory, k: Statics, lo: nat, hi: nat, a: nat, b: nat)
    requires KernelEntries(mem, k) && k.pml4 < |mem| && lo <= a <= b < hi && PageOf(a) == PageOf(b)
    requires forall c: nat :: lo <= c < hi ==> PageAt(mem, k.pml4, PageOf(c)).Bytes?
    ensures a / FRAME_SIZE == b / FRAME_SIZE
  {
    hide PageAt, KernelEntries, UserOpen;
    DirectIsBodys(mem, k);
    if a / FRAME_SIZE != b / FRAME_SIZE {
      var c := Halfway(a, b);
    }
  }

  /** Between two addresses that share a page by wrapping lies one of the direct map's first page. */
  lemma Halfway(a: nat, b: nat) returns (c: nat)
    requires a <= b && PageOf(a) == PageOf(b) && a / FRAME_SIZE != b / FRAME_SIZE
    ensures a <= c <= b && PageOf(c) == PageOf(CANON_LIMIT)
  {
    var p, q := a / FRAME_SIZE, b / FRAME_SIZE;
    var whole, part := p / 0x10_0000_0000, p % 0x10_0000_0000;
    assert q == q / 0x10_0000_0000 * 0x10_0000_0000 + part && q / 0x10_0000_0000 > whole;
    var m := if part < 0x8_0000_0000 then whole else whole + 1;
    var d := m * 0x10_0000_0000 + 0x8_0000_0000;
    assert p < d <= q && d % 0x10_0000_0000 == 0x8_0000_0000;
    c := d * FRAME_SIZE;
  }

  /** A break moved over a range that is the program's throughout leaves the program all of the range up to it. */
  lemma Covered(m0: Memory, m1: Memory, k: Statics, base: nat, cur: nat, addr: nat)
    requires KernelEntries(m0, k) && |m1| == |m0| && k.pml4 < |m0| && base <= addr
    requires forall v: Page ::
               PageAt(m1, k.pml4, v) == if Starts(addr, cur, v) then Nothing
                                        else if Starts(cur, addr, v) then Grown(PageAt(m0, k.pml4, v))
                                        else PageAt(m0, k.pml4, v)
    ensures base % FRAME_SIZE == 0 || base < cur || PageAt(m0, k.pml4, PageOf(base)).Bytes? ==>
              (forall a: nat :: base <= a < cur ==> PageAt(m0, k.pml4, PageOf(a)).Bytes?) ==>
              forall a: nat :: base <= a < addr ==>
                && PageAt(m1, k.pml4, PageOf(a)).Bytes?
                && (a < cur ==> PageAt(m1, k.pml4, PageOf(a)) == PageAt(m0, k.pml4, PageOf(a)))
  {
    hide PageAt, KernelEntries, Starts, PageOf, UserOpen;
    if base % FRAME_SIZE == 0 || base < cur || PageAt(m0, k.pml4, PageOf(base)).Bytes? {
      if forall a: nat :: base <= a < cur ==> PageAt(m0, k.pml4, PageOf(a)).Bytes? {
        forall a: nat | base <= a < addr
          ensures PageAt(m1, k.pml4, PageOf(a)).Bytes?
          ensures a < cur ==> PageAt(m1, k.pml4, PageOf(a)) == PageAt(m0, k.pml4, PageOf(a)) {
          CoveredAt(m0, m1, k, base, cur, addr, a);
        }
      }
    }
  }

  /** Without that the break's first page stays what it was: a first break inside a page that is not there maps
      nothing below the next boundary. */
  lemma FirstPageStays(m0: Memory, m1: Memory, k: Statics, base: nat, addr: nat)
    requires |m1| == |m0| && k.pml4 < |m0| && base < addr <= 2 * CANON_LIMIT && base % FRAME_SIZE != 0
    requires var v := PageOf(base);
             PageAt(m1, k.pml4, v) == if Starts(base, addr, v) then Grown(PageAt(m0, k.pml4, v))
                                      else PageAt(m0, k.pml4, v)
    ensures PageAt(m1, k.pml4, PageOf(base)) == PageAt(m0, k.pml4, PageOf(base))
  {
    hide PageAt, PageOf;
    if Starts(base, addr, PageOf(base)) {
      var b: nat :| base <= b < addr && b % FRAME_SIZE == 0 && PageOf(b) == PageOf(base);
      Near(base, b);
    }
  }

  lemma CoveredAt(m0: Memory, m1: Memory, k: Statics, base: nat, cur: nat, addr: nat, a: nat)
    requires KernelEntries(m0, k) && |m1| == |m0| && k.pml4 < |m0| && base <= a < addr
    requires var v := PageOf(a);
             PageAt(m1, k.pml4, v) == if Starts(addr, cur, v) then Nothing
                                      else if Starts(cur, addr, v) then Grown(PageAt(m0, k.pml4, v))
                                      else PageAt(m0, k.pml4, v)
    requires base % FRAME_SIZE == 0 || base < cur || PageAt(m0, k.pml4, PageOf(base)).Bytes?
    requires forall c: nat :: base <= c < cur ==> PageAt(m0, k.pml4, PageOf(c)).Bytes?
    ensures PageAt(m1, k.pml4, PageOf(a)).Bytes?
    ensures a < cur ==> PageAt(m1, k.pml4, PageOf(a)) == PageAt(m0, k.pml4, PageOf(a))
  {
    hide PageAt, KernelEntries, PageOf, UserOpen;
    if Starts(addr, cur, PageOf(a)) {
      var b: nat :| addr <= b < cur && b % FRAME_SIZE == 0 && PageOf(b) == PageOf(a);
      Unwrapped(m0, k, base, cur, a, b);
    }
    var b := RoundDown(a);
    SamePage(a, b);
    if cur <= b {
      assert Starts(cur, addr, PageOf(a));
    } else {
      var c := if b < base then base else b;
      SamePage(a, c);
    }
  }

  // ---- the accounts -----------------------------------------------------------------------------------------

  /** Under the invariant a frame is in use exactly when it was reserved at boot, is held by someone else, is a table,
      or is behind a user page of some map; */
  lemma UsedExactly(used: seq<bool>, mem: Memory, role: Roles, reserved: set<nat>, held: set<nat>, k: Statics, f: nat)
    requires |used| == FRAMES && Balanced(used, role, reserved, held, k) && Sane(mem, role, k) && f < FRAMES
    ensures used[f] <==>
              (f in reserved || f in held || (f in role && !role[f].Leaf?)
               || exists r: nat, v: Page :: Backs(mem, role, f, r, v))
  {
    hide Tree, Query;
    if f in role && role[f].Leaf? {
      OwnedIsMapped(mem, role, k, f);
    }
    if r: nat, v: Page :| Backs(mem, role, f, r, v) {
      OwnsFrame(mem, role, k, r, v);
    }
  }

  /** it is only one of these, the body's own tables apart; and behind one page only. */
  lemma UsedOnce(used: seq<bool>, mem: Memory, role: Roles, reserved: set<nat>, held: set<nat>, k: Statics, f: nat,
                 r: nat, v: Page)
    requires |used| == FRAMES && Balanced(used, role, reserved, held, k) && Sane(mem, role, k)
    requires Backs(mem, role, f, r, v)
    ensures f !in reserved && f !in held && f in role && role[f].Leaf?
    ensures forall r': nat, v': Page :: Backs(mem, role, f, r', v') ==> SameLeaf(r, v, r', v')
  {
    hide Query, SubOk, LinkOk;
    OwnsFrame(mem, role, k, r, v);
    assert f !in StaticFrames(k);
    forall r': nat, v': Page | Backs(mem, role, f, r', v') ensures SameLeaf(r, v, r', v') {
      OneFrameOnePage(mem, role, k, r, v, r', v');
    }
  }

  lemma KeptRoots(role: Roles)
    ensures RootsKept(role, role)
  {
  }

  lemma OtherMapsTwice(m0: Memory, r0: Roles, m1: Memory, r1: Roles, m2: Memory, r2: Roles, root: nat)
    requires OtherMaps(m0, r0, m1, r1, root) && OtherMaps(m1, r1, m2, r2, root)
    ensures OtherMaps(m0, r0, m2, r2, root)
  {
    hide PageAt;
  }

  lemma StillSeen(m0: Memory, r0: Roles, m1: Memory, r1: Roles, k: Statics, v: Page)
    requires Kept(m0, r0, m1, r1, k) && Owned(m0, r0)
    ensures k.pml4 < |m0| && OnePage(m0, r0, m1, k.pml4, v, PageAt(m0, k.pml4, v)) && Owned(m1, r1) && RootsKept(r0, r1)
  {
    hide Query, LinkOk, SubOk, KernelEntries, UserOpen;
    forall r: nat, w: Page | IsTable(r0, r, 4) && r < FRAMES ensures PageAt(m1, r, w) == PageAt(m0, r, w) {
      if Mine(Query(m0, r, w)) {
        OwnsFrame(m0, r0, k, r, w);
      }
    }
    assert IsTable(r0, k.pml4, 4);
  }

  lemma Ready(m0: Memory, r0: Roles, mid: Memory, role: Roles, k: Statics, v: Page, f: nat)
    requires Kept(m0, r0, mid, role, k) && Owned(m0, r0) && k.pml4 < |m0| && !PageAt(m0, k.pml4, v).Bytes?
    requires k.pml4 < |mid| && Descend(mid, k.pml4, 4, v).At? && f !in role && f < FRAMES
    ensures |m0| == FRAMES && IsTable(r0, k.pml4, 4) && !Mine(Query(m0, k.pml4, v))
    ensures CanGive(mid, role, k, k.pml4, v, f)
  {
    hide LinkOk, SubOk, KernelEntries, Query, UserOpen;
    assert IsTable(r0, k.pml4, 4);
    if Mine(Query(m0, k.pml4, v)) {
      OwnsFrame(m0, r0, k, k.pml4, v);
    }
  }
}
