/**
 * Where an address leads: the processor's translation, bit fields and huge pages included, told from addresses alone,
 * and what the body's maps make of it.
 */
module Translation {
  import opened Wrappers
  import opened PageTree
  import opened KernelHalf
  import opened Paging

  /** The program's range starts here; below it the identity is kept. */
  const CANONICAL_BASE: nat := 0x40_0000
  /** The direct map's first address, and how much physical memory it shows. */
  const DIRECT_MAP_BASE: nat := 0xFFFF_8000_0000_0000
  const DIRECT_MAP_MAX: nat := 0x4000_0000

  /** Bytes under one entry of a table at this level. */
  function Span(level: nat): (s: nat)
    ensures s > 0
  {
    match level
    case 4 => 0x80_0000_0000
    case 3 => 0x4000_0000
    case 2 => 0x20_0000
    case _ => 0x1000
  }

  /** The physical address a walk from table t finds for a 64-bit address, if it is mapped: the leaf's frame, or a huge
      page's, and the offset below it.  The root has no huge pages. */
  function TranslateFrom(mem: Memory, t: nat, level: nat, virt: nat): Option<nat>
    requires t < |mem| && 1 <= level <= 4
    decreases level
  {
    var e := mem[t][virt / Span(level) % 512];
    if !e.present then None
    else if level == 1 || (e.ps && level < 4) then Some(e.frame * 4096 + virt % Span(level))
    else if e.ps || e.frame >= |mem| then None
    else TranslateFrom(mem, e.frame, level - 1, virt)
  }

  function Translate(mem: Memory, root: nat, virt: nat): Option<nat>
    requires root < |mem|
  {
    TranslateFrom(mem, root, 4, virt)
  }

  // ---- pages and addresses ------------------------------------------------------------------------------

  /** The four indices are the four nine-bit fields of the address. */
  lemma IxFields(virt: nat, level: nat)
    requires 1 <= level <= 4
    ensures Ix(PageOf(virt), level) == virt / Span(level) % 512
  {
    var p := virt / 4096;
    DropHigh(p, 1, 0x10_0000_0000);
    DropHigh(p, 512, 0x800_0000);
    DropHigh(p, 0x4_0000, 0x4_0000);
    DropHigh(p, 0x800_0000, 512);
    FieldsByPage(virt);
  }

  lemma FieldsByPage(virt: nat)
    ensures virt / 4096 / 512 == virt / 0x20_0000
    ensures virt / 4096 / 0x4_0000 == virt / 0x4000_0000
    ensures virt / 4096 / 0x800_0000 == virt / 0x80_0000_0000
  {
  }

  lemma Quotient(x: nat, d: nat, q: nat, r: nat)
    requires d > 0 && x == d * q + r && r < d
    ensures x / d == q && x % d == r
  {
    MoreQuotient(x, d, q, x / d);
  }

  lemma MoreQuotient(x: nat, d: nat, q: nat, q': nat)
    requires d > 0 && d * q <= x < d * q + d && d * q' <= x < d * q' + d
    ensures q == q'
  {
    if q < q' { Multiples(d, q, q'); }
    if q' < q { Multiples(d, q', q); }
  }

  lemma Multiples(d: nat, q: nat, q': nat)
    requires q < q'
    ensures d * q + d <= d * q'
  {
    assert d * q' == d * q + d * (q' - q);
    if q' > q + 1 { Multiples(d, q, q' - 1); }
  }

  /** Nine bits at a position below the 36th are untouched by dropping the bits from the 36th on. */
  lemma DropHigh(p: nat, a: nat, b: nat)
    requires a > 0 && b > 0 && b % 512 == 0 && a * b == 0x10_0000_0000
    ensures p % 0x10_0000_0000 / a % 512 == p / a % 512
  {
    var h, l := p / 0x10_0000_0000, p % 0x10_0000_0000;
    var q, r := l / a, l % a;
    assert p == a * (b * h + q) + r by {
      assert a * (b * h + q) == (a * b) * h + a * q;
    }
    Quotient(p, a, b * h + q, r);
    var c := b / 512;
    assert b * h == 512 * (c * h) by { assert b == 512 * c; }
    Quotient(b * h + q, 512, c * h + q / 512, q % 512);
  }

  // ---- pages -------------------------------------------------------------------------------------------------

  /** Where the walk finds a present leaf, every address of the page leads into its frame. */
  lemma {:induction false} LeafFrom(mem: Memory, t: nat, level: nat, virt: nat)
    requires t < |mem| && 1 <= level <= 4 && QueryFrom(mem, t, level, PageOf(virt)).present
    ensures TranslateFrom(mem, t, level, virt)
            == Some(QueryFrom(mem, t, level, PageOf(virt)).frame * 4096 + virt % 4096)
    decreases level
  {
    hide Ix, PageOf;
    IxFields(virt, level);
    var e := mem[t][virt / Span(level) % 512];
    if level > 1 {
      LeafFrom(mem, e.frame, level - 1, virt);
    }
  }

  /** A page mapped: every address of it leads to the physical page asked for, offset for offset. */
  lemma MappedLeads(mem: Memory, root: nat, virt: nat, phys: nat, a: nat, user: bool)
    requires root < |mem| && Query(mem, root, PageOf(virt)) == Pte(true, true, user, false, FrameOf(phys))
    requires a / 4096 == virt / 4096 && phys < 0x10_0000_0000_0000
    ensures Translate(mem, root, a) == Some(phys - phys % 4096 + a % 4096)
  {
    hide Query, QueryFrom;
    assert PageOf(a) == PageOf(virt);
    QueryIs(mem, root, PageOf(a));
    LeafFrom(mem, root, 4, a);
  }

  /** Bits above the 48th select nothing. */
  lemma LowFields(virt: nat)
    ensures var low := virt % 0x1_0000_0000_0000;
            && virt / Span(4) % 512 == low / Span(4) && virt / Span(3) % 512 == low / Span(3) % 512
            && virt / Span(2) % 512 == low / Span(2) % 512 && virt % Span(2) == low % Span(2)
  {
    var h, low := virt / 0x1_0000_0000_0000, virt % 0x1_0000_0000_0000;
    assert virt == 0x1_0000_0000_0000 * h + low;
    assert low / 0x80_0000_0000 < 512;
    Quotient(virt, 0x80_0000_0000, 512 * h + low / 0x80_0000_0000, low % 0x80_0000_0000);
    Quotient(virt, 0x4000_0000, 512 * (512 * h) + low / 0x4000_0000, low % 0x4000_0000);
    Quotient(virt, 0x20_0000, 512 * (0x4_0000 * h) + low / 0x20_0000, low % 0x20_0000);
    Nine(h, low / 0x80_0000_0000);
    Nine(512 * h, low / 0x4000_0000);
    Nine(0x4_0000 * h, low / 0x20_0000);
  }

  lemma Nine(h: nat, q: nat)
    ensures (512 * h + q) % 512 == q % 512
  {
  }

  lemma LowParts(low: nat)
    requires low < 0x1_0000_0000_0000
    ensures low == Span(4) * (low / Span(4)) + Span(3) * (low / Span(3) % 512) + Span(2) * (low / Span(2) % 512)
                   + low % Span(2)
  {
    var a := low / 0x20_0000;
    var b := a / 512;
    assert b == low / 0x4000_0000 && b / 512 == low / 0x80_0000_0000;
    assert low == 0x20_0000 * a + low % 0x20_0000 && a == 512 * b + a % 512 && b == 512 * (b / 512) + b % 512;
  }

  // ---- the kernel half ---------------------------------------------------------------------------------------

  /** In every map that carries the kernel half the low addresses lead to themselves, */
  lemma IdentityLeads(mem: Memory, k: Statics, r: nat, phys: nat)
    requires KernelEntries(mem, k) && r < |mem| && HalfMatches(mem, k, r) && phys < CANONICAL_BASE
    ensures Translate(mem, r, phys) == Some(phys)
  {
    var pdpt := mem[r][0].frame;
    var pd := mem[pdpt][0].frame;
    var i := phys / 0x20_0000;
    assert phys / Span(4) % 512 == 0 && phys / Span(3) % 512 == 0 && phys / Span(2) % 512 == i < IDENTITY_SLOTS;
    assert mem[pd][i] == HugePte(i);
    assert TranslateFrom(mem, pd, 2, phys) == Some(phys);
    assert TranslateFrom(mem, pdpt, 3, phys) == Some(phys);
  }

  /** and physical memory is at its place in the direct map. */
  lemma DirectLeads(mem: Memory, k: Statics, r: nat, phys: nat)
    requires KernelEntries(mem, k) && r < |mem| && HalfMatches(mem, k, r) && phys < DIRECT_MAP_MAX
    ensures Translate(mem, r, DIRECT_MAP_BASE + phys) == Some(phys)
  {
    var virt, i := DIRECT_MAP_BASE + phys, phys / 0x20_0000;
    DirectFields(phys);
    assert mem[k.pdDirect][i] == HugePte(i);
    assert TranslateFrom(mem, k.pdDirect, 2, virt) == Some(phys);
    assert TranslateFrom(mem, k.pdptHigh, 3, virt) == Some(phys);
  }

  lemma DirectFields(phys: nat)
    requires phys < DIRECT_MAP_MAX
    ensures var virt := DIRECT_MAP_BASE + phys;
            && virt / Span(4) % 512 == DIRECT_SLOT && virt / Span(3) % 512 == 0
            && virt / Span(2) % 512 == phys / Span(2) && virt % Span(2) == phys % Span(2)
  {
    var virt, low := DIRECT_MAP_BASE + phys, 0x8000_0000_0000 + phys;
    Quotient(virt, 0x1_0000_0000_0000, 0xFFFF, low);
    LowFields(virt);
    Quotient(low, 0x80_0000_0000, 256, phys);
    Quotient(low, 0x4000_0000, 512 * 256, phys);
    Quotient(low, 0x20_0000, 512 * 0x2_0000 + phys / 0x20_0000, phys % 0x20_0000);
    Nine(0x2_0000, phys / 0x20_0000);
  }

  /** What the boot map makes of an address: the identity, the direct map, and nothing else, the program's range
      included.  Bits above the 48th select nothing. */
  function BootLeads(virt: nat): Option<nat> {
    var low := virt % 0x1_0000_0000_0000;
    if low < CANONICAL_BASE then Some(low)
    else if 0x8000_0000_0000 <= low < 0x8000_0000_0000 + DIRECT_MAP_MAX then Some(low - 0x8000_0000_0000)
    else None
  }

  lemma BootTranslates(mem: Memory, k: Statics, virt: nat)
    requires BootLayout(mem, k) && FiveApart(k)
    ensures k.pml4 < |mem| && Translate(mem, k.pml4, virt) == BootLeads(virt)
  {
    hide HugePte;
    var low := virt % 0x1_0000_0000_0000;
    LowFields(virt);
    LowParts(low);
    var i4, i3, i2 := low / Span(4), low / Span(3) % 512, low / Span(2) % 512;
    if i4 == 0 {
      BootLow(mem, k, virt, i3, i2);
    } else if i4 == DIRECT_SLOT {
      BootHigh(mem, k, virt, i3, i2);
    }
  }

  lemma BootLow(mem: Memory, k: Statics, virt: nat, i3: nat, i2: nat)
    requires BootLayout(mem, k) && virt / Span(4) % 512 == 0
    requires virt / Span(3) % 512 == i3 && virt / Span(2) % 512 == i2
    ensures Translate(mem, k.pml4, virt)
            == if i3 == 0 && i2 < IDENTITY_SLOTS then Some(i2 * Span(2) + virt % Span(2)) else None
  {
    if i3 == 0 {
      assert TranslateFrom(mem, k.pdLow, 2, virt)
          == if i2 < IDENTITY_SLOTS then Some(i2 * Span(2) + virt % Span(2)) else None;
      assert TranslateFrom(mem, k.pdptLow, 3, virt) == TranslateFrom(mem, k.pdLow, 2, virt);
    } else {
      assert TranslateFrom(mem, k.pdptLow, 3, virt) == None;
    }
  }

  lemma BootHigh(mem: Memory, k: Statics, virt: nat, i3: nat, i2: nat)
    requires BootLayout(mem, k) && virt / Span(4) % 512 == DIRECT_SLOT
    requires virt / Span(3) % 512 == i3 && virt / Span(2) % 512 == i2
    ensures Translate(mem, k.pml4, virt) == if i3 == 0 then Some(i2 * Span(2) + virt % Span(2)) else None
  {
    if i3 == 0 {
      assert TranslateFrom(mem, k.pdDirect, 2, virt) == Some(i2 * Span(2) + virt % Span(2));
      assert TranslateFrom(mem, k.pdptHigh, 3, virt) == TranslateFrom(mem, k.pdDirect, 2, virt);
    } else {
      assert TranslateFrom(mem, k.pdptHigh, 3, virt) == None;
    }
  }
}
