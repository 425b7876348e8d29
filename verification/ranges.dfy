/** Which pages a range of addresses takes: how the memory calls round, told from the addresses themselves. */
module Ranges {
  import opened Pmm
  import opened PageTree

  /** The first page boundary at or above an address, and the last at or below it. */
  function RoundUp(a: nat): (r: nat)
    ensures a <= r < a + FRAME_SIZE && r % FRAME_SIZE == 0
  {
    (a + 0xFFF) / FRAME_SIZE * FRAME_SIZE
  }

  function RoundDown(a: nat): (r: nat)
    ensures r <= a < r + FRAME_SIZE && r % FRAME_SIZE == 0
  {
    a / FRAME_SIZE * FRAME_SIZE
  }

  /** How many pages a length asks for: the fewest that hold it, and one for no length. */
  function PagesOf(len: nat): (n: nat)
    ensures n > 0 && len <= n * FRAME_SIZE
    ensures n == 1 || (n - 1) * FRAME_SIZE < len
  {
    if (len + 0xFFF) / FRAME_SIZE == 0 then 1 else (len + 0xFFF) / FRAME_SIZE
  }

  lemma RoundDownIs(a: nat)
    ensures RoundDown(a) == a - a % FRAME_SIZE
  {
  }

  /** A guard page past a mapping from a boundary on is a boundary again. */
  lemma PastIsBoundary(base: nat, len: nat)
    requires base % FRAME_SIZE == 0
    ensures var next := base + PagesOf(len) * FRAME_SIZE + FRAME_SIZE;
            next % FRAME_SIZE == 0 && base + len + FRAME_SIZE <= next
  {
    hide PagesOf;
  }

  /** v is one of the n pages from an address on. */
  predicate Spans(start: nat, n: nat, v: Page) {
    exists i: nat :: i < n && v == Nth(start, i)
  }

  function Nth(start: nat, i: nat): Page { PageOf(start + i * FRAME_SIZE) }

  /** v has an address of [lo, hi). */
  ghost predicate Meets(lo: nat, hi: nat, v: Page) {
    exists a: nat :: lo <= a < hi && PageOf(a) == v
  }

  /** v begins at an address of [lo, hi). */
  ghost predicate Starts(lo: nat, hi: nat, v: Page) {
    exists a: nat :: lo <= a < hi && a % FRAME_SIZE == 0 && PageOf(a) == v
  }

  lemma StartsAt(lo: nat, hi: nat, a: nat)
    requires lo <= a < hi && a % FRAME_SIZE == 0
    ensures Starts(lo, hi, PageOf(a))
  {
  }

  lemma SpansSnoc(start: nat, n: nat, v: Page)
    ensures Spans(start, n + 1, v) <==> Spans(start, n, v) || v == Nth(start, n)
  {
    if Spans(start, n, v) {
      var i: nat :| i < n && v == Nth(start, i);
      assert i < n + 1 && v == Nth(start, i);
    }
    if v == Nth(start, n) {
      assert n < n + 1 && v == Nth(start, n);
    }
  }

  lemma NthSpans(start: nat, i: nat, n: nat)
    requires i < n
    ensures Spans(start, n, Nth(start, i))
  {
  }

  lemma NoSpan(start: nat, v: Page)
    ensures !Spans(start, 0, v)
  {
  }

  lemma NthApart(start: nat, i: nat, j: nat)
    requires i < j < 0x10_0000_0000
    ensures Nth(start, i) != Nth(start, j)
  {
    var p := start / FRAME_SIZE;
    assert (start + i * FRAME_SIZE) / FRAME_SIZE == p + i && (start + j * FRAME_SIZE) / FRAME_SIZE == p + j;
  }

  lemma SamePage(a: nat, b: nat)
    requires a / FRAME_SIZE == b / FRAME_SIZE
    ensures PageOf(a) == PageOf(b)
  {
  }

  /** The n pages from a boundary on are those with an address of the n pages' bytes. */
  lemma SpansFrom(start: nat, n: nat, v: Page)
    requires start % FRAME_SIZE == 0
    ensures Spans(start, n, v) <==> Starts(start, start + n * FRAME_SIZE, v)
  {
    hide PageOf;
    if Spans(start, n, v) {
      var i: nat :| i < n && v == Nth(start, i);
      var a := start + i * FRAME_SIZE;
      assert a < start + n * FRAME_SIZE && a % FRAME_SIZE == 0 && PageOf(a) == v;
    }
    if Starts(start, start + n * FRAME_SIZE, v) {
      var a: nat :| start <= a < start + n * FRAME_SIZE && a % FRAME_SIZE == 0 && PageOf(a) == v;
      var i: nat := (a - start) / FRAME_SIZE;
      assert i < n && a == start + i * FRAME_SIZE;
      assert v == Nth(start, i);
    }
  }

  /** From one rounded end to another: the pages that begin between the ends as given. */
  lemma SpansStarts(lo: nat, hi: nat, v: Page)
    ensures RoundUp(lo) <= RoundUp(hi) ==>
              (Spans(RoundUp(lo), (RoundUp(hi) - RoundUp(lo)) / FRAME_SIZE, v) <==> Starts(lo, hi, v))
    ensures RoundUp(hi) <= RoundUp(lo) ==> !Starts(lo, hi, v)
  {
    hide PageOf;
    var from, to := RoundUp(lo), RoundUp(hi);
    forall a: nat | a % FRAME_SIZE == 0
      ensures lo <= a <==> from <= a
      ensures a < hi <==> a < to
    {
    }
    if from <= to {
      var n: nat := (to - from) / FRAME_SIZE;
      SpansFrom(from, n, v);
      assert from + n * FRAME_SIZE == to;
    }
  }

  lemma SpansBetween(lo: nat, hi: nat)
    ensures RoundUp(lo) <= RoundUp(hi) ==>
              forall v: Page ::
                Spans(RoundUp(lo), (RoundUp(hi) - RoundUp(lo)) / FRAME_SIZE, v) <==> Starts(lo, hi, v)
    ensures RoundUp(hi) <= RoundUp(lo) ==> forall v: Page :: !Starts(lo, hi, v)
  {
    hide RoundUp, Spans, Starts;
    forall v: Page
      ensures RoundUp(lo) <= RoundUp(hi) ==>
                (Spans(RoundUp(lo), (RoundUp(hi) - RoundUp(lo)) / FRAME_SIZE, v) <==> Starts(lo, hi, v))
      ensures RoundUp(hi) <= RoundUp(lo) ==> !Starts(lo, hi, v)
    {
      SpansStarts(lo, hi, v);
    }
  }

  /** From the boundary below to the one above: the pages the range touches. */
  lemma SpansTouches(lo: nat, len: nat, v: Page)
    requires len > 0
    ensures Spans(RoundDown(lo), (RoundUp(lo + len) - RoundDown(lo)) / FRAME_SIZE, v) <==> Meets(lo, lo + len, v)
  {
    hide PageOf;
    var from, to := RoundDown(lo), RoundUp(lo + len);
    var n: nat := (to - from) / FRAME_SIZE;
    SpansFrom(from, n, v);
    assert from + n * FRAME_SIZE == to;
    if a: nat :| from <= a < to && a % FRAME_SIZE == 0 && PageOf(a) == v {
      var b := if a < lo then lo else a;
      SamePage(a, b);
      assert lo <= b < lo + len && PageOf(b) == v;
    }
    if a: nat :| lo <= a < lo + len && PageOf(a) == v {
      SamePage(a, RoundDown(a));
      var b := RoundDown(a);
      assert from <= b < to && b % FRAME_SIZE == 0 && PageOf(b) == v;
    }
  }

  /** As many pages as a length asks for, from any address on: the pages touched by that length from the boundary
      below. */
  lemma PagesTouched(start: nat, len: nat, v: Page)
    requires len > 0
    ensures Spans(start, PagesOf(len), v) <==> Meets(RoundDown(start), RoundDown(start) + len, v)
  {
    hide PageOf, Spans, Meets;
    var lo := RoundDown(start);
    var n := PagesOf(len);
    assert RoundUp(lo + len) == lo + n * FRAME_SIZE && RoundDown(lo) == lo;
    SpansTouches(lo, len, v);
    assert (RoundUp(lo + len) - lo) / FRAME_SIZE == n;
    SpansBelow(start, n, v);
  }

  /** The offset of the first address in its page makes no difference. */
  lemma SpansBelow(start: nat, n: nat, v: Page)
    ensures Spans(start, n, v) <==> Spans(RoundDown(start), n, v)
  {
    var lo := RoundDown(start);
    forall i: nat ensures Nth(start, i) == Nth(lo, i) {
      SamePage(start + i * FRAME_SIZE, lo + i * FRAME_SIZE);
    }
  }

  /** Those pages hold every address of the range exactly when the start's offset in its page and the last byte's
      offset in a page of its own do not add up to another page. */
  lemma PagesHold(start: nat, len: nat)
    requires 0 < len < 0x8000_0000_0000
    ensures (forall a: nat :: start <= a < start + len ==> Spans(start, PagesOf(len), PageOf(a)))
            <==> start % FRAME_SIZE + (len - 1) % FRAME_SIZE < FRAME_SIZE
  {
    hide PageOf, Spans, PagesOf, RoundDown, Meets;
    if start % FRAME_SIZE + (len - 1) % FRAME_SIZE < FRAME_SIZE {
      forall a: nat | start <= a < start + len ensures Spans(start, PagesOf(len), PageOf(a)) {
        HeldAt(start, len, a);
      }
    } else {
      LastMissed(start, len);
      assert start <= start + len - 1 < start + len;
    }
  }

  lemma HeldAt(start: nat, len: nat, a: nat)
    requires start <= a < start + len && start % FRAME_SIZE + (len - 1) % FRAME_SIZE < FRAME_SIZE
    ensures Spans(start, PagesOf(len), PageOf(a))
  {
    hide PageOf, Spans, PagesOf;
    PagesTouched(start, len, PageOf(a));
    var b := RoundDown(a);
    SamePage(a, b);
    assert b < RoundDown(start) + len;
  }

  lemma LastMissed(start: nat, len: nat)
    requires 0 < len < 0x8000_0000_0000 && start % FRAME_SIZE + (len - 1) % FRAME_SIZE >= FRAME_SIZE
    ensures !Spans(start, PagesOf(len), PageOf(start + len - 1))
  {
    hide PageOf, Spans, PagesOf;
    var lo, last := RoundDown(start), start + len - 1;
    PagesTouched(start, len, PageOf(last));
    assert RoundDown(last) >= lo + len;
    if a: nat :| lo <= a < lo + len && PageOf(a) == PageOf(last) {
      Near(a, last);
    }
  }

  /** Addresses less than 2^48 apart share a page only if they have the same quotient. */
  lemma Near(a: nat, b: nat)
    requires a <= b <= a + 0xFFFF_FFFF_F000 && PageOf(a) == PageOf(b)
    ensures a / FRAME_SIZE == b / FRAME_SIZE
  {
    var p, q := a / FRAME_SIZE, b / FRAME_SIZE;
    assert p <= q <= p + 0xF_FFFF_FFFF;
  }

  /** No page that begins in [lo, hi) has an address below lo, unless the range wraps. */
  lemma Below(lo: nat, hi: nat, a: nat)
    requires a < lo && hi <= 0x1_0000_0000_0000
    ensures !Starts(lo, hi, PageOf(a))
  {
    if Starts(lo, hi, PageOf(a)) {
      var b: nat :| lo <= b < hi && b % FRAME_SIZE == 0 && PageOf(b) == PageOf(a);
      Near(a, b);
    }
  }
}
