/** Directory listings, resumed call by call from a cursor. */
module Listing {
  import opened Bytes
  import opened DiskLayout
  import opened Volume
  import opened BodyfsDriver
  import opened TreeArchive

  const SLASH: byte := 47

  datatype Item = Item(name: CString, isDir: bool)

  /** One record of the caller's buffer: where the next one is, its length, its kind and its name. */
  datatype Dirent = Dirent(ino: nat, off: nat, reclen: nat, isDir: bool, name: CString)

  /** Nineteen bytes, the name and its NUL, and no more than makes it a multiple of eight. */
  function RecLen(name: CString): (n: nat)
    ensures 19 + |name| + 1 <= n < 19 + |name| + 1 + 8 && n % 8 == 0
  {
    (19 + |name| + 1 + 7) / 8 * 8
  }

  // ---- resumption ------------------------------------------------------------------------------------------

  /** How many items from a cursor on fit in what is left of a buffer. */
  function Fitting(items: seq<Item>, cursor: nat, written: nat, count: nat): (n: nat)
    ensures cursor + n <= |items| || n == 0
    decreases |items| - cursor
  {
    if cursor >= |items| || written + RecLen(items[cursor].name) > count then 0
    else 1 + Fitting(items, cursor + 1, written + RecLen(items[cursor].name), count)
  }

  /** The cursor after a run of calls with buffers of these sizes. */
  function CursorAfter(items: seq<Item>, cursor: nat, counts: seq<nat>): nat
    decreases |counts|
  {
    if counts == [] then cursor
    else CursorAfter(items, cursor + Fitting(items, cursor, 0, counts[0]), counts[1..])
  }

  /** What the calls returned, one after another. */
  function Returned(items: seq<Item>, cursor: nat, counts: seq<nat>): seq<Item>
    requires cursor <= |items|
    decreases |counts|
  {
    if counts == [] then []
    else
      var n := Fitting(items, cursor, 0, counts[0]);
      items[cursor..cursor + n] + Returned(items, cursor + n, counts[1..])
  }

  predicate Roomy(items: seq<Item>, count: nat) { forall i :: 0 <= i < |items| ==> RecLen(items[i].name) <= count }

  lemma FittingBounds(items: seq<Item>, cursor: nat, count: nat)
    requires cursor <= |items|
    ensures cursor + Fitting(items, cursor, 0, count) <= |items|
    ensures Roomy(items, count) && cursor < |items| ==> Fitting(items, cursor, 0, count) >= 1
  {
  }

  function Needs(items: seq<Item>, cursor: nat, n: nat): nat
    requires cursor + n <= |items|
    decreases n
  {
    if n == 0 then 0 else RecLen(items[cursor].name) + Needs(items, cursor + 1, n - 1)
  }

  /** What a call returns fits its buffer, and with the next item, if there is one, it no longer would. */
  lemma {:induction false} FittingIsMost(items: seq<Item>, cursor: nat, written: nat, count: nat)
    requires cursor <= |items| && written <= count
    ensures var n := Fitting(items, cursor, written, count);
            && cursor + n <= |items| && written + Needs(items, cursor, n) <= count
            && (cursor + n < |items| ==> written + Needs(items, cursor, n) + RecLen(items[cursor + n].name) > count)
    decreases |items| - cursor
  {
    hide RecLen;
    if cursor < |items| && written + RecLen(items[cursor].name) <= count {
      FittingIsMost(items, cursor + 1, written + RecLen(items[cursor].name), count);
    }
  }

  lemma {:induction false} CursorMoves(items: seq<Item>, cursor: nat, counts: seq<nat>)
    requires cursor <= |items|
    ensures cursor <= CursorAfter(items, cursor, counts) <= |items|
    ensures (forall c :: c in counts ==> Roomy(items, c)) ==>
              CursorAfter(items, cursor, counts) >= if cursor + |counts| <= |items| then cursor + |counts| else |items|
    decreases |counts|
  {
    hide Fitting, RecLen;
    if counts != [] {
      FittingBounds(items, cursor, counts[0]);
      CursorMoves(items, cursor + Fitting(items, cursor, 0, counts[0]), counts[1..]);
      if forall c :: c in counts ==> Roomy(items, c) {
        assert counts[0] in counts && Roomy(items, counts[0]);
      }
    }
  }

  /** However the buffers are sized, the calls return the items from the cursor on, each once and in order; and buffers
      that hold any one entry reach the end in at most as many calls as there are items. */
  lemma {:induction false} ListedOnce(items: seq<Item>, cursor: nat, counts: seq<nat>)
    requires cursor <= |items|
    ensures cursor <= CursorAfter(items, cursor, counts) <= |items|
    ensures Returned(items, cursor, counts) == items[cursor..CursorAfter(items, cursor, counts)]
    ensures (forall c :: c in counts ==> Roomy(items, c)) ==>
              CursorAfter(items, cursor, counts) >= if cursor + |counts| <= |items| then cursor + |counts| else |items|
    decreases |counts|
  {
    hide Fitting, RecLen, Roomy;
    CursorMoves(items, cursor, counts);
    if counts != [] {
      var n := Fitting(items, cursor, 0, counts[0]);
      FittingBounds(items, cursor, counts[0]);
      ListedOnce(items, cursor + n, counts[1..]);
      Adjoin(items, cursor, cursor + n, CursorAfter(items, cursor + n, counts[1..]));
    }
  }

  lemma Adjoin(items: seq<Item>, a: nat, b: nat, c: nat)
    requires a <= b <= c <= |items|
    ensures items[a..b] + items[b..c] == items[a..c]
  {
  }

  /** At the end every call returns nothing, and only there if the buffer holds any one entry. */
  lemma EndOfListing(items: seq<Item>, cursor: nat, count: nat)
    requires cursor <= |items| && Roomy(items, count)
    ensures Fitting(items, cursor, 0, count) == 0 <==> cursor == |items|
  {
  }

  // ---- the record disk's directories -----------------------------------------------------------------------

  function BaseAt(dir: CString): nat { if dir == [SLASH] then 1 else |dir| + 1 }

  /** The name is directly inside the directory: its path, a slash, and no further slash. */
  predicate Inside(name: CString, dir: CString) {
    var start := BaseAt(dir);
    && |name| > start && (dir != [SLASH] ==> name[..|dir|] == dir)
    && name[start - 1] == SLASH && SLASH !in name[start..]
  }

  predicate IsChild(e: Entry, dir: CString) { e.present != 0 && Inside(FieldName(e.name), dir) }

  function ChildItem(e: Entry, dir: CString): Item
    requires IsChild(e, dir)
  {
    Item(FieldName(e.name)[BaseAt(dir)..], e.kind == FT_DIR)
  }

  /** The children of a directory among the first n entries, in table order. */
  function Children(table: seq<Entry>, dir: CString, n: nat): (r: seq<Item>)
    requires n <= |table|
    ensures |r| <= n
  {
    if n == 0 then []
    else Children(table, dir, n - 1) + if IsChild(table[n - 1], dir) then [ChildItem(table[n - 1], dir)] else []
  }

  /** The children are exactly the present entries directly inside, */
  lemma {:induction false} ChildrenExactly(table: seq<Entry>, dir: CString, n: nat, item: Item)
    requires n <= |table|
    ensures item in Children(table, dir, n) <==>
              exists e :: 0 <= e < n && IsChild(table[e], dir) && ChildItem(table[e], dir) == item
  {
    hide Inside;
    if n > 0 {
      ChildrenExactly(table, dir, n - 1, item);
    }
  }

  predicate Distinct(items: seq<Item>) { forall i, j :: 0 <= i < j < |items| ==> items[i].name != items[j].name }

  lemma DistinctMore(items: seq<Item>, item: Item)
    requires Distinct(items) && forall i :: 0 <= i < |items| ==> items[i].name != item.name
    ensures Distinct(items + [item])
  {
  }

  /** each once, where no two present entries have the same name. */
  lemma {:induction false} ChildrenOnce(table: seq<Entry>, dir: CString, n: nat)
    requires n <= |table|
    requires forall i, j :: 0 <= i < j < n && table[i].present != 0 && table[j].present != 0 ==>
               FieldName(table[i].name) != FieldName(table[j].name)
    ensures Distinct(Children(table, dir, n))
  {
    hide Inside, FieldName;
    if n > 0 {
      ChildrenOnce(table, dir, n - 1);
      var r := Children(table, dir, n - 1);
      if IsChild(table[n - 1], dir) {
        forall i | 0 <= i < |r| ensures r[i].name != ChildItem(table[n - 1], dir).name {
          ChildrenExactly(table, dir, n - 1, r[i]);
          var e :| 0 <= e < n - 1 && IsChild(table[e], dir) && ChildItem(table[e], dir) == r[i];
          if r[i].name == ChildItem(table[n - 1], dir).name {
            SameBase(FieldName(table[e].name), FieldName(table[n - 1].name), dir);
          }
        }
        DistinctMore(r, ChildItem(table[n - 1], dir));
      }
    }
  }

  lemma SameBase(a: CString, b: CString, dir: CString)
    requires Inside(a, dir) && Inside(b, dir) && a[BaseAt(dir)..] == b[BaseAt(dir)..]
    ensures a == b
  {
    var n := BaseAt(dir);
    assert a == a[..n] + a[n..] && b == b[..n] + b[n..];
    if dir != [SLASH] {
      assert a[..n] == dir + [SLASH] && b[..n] == dir + [SLASH];
    } else {
      assert a[..n] == [SLASH] && b[..n] == [SLASH];
    }
  }

  lemma {:induction false} ChildrenPrefix(table: seq<Entry>, dir: CString, n: nat, m: nat)
    requires n <= m <= |table|
    ensures Children(table, dir, n) <= Children(table, dir, m)
    decreases m
  {
    hide IsChild, ChildItem;
    if n < m { ChildrenPrefix(table, dir, n, m - 1); }
  }

  // ---- one call ----------------------------------------------------------------------------------------------

  function Sum(out: seq<Dirent>, n: nat): nat
    requires n <= |out|
  {
    if n == 0 then 0 else Sum(out, n - 1) + out[n - 1].reclen
  }

  predicate Record(d: Dirent, item: Item, off: nat) {
    d.name == item.name && d.isDir == item.isDir && d.reclen == RecLen(item.name) && d.off == off && d.ino != 0
  }

  /** The buffer holds the items from a cursor on, each record saying where the next one is. */
  predicate Wrote(out: seq<Dirent>, items: seq<Item>, cursor: nat) {
    out != [] ==>
      && cursor + |out| <= |items|
      && forall i :: 0 <= i < |out| ==> Record(out[i], items[cursor + i], Sum(out, i + 1))
  }

  lemma {:induction false} SumPrefix(out: seq<Dirent>, d: Dirent, n: nat)
    requires n <= |out|
    ensures Sum(out + [d], n) == Sum(out, n)
  {
    if n > 0 { SumPrefix(out, d, n - 1); }
  }

  lemma WroteMore(out: seq<Dirent>, items: seq<Item>, cursor: nat, d: Dirent)
    requires Wrote(out, items, cursor) && cursor + |out| < |items|
    requires Record(d, items[cursor + |out|], Sum(out, |out|) + d.reclen)
    ensures Wrote(out + [d], items, cursor) && Sum(out + [d], |out| + 1) == Sum(out, |out|) + d.reclen
  {
    hide Record, Sum;
    var more := out + [d];
    SumMore(out, d);
    forall i: nat | i < |more| ensures Record(more[i], items[cursor + i], Sum(more, i + 1)) {
      if i < |out| {
        SumPrefix(out, d, i + 1);
        assert more[i] == out[i] && Record(out[i], items[cursor + i], Sum(out, i + 1));
      }
    }
  }

  lemma SumMore(out: seq<Dirent>, d: Dirent)
    ensures Sum(out + [d], |out| + 1) == Sum(out, |out|) + d.reclen
  {
    SumPrefix(out, d, |out|);
  }

  /** serve_recdir_getdents: as many children from the cursor on as the buffer holds. */
  method RecdirGetdents(b: Bodyfs, dir: CString, cursor: nat, count: nat)
    returns (out: seq<Dirent>, written: nat, next: nat)
    requires b.Valid()
    ensures var items := Children(b.dir[..], dir, MAX_ENTRIES);
            && |out| == Fitting(items, cursor, 0, count) && Wrote(out, items, cursor)
            && next == cursor + |out| && written == Sum(out, |out|)
  {
    hide Children, FieldName, Wrote, Fitting, RecLen, Sum;
    out, written, next := [], 0, cursor;
    ghost var table := b.dir[..];
    ghost var items := Children(table, dir, MAX_ENTRIES);
    ChildrenNone(table, dir);
    var childIdx, e := 0, 0;
    while e < MAX_ENTRIES
      invariant 0 <= e <= MAX_ENTRIES && childIdx == |Children(table, dir, e)| <= |items|
      invariant next == cursor + |out| && (if childIdx <= cursor then out == [] else next == childIdx)
      invariant Wrote(out, items, cursor) && written == Sum(out, |out|)
      invariant Fitting(items, cursor, 0, count) == |out| + Fitting(items, next, written, count)
    {
      var be := b.dir[e];
      NextChild(table, dir, e);
      if be.present != 0 && Inside(FieldName(be.name), dir) {
        if childIdx < cursor {
          childIdx := childIdx + 1;
        } else {
          var name := FieldName(be.name)[BaseAt(dir)..];
          var reclen := RecLen(name);
          FitsNext(items, next, written, count);
          if written + reclen > count { return; }
          var d := Dirent(e + 0x400000, written + reclen, reclen, be.kind == FT_DIR, name);
          WroteMore(out, items, cursor, d);
          out, written := out + [d], written + reclen;
          childIdx, next := childIdx + 1, next + 1;
        }
      }
      e := e + 1;
    }
    NoneFit(items, next, written, count);
  }

  lemma ChildrenNone(table: seq<Entry>, dir: CString)
    ensures Children(table, dir, 0) == [] && forall items: seq<Item>, c: nat :: Wrote([], items, c)
    ensures Sum([], 0) == 0
  {
  }

  /** Entry e, if it is a child, is the next of the items. */
  lemma NextChild(table: seq<Entry>, dir: CString, e: nat)
    requires e < MAX_ENTRIES == |table|
    ensures var items, k := Children(table, dir, MAX_ENTRIES), |Children(table, dir, e)|;
            && k <= |items|
            && |Children(table, dir, e + 1)| == k + (if IsChild(table[e], dir) then 1 else 0) <= |items|
            && (IsChild(table[e], dir) ==> items[k] == ChildItem(table[e], dir))
  {
    hide IsChild, ChildItem;
    ChildrenPrefix(table, dir, e + 1, MAX_ENTRIES);
    ChildrenPrefix(table, dir, e, MAX_ENTRIES);
  }

  lemma FitsNext(items: seq<Item>, cursor: nat, written: nat, count: nat)
    requires cursor < |items|
    ensures Fitting(items, cursor, written, count)
            == if written + RecLen(items[cursor].name) > count then 0
               else 1 + Fitting(items, cursor + 1, written + RecLen(items[cursor].name), count)
  {
  }

  lemma NoneFit(items: seq<Item>, cursor: nat, written: nat, count: nat)
    requires cursor >= |items|
    ensures Fitting(items, cursor, written, count) == 0
  {
  }
}
