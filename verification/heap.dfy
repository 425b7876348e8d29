/** The first-fit heap: a linked list of block headers inside the area it divides, split and joined in place. */
module Heap {

  const HEAP_SIZE: nat := 262144
  /** Bytes of a header, and the unit of every address and size. */
  const HEADER: nat := 16
  const GRANULES: nat := 16384
  const WORD: nat := 0x1_0000_0000

  /** A header as it lies in the area; next is the granule of the next one, 0 for none. */
  datatype Header = Header(size: nat, free: bool, next: nat)

  /** A block: the granule its header is at, and the bytes after it. */
  datatype Block = Block(at: nat, size: nat, free: bool)

  function End(b: Block): nat { b.at + 1 + b.size / HEADER }

  /** The blocks cover the area exactly, each beginning where the one before it ends. */
  predicate Tiles(bs: seq<Block>) {
    && bs != [] && bs[0].at == 0 && End(bs[|bs| - 1]) == GRANULES
    && (forall i :: 0 <= i < |bs| ==> bs[i].size % HEADER == 0)
    && (forall i :: 0 <= i < |bs| - 1 ==> Follows(bs, i))
  }

  predicate Follows(bs: seq<Block>, i: nat)
    requires i + 1 < |bs|
  {
    bs[i + 1].at == End(bs[i])
  }

  /** The size as kmalloc rounds it, in 32 bits. */
  function Round(size: nat): nat { (size + 15) % WORD / 16 * 16 }

  /** What is rounded holds what was asked for, but for the last fifteen sizes, whose rounding wraps. */
  lemma RoundHolds(size: nat)
    requires size < WORD
    ensures Round(size) % HEADER == 0
    ensures Round(size) >= size <==> size <= WORD - 16
    ensures size <= WORD - 16 ==> Round(size) < size + 16
    ensures size > WORD - 16 ==> Round(size) == 0
  {
  }

  // ---- what tiling means -----------------------------------------------------------------------------------

  lemma {:induction false} Ahead(bs: seq<Block>, i: nat, j: nat)
    requires Tiles(bs) && i < j < |bs|
    ensures End(bs[i]) <= bs[j].at
    decreases j - i
  {
    assert Follows(bs, i);
    if i + 1 < j { Ahead(bs, i + 1, j); }
  }

  /** Every block lies inside the area, and any two lie apart, header and bytes. */
  lemma Apart(bs: seq<Block>, i: nat, j: nat)
    requires Tiles(bs) && i < |bs| && j < |bs|
    ensures bs[i].at < End(bs[i]) <= GRANULES
    ensures i < j ==> End(bs[i]) <= bs[j].at
    ensures i != j ==> bs[i].at != bs[j].at
  {
    if i < |bs| - 1 { Ahead(bs, i, |bs| - 1); }
    if i < j { Ahead(bs, i, j); }
    if j < i { Ahead(bs, j, i); }
  }

  function Bytes(bs: seq<Block>): nat {
    if bs == [] then 0 else Bytes(bs[..|bs| - 1]) + HEADER + bs[|bs| - 1].size
  }

  /** Headers and sizes add up to the whole area. */
  lemma BytesConserved(bs: seq<Block>)
    requires Tiles(bs)
    ensures Bytes(bs) == HEAP_SIZE
  {
    BytesUpTo(bs, |bs|);
    assert bs[..|bs|] == bs;
  }

  lemma {:induction false} BytesUpTo(bs: seq<Block>, n: nat)
    requires Tiles(bs) && 0 < n <= |bs|
    ensures Bytes(bs[..n]) == HEADER * End(bs[n - 1])
  {
    assert bs[..n][..n - 1] == bs[..n - 1];
    if n > 1 {
      assert Follows(bs, n - 2);
      BytesUpTo(bs, n - 1);
    } else {
      assert bs[..0] == [];
    }
  }

  // ---- the two operations on a list of blocks --------------------------------------------------------------

  predicate Fits(b: Block, r: nat) { b.free && b.size >= r }

  /** Block i given out for r bytes: its tail becomes a free block if it can hold a header and 16 bytes. */
  function Taken(bs: seq<Block>, i: nat, r: nat): seq<Block>
    requires i < |bs| && bs[i].size >= r
  {
    bs[..i] + (if bs[i].size >= r + HEADER + 16
               then [Block(bs[i].at, r, false), Block(bs[i].at + 1 + r / HEADER, bs[i].size - r - HEADER, true)]
               else [bs[i].(free := false)]) + bs[i + 1..]
  }

  /** Block i given back, joined with the next if that is free. */
  function Freed(bs: seq<Block>, i: nat): seq<Block>
    requires i < |bs|
  {
    if i + 1 < |bs| && bs[i + 1].free
    then bs[..i] + [Block(bs[i].at, bs[i].size + HEADER + bs[i + 1].size, true)] + bs[i + 2..]
    else bs[..i] + [bs[i].(free := true)] + bs[i + 1..]
  }

  lemma TakenTiles(bs: seq<Block>, i: nat, r: nat)
    requires Tiles(bs) && i < |bs| && bs[i].size >= r && r % HEADER == 0
    ensures Tiles(Taken(bs, i, r))
  {
    var t := Taken(bs, i, r);
    if bs[i].size >= r + HEADER + 16 {
      forall j | 0 <= j < |t| - 1 ensures Follows(t, j) {
        if j < i { assert Follows(bs, j); } else if j > i { assert Follows(bs, j - 1); }
      }
    } else {
      forall j | 0 <= j < |t| - 1 ensures Follows(t, j) { assert Follows(bs, j); }
    }
  }

  lemma JoinedEnd(b: Block, c: Block)
    requires b.size % HEADER == 0 && c.size % HEADER == 0 && c.at == End(b)
    ensures var size := b.size + HEADER + c.size; size % HEADER == 0 && End(Block(b.at, size, true)) == End(c)
  {
  }

  lemma FreeEnd(b: Block)
    ensures End(b.(free := true)) == End(b)
  {
  }

  lemma FreedTiles(bs: seq<Block>, i: nat)
    requires Tiles(bs) && i < |bs|
    ensures Tiles(Freed(bs, i))
  {
    hide End;
    var t := Freed(bs, i);
    if i + 1 < |bs| && bs[i + 1].free {
      assert Follows(bs, i);
      JoinedEnd(bs[i], bs[i + 1]);
      forall j | 0 <= j < |t| - 1 ensures Follows(t, j) {
        if j < i { assert Follows(bs, j); } else { assert Follows(bs, j + 1); }
      }
    } else {
      FreeEnd(bs[i]);
      forall j | 0 <= j < |t| - 1 ensures Follows(t, j) { assert Follows(bs, j); }
    }
  }

  /** A block given out holds what was asked for at the old block's start.  What is left over is a free block up to
      the old one's end if it can hold a header and 16 bytes, and otherwise stays with the block. */
  lemma TakenSplits(bs: seq<Block>, i: nat, r: nat)
    requires Tiles(bs) && i < |bs| && Fits(bs[i], r) && r % HEADER == 0
    ensures var t, n := Taken(bs, i, r), if bs[i].size >= r + HEADER + 16 then 1 else 0;
            && |t| == |bs| + n && t[..i] == bs[..i] && t[i + 1 + n..] == bs[i + 1..]
            && !t[i].free && t[i].at == bs[i].at && t[i].size >= r && End(t[i + n]) == End(bs[i])
            && (n == 1 ==> t[i].size == r && t[i + 1].free && t[i + 1].at == End(t[i]) && t[i + 1].size >= 16)
  {
    var t, n := Taken(bs, i, r), if bs[i].size >= r + HEADER + 16 then 1 else 0;
    assert t[i + 1 + n..] == bs[i + 1..];
  }

  /** A block given back is free, and one with the next up to that one's end if that was free. */
  lemma FreedJoins(bs: seq<Block>, i: nat)
    requires Tiles(bs) && i < |bs|
    ensures var t, n := Freed(bs, i), if i + 1 < |bs| && bs[i + 1].free then 1 else 0;
            && |t| == |bs| - n && t[..i] == bs[..i] && t[i + 1..] == bs[i + 1 + n..]
            && t[i].free && t[i].at == bs[i].at && End(t[i]) == End(bs[i + n])
  {
    if i + 1 < |bs| { assert Follows(bs, i); }
  }

  /** Given out and given back at once, the blocks are as they were, unless the block was given whole and the next one
      was free. */
  lemma GivenBack(bs: seq<Block>, i: nat, r: nat)
    requires Tiles(bs) && i < |bs| && Fits(bs[i], r) && r % HEADER == 0
    ensures Freed(Taken(bs, i, r), i) == bs
            <==> bs[i].size >= r + HEADER + 16 || !(i + 1 < |bs| && bs[i + 1].free)
  {
    var t := Taken(bs, i, r);
    assert bs == bs[..i] + [bs[i]] + bs[i + 1..];
    if bs[i].size >= r + HEADER + 16 {
      assert t[i + 1].free && t[i + 2..] == bs[i + 1..] && t[..i] == bs[..i];
      assert Freed(t, i) == bs[..i] + [bs[i]] + bs[i + 1..];
    } else if i + 1 < |bs| && bs[i + 1].free {
      assert t[i + 1] == bs[i + 1];
      assert |Freed(t, i)| == |bs| - 1;
    } else {
      assert t[i + 1..] == bs[i + 1..] && t[..i] == bs[..i];
      assert Freed(t, i) == bs[..i] + [bs[i]] + bs[i + 1..];
    }
  }

  /** The blocks in use, as the addresses their owners have and the bytes behind them. */
  predicate Live(bs: seq<Block>, p: nat, size: nat) { exists i :: 0 <= i < |bs| && IsLive(bs[i], p, size) }

  predicate IsLive(b: Block, p: nat, size: nat) { !b.free && b.at + 1 == p && b.size == size }

  /** Giving out a free block leaves every live one live, and adds exactly one. */
  lemma TakenLive(bs: seq<Block>, i: nat, r: nat, p: nat, size: nat)
    requires Tiles(bs) && i < |bs| && bs[i].free && bs[i].size >= r && r % HEADER == 0
    ensures var given := if bs[i].size >= r + HEADER + 16 then r else bs[i].size;
            Live(Taken(bs, i, r), p, size) <==> Live(bs, p, size) || (p == bs[i].at + 1 && size == given)
  {
    var t := Taken(bs, i, r);
    var n := if bs[i].size >= r + HEADER + 16 then 1 else 0;
    if Live(t, p, size) {
      var j :| 0 <= j < |t| && IsLive(t[j], p, size);
      if j < i {
        assert IsLive(bs[j], p, size);
      } else if j > i + n {
        assert t[j] == bs[j - n];
        assert IsLive(bs[j - n], p, size);
      }
    }
    if Live(bs, p, size) {
      var j :| 0 <= j < |bs| && IsLive(bs[j], p, size);
      assert j != i;
      if j < i { assert IsLive(t[j], p, size); } else { assert t[j + n] == bs[j]; assert IsLive(t[j + n], p, size); }
    }
    assert IsLive(t[i], bs[i].at + 1, t[i].size);
  }

  /** An address given out was nobody's. */
  lemma FreeIsNotLive(bs: seq<Block>, i: nat, size: nat)
    requires Tiles(bs) && i < |bs| && bs[i].free
    ensures !Live(bs, bs[i].at + 1, size)
  {
    if Live(bs, bs[i].at + 1, size) {
      var j :| 0 <= j < |bs| && IsLive(bs[j], bs[i].at + 1, size);
      Apart(bs, i, j);
    }
  }

  /** Giving a live block back leaves every other one live, and removes exactly that one. */
  lemma FreedLive(bs: seq<Block>, i: nat, p: nat, size: nat)
    requires Tiles(bs) && i < |bs|
    ensures Live(Freed(bs, i), p, size) <==> Live(bs, p, size) && p != bs[i].at + 1
  {
    var t := Freed(bs, i);
    var n := if i + 1 < |bs| && bs[i + 1].free then 1 else 0;
    if Live(t, p, size) {
      var j :| 0 <= j < |t| && IsLive(t[j], p, size);
      assert j != i;
      var k := if j < i then j else j + n;
      assert t[j] == bs[k] && IsLive(bs[k], p, size);
      Apart(bs, i, k);
    }
    if Live(bs, p, size) && p != bs[i].at + 1 {
      var j :| 0 <= j < |bs| && IsLive(bs[j], p, size);
      var k := if j < i then j else j - n;
      assert t[k] == bs[j] && IsLive(t[k], p, size);
    }
  }

  // ---- in place --------------------------------------------------------------------------------------------

  class Area {
    const hdr: array<Header>
    ghost var blocks: seq<Block>

    ghost predicate Valid()
      reads this, hdr
    {
      hdr.Length == GRANULES && Tiles(blocks) && forall i :: 0 <= i < |blocks| ==> Linked(i)
    }

    /** The header of block i says what it is and where the next one is. */
    ghost predicate Linked(i: nat)
      requires hdr.Length == GRANULES && i < |blocks|
      reads this, hdr
    {
      && blocks[i].at < GRANULES
      && hdr[blocks[i].at] == Header(blocks[i].size, blocks[i].free, if i + 1 < |blocks| then blocks[i + 1].at else 0)
    }

    /** heap_init. */
    constructor ()
      ensures Valid() && blocks == [Block(0, HEAP_SIZE - HEADER, true)] && fresh(hdr)
    {
      hdr := new Header[GRANULES](_ => Header(0, false, 0));
      blocks := [Block(0, HEAP_SIZE - HEADER, true)];
      new;
      hdr[0] := Header(HEAP_SIZE - HEADER, true, 0);
    }

    /** The address of the bytes of the first free block that fits, or 0 if none does. */
    method Kmalloc(size: nat) returns (p: nat, ghost i: nat)
      requires Valid() && size < WORD
      modifies this, hdr
      ensures Valid()
      ensures p == 0 ==> blocks == old(blocks) && forall j :: 0 <= j < |blocks| ==> !Fits(blocks[j], Round(size))
      ensures p != 0 ==> i < |old(blocks)| && Fits(old(blocks)[i], Round(size)) && p == old(blocks)[i].at + 1
      ensures p != 0 ==> forall j :: 0 <= j < i ==> !Fits(old(blocks)[j], Round(size))
      ensures p != 0 ==>
                i < |old(blocks)| && old(blocks)[i].size >= Round(size) && blocks == Taken(old(blocks), i, Round(size))
    {
      var r := Round(size);
      RoundHolds(size);
      var b := 0;
      i := 0;
      assert Linked(0);
      while true
        invariant i < |blocks| && b == blocks[i].at && blocks == old(blocks) && Valid()
        invariant forall j :: 0 <= j < i ==> !Fits(blocks[j], r)
        decreases |blocks| - i
      {
        assert Linked(i);
        if hdr[b].free && hdr[b].size >= r {
          Take(b, r, i);
          return b + 1, i;
        }
        if hdr[b].next == 0 {
          if i + 1 < |blocks| { Apart(blocks, i, i + 1); }
          return 0, i;
        }
        b := hdr[b].next;
        i := i + 1;
      }
    }

    /** Splits the block if its tail can be one, and marks it used. */
    method Take(b: nat, r: nat, ghost i: nat)
      requires Valid() && i < |blocks| && blocks[i].at == b && blocks[i].size >= r && r % HEADER == 0
      modifies this, hdr
      ensures Valid() && blocks == Taken(old(blocks), i, r)
    {
      hide Tiles;
      assert Linked(i);
      ghost var bs := blocks;
      TakenTiles(bs, i, r);
      Inside(bs, i);
      blocks := Taken(bs, i, r);
      if hdr[b].size >= r + HEADER + 16 {
        var nb := b + 1 + r / HEADER;
        hdr[nb] := Header(hdr[b].size - r - HEADER, true, hdr[b].next);
        hdr[b] := hdr[b].(size := r, next := nb);
        hdr[b] := hdr[b].(free := false);
        forall j | 0 <= j < |blocks| ensures Linked(j) {
          var k := if j <= i then j else j - 1;
          assert old(Linked(k)) && (k != i ==> blocks[j] == bs[k]);
          AllApart(bs, i, k);
          if k + 1 < |bs| { AllApart(bs, i, k + 1); }
        }
      } else {
        hdr[b] := hdr[b].(free := false);
        forall j | 0 <= j < |blocks| ensures Linked(j) {
          assert old(Linked(j));
          AllApart(bs, i, j);
        }
      }
    }

    /** Gives a block back; no address, nothing to give. */
    method Kfree(p: nat, ghost i: nat)
      requires Valid() && (p != 0 ==> i < |blocks| && blocks[i].at + 1 == p)
      modifies this, hdr
      ensures Valid() && blocks == if p == 0 then old(blocks) else Freed(old(blocks), i)
    {
      if p == 0 { return; }
      hide Tiles;
      var b := p - 1;
      assert Linked(i);
      ghost var bs := blocks;
      FreedTiles(bs, i);
      if i + 1 < |bs| { assert Linked(i + 1); AllApart(bs, i, i + 1); }
      blocks := Freed(bs, i);
      hdr[b] := hdr[b].(free := true);
      var next := hdr[b].next;
      if next != 0 && hdr[next].free {
        hdr[b] := hdr[b].(size := hdr[b].size + HEADER + hdr[next].size);
        hdr[b] := hdr[b].(next := hdr[next].next);
        forall j | 0 <= j < |blocks| ensures Linked(j) {
          var k := if j <= i then j else j + 1;
          assert old(Linked(k));
          AllApart(bs, i, k);
          if k + 1 < |bs| { AllApart(bs, i, k + 1); }
        }
      } else {
        forall j | 0 <= j < |blocks| ensures Linked(j) {
          assert old(Linked(j));
          AllApart(bs, i, j);
        }
      }
    }

    /** What an owner writes in its block is not the heap's: not even where headers used to be. */
    method OwnerWrites(ghost i: nat, g: nat, junk: Header)
      requires Valid() && i < |blocks| && !blocks[i].free && blocks[i].at < g < End(blocks[i])
      modifies hdr
      ensures Valid()
    {
      Apart(blocks, i, i);
      hdr[g] := junk;
      forall j | 0 <= j < |blocks| ensures Linked(j) {
        Apart(blocks, i, j);
        Apart(blocks, j, i);
        assert old(Linked(j));
      }
    }

    /** Any run of kmalloc, and of kfree of what it gave: the blocks still tile the area, and the live ones are exactly
        those given out and not given back. */
    method Run(ops: seq<Op>) returns (owned: map<nat, nat>)
      requires Valid() && Owns(blocks, map[]) && forall op :: op in ops && op.Malloc? ==> op.size < WORD
      modifies this, hdr
      ensures Valid() && Owns(blocks, owned) && Bytes(blocks) == HEAP_SIZE
    {
      hide Tiles, Live, Taken, Freed;
      owned := map[];
      var k := 0;
      while k < |ops|
        invariant 0 <= k <= |ops| && Valid() && Owns(blocks, owned)
      {
        ghost var bs := blocks;
        match ops[k] {
          case Malloc(size) =>
            var p;
            ghost var i;
            p, i := Kmalloc(size);
            if p != 0 {
              ghost var r := Round(size);
              RoundHolds(size);
              OwnsMore(bs, i, r, owned);
              TakenAt(bs, i, r);
              assert Linked(i);
              var usable := hdr[p - 1].size;
              owned := owned[p := usable];
            }
          case Release(p) =>
            if p in owned {
              ghost var i := BlockOf(bs, p, owned[p]);
              Kfree(p, i);
              OwnsLess(bs, i, owned);
              owned := owned - {p};
            }
        }
        k := k + 1;
      }
      BytesConserved(blocks);
    }
  }

  /** A program allocates, or gives back an address it has. */
  datatype Op = Malloc(size: nat) | Release(p: nat)

  ghost predicate Owns(bs: seq<Block>, owned: map<nat, nat>) {
    forall p: nat, size: nat :: Live(bs, p, size) <==> p in owned && owned[p] == size
  }

  lemma TakenAt(bs: seq<Block>, i: nat, r: nat)
    requires i < |bs| && bs[i].size >= r
    ensures i < |Taken(bs, i, r)| && Taken(bs, i, r)[i].at == bs[i].at
    ensures Taken(bs, i, r)[i].size == if bs[i].size >= r + HEADER + 16 then r else bs[i].size
  {
  }

  lemma OwnsMore(bs: seq<Block>, i: nat, r: nat, owned: map<nat, nat>)
    requires Tiles(bs) && i < |bs| && bs[i].free && bs[i].size >= r && r % HEADER == 0 && Owns(bs, owned)
    ensures Owns(Taken(bs, i, r), owned[bs[i].at + 1 := if bs[i].size >= r + HEADER + 16 then r else bs[i].size])
  {
    hide Tiles, Live, Taken;
    var t, at := Taken(bs, i, r), bs[i].at + 1;
    var owned' := owned[at := if bs[i].size >= r + HEADER + 16 then r else bs[i].size];
    forall p: nat, size: nat ensures Live(t, p, size) <==> p in owned' && owned'[p] == size {
      TakenLive(bs, i, r, p, size);
      FreeIsNotLive(bs, i, size);
    }
  }

  lemma OwnsLess(bs: seq<Block>, i: nat, owned: map<nat, nat>)
    requires Tiles(bs) && i < |bs| && Owns(bs, owned)
    ensures Owns(Freed(bs, i), owned - {bs[i].at + 1})
  {
    hide Tiles, Live, Freed;
    var t, owned' := Freed(bs, i), owned - {bs[i].at + 1};
    forall p: nat, size: nat ensures Live(t, p, size) <==> p in owned' && owned'[p] == size {
      FreedLive(bs, i, p, size);
    }
  }

  ghost function BlockOf(bs: seq<Block>, p: nat, size: nat): (i: nat)
    requires Live(bs, p, size)
    ensures i < |bs| && bs[i].at + 1 == p
  {
    var i: nat :| i < |bs| && IsLive(bs[i], p, size);
    i
  }

  lemma Inside(bs: seq<Block>, i: nat)
    requires Tiles(bs) && i < |bs|
    ensures End(bs[i]) <= GRANULES && bs[i].size % HEADER == 0
  {
    Apart(bs, i, i);
  }

  lemma AllApart(bs: seq<Block>, i: nat, j: nat)
    requires Tiles(bs) && i < |bs| && j < |bs|
    ensures i != j ==> bs[i].at != bs[j].at && (bs[j].at < bs[i].at || End(bs[i]) <= bs[j].at)
    ensures i < j ==> bs[j].at != 0
  {
    Apart(bs, i, j);
    Apart(bs, j, i);
  }
}
