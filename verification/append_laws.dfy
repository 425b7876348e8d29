/** What the appending acts do to the bytes on disk, completely and after any prefix of their writes. */
module AppendLaws {
  import opened Bytes
  import opened DiskLayout
  import opened Volume
  import opened Acts

  /** Data not yet revealed: besides the superblock, a write lands in unallocated sectors, or in slot i's own
      extent at or after its last byte, keeping the bytes before that byte. */
  predicate Unrevealing(v: Vol, i: nat, sup': Super, w: Write)
    requires Growable(v, i)
  {
    var e := v.dir[i];
    var tail := e.start + e.length / 512;
    || w == PersistSuper(sup')
    || v.sup.nextFree <= w.lba < |v.disk|
    || (tail <= w.lba < e.start + e.capacity
        && (w.lba == tail ==> w.data[..e.length % 512] == v.disk[tail][..e.length % 512]))
  }

  /** Nothing the directory names has changed: only the superblock may be the new one. */
  ghost predicate Hidden(v: Vol, i: nat, sup': Super, d: Disk)
    requires Growable(v, i)
  {
    var e := v.dir[i];
    && |d| == |v.disk|
    && (d[0] == v.disk[0] || d[0] == EncodeSuper(sup'))
    && (forall s :: 1 <= s < DATA_START ==> d[s] == v.disk[s])
    && (forall b: Entry :: ExtentOk(v.sup, b) && Apart(e, b) ==> SameExtent(v.disk, d, b))
    && FileBytes(d, e.start, e.length) == FileBytes(v.disk, e.start, e.length)
  }

  lemma HiddenAfter(v: Vol, i: nat, sup': Super, ws: seq<Write>)
    requires Growable(v, i) && forall w :: w in ws ==> Unrevealing(v, i, sup', w)
    ensures Hidden(v, i, sup', Apply(v.disk, ws))
  {
    var d, e := Apply(v.disk, ws), v.dir[i];
    forall s | 0 <= s < |d|
      ensures d[s] == v.disk[s] || exists w :: w in ws && w.lba == s && w.data == d[s]
    {
      LastWrite(v.disk, ws, s);
    }
    forall b: Entry | ExtentOk(v.sup, b) && Apart(e, b) ensures SameExtent(v.disk, d, b) {
    }
    forall k | 0 <= k < e.length
      ensures d[e.start + k / 512][k % 512] == v.disk[e.start + k / 512][k % 512]
    {
      var s := e.start + k / 512;
      if d[s] != v.disk[s] {
        var w :| w in ws && w.lba == s && w.data == d[s];
        assert Unrevealing(v, i, sup', w);
        assert k % 512 < e.length % 512;
        assert w.data[k % 512] == w.data[..e.length % 512][k % 512];
        assert v.disk[s][k % 512] == v.disk[s][..e.length % 512][k % 512];
      }
    }
    assert FileBytes(d, e.start, e.length) == FileBytes(v.disk, e.start, e.length);
  }

  // ---- reserving room ------------------------------------------------------------------------------

  /** The reserved extent: large enough, allocated, and clear of every other extent. */
  ghost predicate Reserved(v: Vol, i: nat, need: nat, g: Growth)
    requires Growable(v, i)
  {
    var e := v.dir[i];
    && g.e == e.(start := g.e.start, capacity := g.e.capacity)
    && g.sup == v.sup.(nextFree := g.sup.nextFree)
    && v.sup.nextFree <= g.sup.nextFree <= v.sup.totalSectors
    && need <= g.e.capacity && ExtentOk(g.sup, g.e) && DATA_START <= g.e.start + g.e.capacity
    && (if g.e.start == e.start then g.e == e || e.start + e.capacity == v.sup.nextFree
        else g.e.start == v.sup.nextFree)
    && (g.writes == [] ==> g.sup == v.sup && g.e == e)
    && forall b: Entry :: ExtentOk(v.sup, b) && Apart(e, b) ==> Apart(g.e, b)
  }

  lemma GrowReserves(v: Vol, i: nat, need: nat)
    requires Growable(v, i) && Ceil(v.dir[i].length) <= need && Grow(v, i, need).ok
    ensures Reserved(v, i, need, Grow(v, i, need))
  {
    hide EncodeSuper, Apply;
  }

  /** The writes that reserve room: the old bytes are already in the reserved extent. */
  ghost predicate Moved(v: Vol, i: nat, g: Growth)
    requires Growable(v, i)
  {
    var e, d := v.dir[i], Apply(v.disk, g.writes);
    && (forall w :: w in g.writes ==> Unrevealing(v, i, g.sup, w))
    && g.e.start + Ceil(e.length) <= |v.disk|
    && FileBytes(d, g.e.start, e.length) == FileBytes(v.disk, e.start, e.length)
    && (g.writes != [] ==> d[0] == EncodeSuper(g.sup))
  }

  lemma GrowMoves(v: Vol, i: nat, need: nat)
    requires Growable(v, i) && Ceil(v.dir[i].length) <= need && Grow(v, i, need).ok
    ensures Moved(v, i, Grow(v, i, need))
  {
    hide EncodeSuper, Apply;
    var e, g := v.dir[i], Grow(v, i, need);
    if need <= e.capacity {
      NoWrites(v.disk);
    } else if e.start + e.capacity == v.sup.nextFree {
      var w := PersistSuper(g.sup);
      SingleWrite(v.disk, w);
      assert FileBytes(Put(v.disk, w), e.start, e.length) == FileBytes(v.disk, e.start, e.length);
    } else {
      var moved := v.disk[e.start..e.start + Ceil(e.length)];
      Relocates(v.disk, e.start, v.sup.nextFree, e.length, PersistSuper(g.sup));
    }
  }

  lemma NoWrites(d: Disk)
    ensures Apply(d, []) == d
  {
  }

  lemma PutBelow(d: Disk, w: Write, start: nat, n: nat)
    requires w.lba < start && start + Ceil(n) <= |d|
    ensures FileBytes(Put(d, w), start, n) == FileBytes(d, start, n)
  {
  }

  lemma SingleWrite(d: Disk, w: Write)
    ensures Apply(d, [w]) == Put(d, w)
  {
    assert [w][..0] == [];
  }

  lemma LastApply(d: Disk, ws: seq<Write>, w: Write)
    ensures Apply(d, ws + [w]) == Put(Apply(d, ws), w)
  {
    assert (ws + [w])[..|ws|] == ws;
  }

  lemma Relocates(d: Disk, from: nat, to: nat, n: nat, w: Write)
    requires 0 < from && from + Ceil(n) <= to && to + Ceil(n) <= |d| && w.lba == 0
    ensures var d' := Apply(d, Burst(to, d[from..from + Ceil(n)]) + [w]);
            FileBytes(d', to, n) == FileBytes(d, from, n) && d'[0] == w.data
  {
    var moved := d[from..from + Ceil(n)];
    LastApply(d, Burst(to, moved), w);
    ApplyBurst(d, to, moved);
    var d' := Apply(d, Burst(to, moved) + [w]);
    assert d' == Put(Blit(d, to, moved), w);
    MovedBytes(d, d', from, to, n);
  }

  lemma MovedBytes(d: Disk, d': Disk, from: nat, to: nat, n: nat)
    requires from + Ceil(n) <= |d| && to + Ceil(n) <= |d'|
    requires d'[to..to + Ceil(n)] == d[from..from + Ceil(n)]
    ensures FileBytes(d', to, n) == FileBytes(d, from, n)
  {
    forall k | 0 <= k < n ensures d'[to + k / 512] == d[from + k / 512] {
      assert d'[to..to + Ceil(n)][k / 512] == d[from..from + Ceil(n)][k / 512];
    }
  }

  // ---- the whole append -------------------------------------------------------------------------------

  /** A completed append of n bytes to slot i, as the directory shows it. */
  ghost predicate Relinked(v: Vol, i: nat, n: nat, v': Vol)
    requires Growable(v, i)
  {
    var e := v.dir[i];
    && |v'.dir| == |v.dir|
    && v'.sup == v.sup.(nextFree := v'.sup.nextFree) && v.sup.nextFree <= v'.sup.nextFree <= v.sup.totalSectors
    && v'.dir == v.dir[i := v'.dir[i]]
    && v'.dir[i] == e.(start := v'.dir[i].start, capacity := v'.dir[i].capacity, length := v'.dir[i].length)
    && v'.dir[i].length == e.length + n
    && ExtentOk(v'.sup, v'.dir[i]) && Fits(v'.dir[i]) && DATA_START <= v'.dir[i].start + v'.dir[i].capacity
    && (forall b: Entry :: ExtentOk(v.sup, b) && Apart(e, b) ==> Apart(v'.dir[i], b))
  }

  /** A completed append of `p` to slot i, as the sectors show it. */
  ghost predicate Appended(v: Vol, i: nat, p: seq<byte>, v': Vol)
    requires Growable(v, i) && Relinked(v, i, |p|, v')
  {
    var e := v.dir[i];
    && |v'.disk| == |v.disk|
    && (forall b: Entry :: ExtentOk(v.sup, b) && Apart(e, b) ==> SameExtent(v.disk, v'.disk, b))
    && FileBytes(v'.disk, v'.dir[i].start, e.length + |p|) == FileBytes(v.disk, e.start, e.length) + p
    && (v'.disk[0] == EncodeSuper(v'.sup) || (v'.disk[0] == v.disk[0] && v'.sup == v.sup))
    && (forall s :: 1 <= s < DATA_START && s != 1 + i / 2 ==> v'.disk[s] == v.disk[s])
    && v'.disk[1 + i / 2] == DirSector(v'.dir, i)
  }

  lemma DataUnrevealing(v: Vol, i: nat, p: seq<byte>, g: Growth)
    requires Growable(v, i) && SizeOk(v.sup, |p|)
    requires Reserved(v, i, Ceil(v.dir[i].length + |p|), g) && Moved(v, i, g)
    ensures forall w :: w in DataWrites(v, i, p, g) ==> Unrevealing(v, i, g.sup, w)
  {
    hide EncodeSuper, Apply;
    var e, n := v.dir[i], v.dir[i].length;
    var d := Apply(v.disk, g.writes);
    var secs := TailSectors(d, g.e.start, n, p);
    forall j | 0 <= j < |secs| ensures Unrevealing(v, i, g.sup, Write(g.e.start + n / 512 + j, secs[j])) {
      if j == 0 && g.e.start == e.start && n % 512 != 0 {
        SameTail(v, i, g, d);
        assert secs[0] == TailSector(d, g.e.start, n, p, n / 512);
        assert secs[0][..n % 512] == d[e.start + n / 512][..n % 512];
      }
    }
  }

  /** The data writes of an append leave the old bytes, then p, through the read-modify-write of the tail sector. */
  lemma DataLands(v: Vol, i: nat, p: seq<byte>, g: Growth)
    requires Growable(v, i) && SizeOk(v.sup, |p|)
    requires Reserved(v, i, Ceil(v.dir[i].length + |p|), g) && Moved(v, i, g)
    ensures var e := v.dir[i];
            var d := Apply(v.disk, g.writes + DataWrites(v, i, p, g));
            && FileBytes(d, g.e.start, e.length + |p|) == FileBytes(v.disk, e.start, e.length) + p
            && d[0] == Apply(v.disk, g.writes)[0]
  {
    hide EncodeSuper, TailSectors, Apply;
    ApplyConcat(v.disk, g.writes, DataWrites(v, i, p, g));
    TailBytes(Apply(v.disk, g.writes), g.e.start, v.dir[i].length, p);
  }

  lemma SameTail(v: Vol, i: nat, g: Growth, d: Disk)
    requires Growable(v, i) && |d| == |v.disk|
    requires g.e.start == v.dir[i].start && v.dir[i].length % 512 != 0
    requires FileBytes(d, g.e.start, v.dir[i].length) == FileBytes(v.disk, v.dir[i].start, v.dir[i].length)
    ensures var n := v.dir[i].length;
            d[g.e.start + n / 512][..n % 512] == v.disk[g.e.start + n / 512][..n % 512]
  {
    var n := v.dir[i].length;
    var s := g.e.start + n / 512;
    forall j | 0 <= j < n % 512 ensures d[s][j] == v.disk[s][j] {
      var k := n / 512 * 512 + j;
      assert k / 512 == n / 512 && k % 512 == j;
      assert FileBytes(d, g.e.start, n)[k] == FileBytes(v.disk, g.e.start, n)[k];
    }
  }

  lemma TailBytes(d: Disk, start: nat, off: nat, p: seq<byte>)
    requires 0 < start && start + Ceil(off + |p|) <= |d|
    ensures var d' := Apply(d, Burst(start + off / 512, TailSectors(d, start, off, p)));
            FileBytes(d', start, off + |p|) == FileBytes(d, start, off) + p && d'[0] == d[0]
  {
    hide Apply, FileBytes, TailSectors;
    ApplyBurst(d, start + off / 512, TailSectors(d, start, off, p));
    TailBlit(d, start, off, p);
  }

  lemma TailBlit(d: Disk, start: nat, off: nat, p: seq<byte>)
    requires start + Ceil(off + |p|) <= |d|
    ensures FileBytes(Blit(d, start + off / 512, TailSectors(d, start, off, p)), start, off + |p|)
            == FileBytes(d, start, off) + p
  {
    var secs := TailSectors(d, start, off, p);
    var d' := Blit(d, start + off / 512, secs);
    forall k | 0 <= k < off + |p|
      ensures d'[start + k / 512][k % 512] == if k < off then d[start + k / 512][k % 512] else p[k - off]
    {
      var s := k / 512;
      assert 512 * s + k % 512 == k;
      if p != [] && off / 512 <= s {
        assert d'[start + s] == secs[s - off / 512] == TailSector(d, start, off, p, s);
      }
    }
    assert FileBytes(d', start, off + |p|) == FileBytes(d, start, off) + p;
  }

  /** An append's writes, split at the one that reveals it. */
  lemma ExtendSplit(v: Vol, i: nat, p: seq<byte>) returns (g: Growth, ws: seq<Write>)
    requires Growable(v, i) && SizeOk(v.sup, |p|) && Extend(v, i, p).out == Done
    ensures g == Grow(v, i, Ceil(v.dir[i].length + |p|)) && g.ok
    ensures Reserved(v, i, Ceil(v.dir[i].length + |p|), g) && Moved(v, i, g)
    ensures ws == g.writes + DataWrites(v, i, p, g)
    ensures Extend(v, i, p).writes == ws + [PersistEntry(g.sup, Extend(v, i, p).dir, i)]
    ensures forall w :: w in ws ==> Unrevealing(v, i, g.sup, w)
  {
    hide EncodeSuper, Apply;
    g := Grow(v, i, Ceil(v.dir[i].length + |p|));
    GrowReserves(v, i, Ceil(v.dir[i].length + |p|));
    GrowMoves(v, i, Ceil(v.dir[i].length + |p|));
    DataUnrevealing(v, i, p, g);
    ws := g.writes + DataWrites(v, i, p, g);
  }

  lemma ExtendRelinks(v: Vol, i: nat, p: seq<byte>)
    requires Growable(v, i) && SizeOk(v.sup, |p|) && Extend(v, i, p).out == Done
    ensures Relinked(v, i, |p|, After(v, Extend(v, i, p)))
  {
    hide EncodeSuper, EncodeEntry, Apply, DataWrites;
    GrowReserves(v, i, Ceil(v.dir[i].length + |p|));
  }

  /** An append that finds room appends, and no other file, slot or directory sector changes. */
  lemma ExtendAppends(v: Vol, i: nat, p: seq<byte>)
    requires Growable(v, i) && SizeOk(v.sup, |p|) && Extend(v, i, p).out == Done
    ensures Relinked(v, i, |p|, After(v, Extend(v, i, p)))
    ensures Appended(v, i, p, After(v, Extend(v, i, p)))
  {
    hide EncodeSuper, EncodeEntry, Apply, DataWrites, DirSector, FileBytes;
    var e, ef := v.dir[i], Extend(v, i, p);
    ExtendRelinks(v, i, p);
    var g, ws := ExtendSplit(v, i, p);
    DataLands(v, i, p, g);
    HiddenAfter(v, i, g.sup, ws);
    var last := PersistEntry(g.sup, ef.dir, i);
    var d1, d2 := Apply(v.disk, ws), Apply(v.disk, ef.writes);
    LastApply(v.disk, ws, last);
    PutBelow(d1, last, g.e.start, e.length + |p|);
    forall b: Entry | ExtentOk(v.sup, b) && Apart(e, b) ensures SameExtent(v.disk, d2, b) {
      assert SameExtent(v.disk, d1, b);
    }
  }

  /** Before its last write an append has revealed nothing. */
  lemma ExtendHidden(v: Vol, i: nat, p: seq<byte>, k: nat)
    requires Growable(v, i) && SizeOk(v.sup, |p|)
    requires k < |Extend(v, i, p).writes|
    ensures Hidden(v, i, Extend(v, i, p).sup, Apply(v.disk, Extend(v, i, p).writes[..k]))
  {
    hide EncodeSuper, EncodeEntry, Apply;
    var g, ws := ExtendSplit(v, i, p);
    assert Extend(v, i, p).writes[..k] == ws[..k];
    HiddenAfter(v, i, g.sup, ws[..k]);
  }
}
