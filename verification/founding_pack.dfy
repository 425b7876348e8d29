/** Reading the founding pack back and matching it against its recorded checksum. */
module FoundingPack {
  import opened Bytes
  import opened DiskLayout
  import opened Volume
  import opened BodyfsDriver
  import opened Crc
  import opened CrcRegister
  import opened Image

  /** The checksum register over a file's bytes, sector by sector. */
  method Feed(b: Bodyfs, start: nat, n: nat) returns (ok: bool, c: bv32)
    requires b.Valid()
    modifies b.sec
    ensures ok <==> n == 0 || start + Ceil(n) <= |b.disk|
    ensures ok && n == 0 ==> c == Fed(BEGIN, [])
    ensures ok && n > 0 ==> start + Ceil(n) <= |b.disk| && c == Fed(BEGIN, FileBytes(b.disk, start, n))
  {
    hide Fed, FileBytes;
    c := BEGIN;
    FedNone();
    var got, s := 0, 0;
    while got < n
      invariant 0 <= got <= n && (got < n ==> got == 512 * s) && s == Ceil(got)
      invariant got == 0 ==> c == Fed(BEGIN, [])
      invariant got > 0 ==> start + Ceil(got) <= |b.disk| && c == Fed(BEGIN, FileBytes(b.disk, start, got))
    {
      var here := b.ReadSector(start + s);
      if !here { return false, c; }
      var take := if n - got > SECTOR_SIZE then SECTOR_SIZE else n - got;
      NextSector(b.disk, start, s, take);
      c := Crc32Feed(c, b.sec[..take]);
      got := got + take;
      s := s + 1;
    }
    return true, c;
  }

  /** fs_founding_pack_read: the length and checksum of the pack on the disk, and whether it is the recorded one. */
  method FsFoundingPackRead(b: Bodyfs) returns (ok: bool, len: nat, crc: nat, same: bool)
    requires b.Valid()
    modifies b.sec
    ensures ok <==> PackThere(b.disk, b.dir[..])
    ensures ok ==> var e := b.dir[..][Find(b.dir[..], PACK_NAME)];
                   len == e.length && crc == PackSum(b.disk, e) && (same <==> crc == e.crc32)
  {
    hide Final, Number, Fed, FileBytes, FieldName, Find;
    ok, len, crc, same := false, 0, 0, false;
    var i := b.FsFind(PACK_NAME);
    if i == MAX_ENTRIES || b.dir[i].kind != FT_PACK { return; }
    var e := b.dir[i];
    var c;
    ok, c := Feed(b, e.start, e.length);
    if !ok { return; }
    return true, e.length, Number(Final(c)), Number(Final(c)) == e.crc32;
  }

  predicate Readable(d: Disk, e: Entry) { e.length == 0 || e.start + Ceil(e.length) <= |d| }

  /** There is a pack, and the disk reaches to its end. */
  predicate PackThere(d: Disk, dir: seq<Entry>) {
    var i := Find(dir, PACK_NAME);
    i < |dir| && dir[i].kind == FT_PACK && Readable(d, dir[i])
  }

  function PackSum(d: Disk, e: Entry): u32
    requires Readable(d, e)
  {
    Crc32(if e.length == 0 then [] else FileBytes(d, e.start, e.length))
  }

  lemma FedNone()
    ensures Fed(BEGIN, []) == BEGIN
  {
  }

  /** One more sector of a file. */
  lemma NextSector(d: Disk, start: nat, s: nat, take: nat)
    requires start + s < |d| && 0 < take <= SECTOR_SIZE
    ensures Ceil(512 * s + take) == s + 1 && Ceil(512 * s) == s
    ensures FileBytes(d, start, 512 * s + take) == FileBytes(d, start, 512 * s) + d[start + s][..take]
    ensures Fed(BEGIN, FileBytes(d, start, 512 * s + take))
              == Fed(Fed(BEGIN, FileBytes(d, start, 512 * s)), d[start + s][..take])
    ensures s == 0 ==> FileBytes(d, start, 512 * s) == []
  {
    hide Fed;
    FedConcat(BEGIN, FileBytes(d, start, 512 * s), d[start + s][..take]);
  }

  /** The pack of a built image matches. */
  lemma BuiltPackMatches(pack: seq<byte>, staged: seq<Staged>)
    requires Buildable(pack, staged)
    ensures var e := Slot(pack, staged, 1);
            e.kind == FT_PACK && Readable(Printed(pack, staged), e) && PackSum(Printed(pack, staged), e) == e.crc32
  {
    hide Crc32, Printed;
    PackInPlace(pack, staged);
  }

  /** It is the entry a lookup finds on the mounted image, whatever else was staged. */
  lemma PackIsFound(pack: seq<byte>, staged: seq<Staged>)
    requires Buildable(pack, staged)
    ensures Find(Mounted(Printed(pack, staged)).dir, PACK_NAME) == 1
    ensures Mounted(Printed(pack, staged)).dir[1] == Slot(pack, staged, 1)
  {
    hide Crc32, Printed, Mounted, FieldName, Slot, FileOf;
    FirstFound(pack, staged, 1);
  }

  /** And no longer does if any one byte of it changes. */
  lemma TamperedPackDiffers(pack: seq<byte>, staged: seq<Staged>, d: Disk, i: nat, x: byte)
    requires Buildable(pack, staged) && |d| == TOTAL && i < |pack| && x != pack[i]
    requires forall k :: 0 <= k < |pack| ==>
               PACK_START + k / 512 < |d| && d[PACK_START + k / 512][k % 512] == if k == i then x else pack[k]
    ensures var e := Slot(pack, staged, 1); Readable(d, e) && PackSum(d, e) != e.crc32
  {
    hide Crc32;
    PackSize(pack, staged);
    assert FileBytes(d, PACK_START, |pack|) == pack[i := x];
    OneByteChanges(pack, i, x);
  }
}
