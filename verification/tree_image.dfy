/** The tree archive in the image: the body looks it up by name, opens a path in it and hands out a descriptor. */
module TreeImage {
  import opened Bytes
  import opened DiskLayout
  import opened Volume
  import opened Acts
  import opened BodyfsDriver
  import opened TreeArchive
  import opened Image

  const SI_FD_BASE: nat := 16
  const SI_MAX_FD: nat := 1024

  /** The ASCII bytes of "govtree". */
  const TREE_NAME: seq<byte> := [103, 111, 118, 116, 114, 101, 101]

  /** What the body finds for a path: nothing if no archive is staged, else what an open in it answers. */
  ghost predicate Served(d: Disk, dir: seq<Entry>, want: CString, r: Opened) {
    var i := Find(dir, TREE_NAME);
    if i == |dir| then r.NoTree? else Answers(d, dir[i].start, want, r)
  }

  /** The first descriptor not in use, or their number. */
  function FirstFree(used: seq<bool>): (i: nat)
    ensures i <= |used| && (i < |used| ==> !used[i]) && forall j :: 0 <= j < i ==> used[j]
  {
    if used == [] || !used[0] then 0 else 1 + FirstFree(used[1..])
  }

  method FdAlloc(used: array<bool>) returns (fd: int)
    modifies used
    ensures var i := FirstFree(old(used[..]));
            if i == used.Length then fd == -1 && used[..] == old(used[..])
            else fd == SI_FD_BASE + i && used[..] == old(used[..])[i := true]
  {
    var i := 0;
    while i < used.Length
      invariant 0 <= i <= used.Length && used[..] == old(used[..])
      invariant forall j :: 0 <= j < i ==> used[j]
    {
      if !used[i] {
        used[i] := true;
        return SI_FD_BASE + i;
      }
      i := i + 1;
    }
    return -1;
  }

  /** serve_tree_open: a descriptor for the first file of that path; -2 if the archive has none; -1 if there is no
      archive to scan, or no descriptor left. */
  method ServeTreeOpen(b: Bodyfs, t: TreeReader, used: array<bool>, want: CString) returns (fd: int, r: Opened)
    requires b.Valid() && t.Valid() && used.Length == SI_MAX_FD
    modifies t.scan, used
    ensures Served(b.disk, b.dir[..], want, r)
    ensures var i := FirstFree(old(used[..]));
            && fd == (if r.Absent? then -2 else if r.NoTree? || i == SI_MAX_FD then -1 else SI_FD_BASE + i)
            && used[..] == if fd < 0 then old(used[..]) else old(used[..])[i := true]
  {
    hide FirstFree, Answers;
    fd, r := -1, NoTree;
    var i := b.FsFind(TREE_NAME);
    if i == MAX_ENTRIES { return; }
    r := t.Open(b.disk, b.dir[i].start, want);
    if r.Absent? { return -2, r; }
    if r.Opened? {
      fd := FdAlloc(used);
    }
  }

  /** On a mounted image the lookup finds the archive where the builder staged it, whatever else was staged after it:
      every file of a printable tree opens by its path and reads back byte for byte, and any other path that fits the
      field is absent. */
  lemma TreeInImage(pack: seq<byte>, staged: seq<Staged>, k: nat, files: seq<TreeFile>, want: CString, r: Opened)
    requires Buildable(pack, staged) && k < |staged| && Printable(files) && staged[k].data == Archive(files)
    requires staged[k].name == TREE_NAME && forall j :: 0 <= j < k ==> staged[j].name != TREE_NAME
    requires |want| <= TREE_PATH_MAX && Served(Printed(pack, staged), Mounted(Printed(pack, staged)).dir, want, r)
    ensures !r.NoTree?
    ensures r.Absent? <==> forall i :: 0 <= i < |files| ==> files[i].path != want
    ensures r.Opened? ==>
              && r.index < |files| && files[r.index].path == want && r.len == |files[r.index].data|
              && r.base + r.len <= SECTOR_SIZE * TOTAL
              && DiskBytes(Printed(pack, staged), r.base, r.len) == files[r.index].data
  {
    hide Printed, Answers, Archive, Offset, Mounted, Slot, FileOf;
    var d, start := Printed(pack, staged), Cursor(pack, staged, k);
    TreeFound(pack, staged, k);
    BlobCarried(pack, staged, k);
    OpenAgrees(d, start, files, want, r);
    if r.Opened? {
      BytesAgree(d, start, files, r.index, 0, r.len);
      assert files[r.index].data[0..0 + r.len] == files[r.index].data;
    }
  }

  lemma TreeFound(pack: seq<byte>, staged: seq<Staged>, k: nat)
    requires Buildable(pack, staged) && k < |staged|
    requires staged[k].name == TREE_NAME && forall j :: 0 <= j < k ==> staged[j].name != TREE_NAME
    ensures var dir := Mounted(Printed(pack, staged)).dir;
            Find(dir, TREE_NAME) == k + 2 < |dir| && dir[k + 2].start == Cursor(pack, staged, k)
  {
    hide Printed, Mounted, FileOf, FieldName, NameField;
    forall j | 0 <= j < k + 2 ensures SlotName(staged, j) != TREE_NAME {
      assert |RECORD_NAME| != |TREE_NAME| && |PACK_NAME| != |TREE_NAME|;
    }
    FirstFound(pack, staged, k + 2);
  }

  lemma BlobCarried(pack: seq<byte>, staged: seq<Staged>, k: nat)
    requires Buildable(pack, staged) && k < |staged| && |staged[k].data| % SECTOR_SIZE == 0
    ensures Carries(Printed(pack, staged), Cursor(pack, staged, k), staged[k].data)
  {
    hide Printed;
    BlobInPlace(pack, staged, k);
    var d, c, a := Printed(pack, staged), Cursor(pack, staged, k), staged[k].data;
    assert Ceil(|a|) == |a| / SECTOR_SIZE;
    forall i | 0 <= i < |a| ensures d[c + i / 512][i % 512] == a[i] {
      assert FileBytes(d, c, |a|)[i] == a[i];
    }
  }
}
