/** Listing a directory of the tree archive: its subdirectories are told only by the paths of the files in them. */
module TreeListing {
  import opened Bytes
  import opened Listing

  // ---- paths -------------------------------------------------------------------------------------------------

  /** What every path below a directory begins with; the root is the empty path. */
  function Base(dir: CString): CString { if dir == [] then [] else dir + [SLASH] }

  predicate Under(path: CString, dir: CString) { Base(dir) <= path }

  function Rem(path: CString, dir: CString): CString
    requires Under(path, dir)
  {
    path[|Base(dir)|..]
  }

  /** The first segment. */
  function Seg(rem: CString): (s: CString)
    ensures s <= rem && SLASH !in s
    ensures |s| < |rem| ==> rem[|s|] == SLASH
  {
    if rem == [] || rem[0] == SLASH then [] else [rem[0]] + Seg(rem[1..])
  }

  predicate Deeper(rem: CString) { |Seg(rem)| < |rem| }

  /** The path is of a file somewhere in subdirectory s of the directory. */
  predicate InSub(path: CString, dir: CString, s: CString) { SLASH !in s && Base(dir) + s + [SLASH] <= path }

  lemma {:induction false} SegUnique(rem: CString, s: CString)
    requires s <= rem && SLASH !in s && (|s| < |rem| ==> rem[|s|] == SLASH)
    ensures Seg(rem) == s
    decreases |s|
  {
    if s != [] {
      assert rem[0] == s[0] && s[0] in s;
      SegUnique(rem[1..], s[1..]);
      assert s == [s[0]] + s[1..];
    }
  }

  lemma InSubSeg(path: CString, dir: CString, s: CString)
    ensures InSub(path, dir, s) <==> Under(path, dir) && Deeper(Rem(path, dir)) && Seg(Rem(path, dir)) == s
  {
    var b := Base(dir);
    if InSub(path, dir, s) {
      assert path[..|b| + |s| + 1] == b + s + [SLASH];
      assert path[..|b|] == b;
      var rem := Rem(path, dir);
      assert rem[..|s|] == s && rem[|s|] == SLASH;
      SegUnique(rem, s);
    }
    if Under(path, dir) && Deeper(Rem(path, dir)) && Seg(Rem(path, dir)) == s {
      var rem := Rem(path, dir);
      assert path == b + rem && rem[..|s|] == s;
      assert path[..|b| + |s| + 1] == b + s + [SLASH];
    }
  }

  // ---- order -------------------------------------------------------------------------------------------------

  predicate Precedes(a: seq<byte>, b: seq<byte>) {
    b != [] && (a == [] || a[0] < b[0] || (a[0] == b[0] && Precedes(a[1..], b[1..])))
  }

  /** What two paths begin with, so does everything between them. */
  lemma {:induction false} Between(a: seq<byte>, b: seq<byte>, c: seq<byte>, p: seq<byte>)
    requires Precedes(a, b) && Precedes(b, c) && p <= a && p <= c
    ensures p <= b
    decreases |p|
  {
    if p != [] {
      assert a[0] == p[0] && c[0] == p[0] && b[0] == p[0];
      Between(a[1..], b[1..], c[1..], p[1..]);
      assert b == [b[0]] + b[1..] && p == [p[0]] + p[1..];
    }
  }

  lemma {:induction false} Irreflexive(a: seq<byte>)
    ensures !Precedes(a, a)
  {
    if a != [] { Irreflexive(a[1..]); }
  }

  /** Paths in order, with no empty segment, and no file above another. */
  predicate Clean(p: CString) {
    p != [] && p[0] != SLASH && forall i :: 0 <= i < |p| && p[i] == SLASH ==> i + 1 < |p| && p[i + 1] != SLASH
  }

  predicate Tree(paths: seq<CString>) {
    && (forall i, j :: 0 <= i < j < |paths| ==> Precedes(paths[i], paths[j]))
    && (forall i :: 0 <= i < |paths| ==> Clean(paths[i]))
    && (forall i, j :: 0 <= i < |paths| && 0 <= j < |paths| ==> !(paths[i] + [SLASH] <= paths[j]))
  }

  // ---- the scan ----------------------------------------------------------------------------------------------

  /** What the scan has so far: the children, and the last subdirectory it listed. */
  datatype Scan = Scan(items: seq<Item>, prev: CString)

  function ScanOne(s: Scan, path: CString, dir: CString): Scan {
    if !Under(path, dir) then s
    else
      var rem := Rem(path, dir);
      var name := Seg(rem);
      if !Deeper(rem) then s.(items := s.items + [Item(name, false)])
      else if s.prev != [] && s.prev == name then s
      else Scan(s.items + [Item(name, true)], name)
  }

  function Scanned(paths: seq<CString>, dir: CString, n: nat): Scan
    requires n <= |paths|
  {
    if n == 0 then Scan([], []) else ScanOne(Scanned(paths, dir, n - 1), paths[n - 1], dir)
  }

  /** A child of the directory among the first n paths: a file directly in it, or a subdirectory with a file below. */
  ghost predicate IsChildOf(paths: seq<CString>, dir: CString, n: nat, item: Item)
    requires n <= |paths|
  {
    if item.isDir then exists i :: 0 <= i < n && InSub(paths[i], dir, item.name)
    else SLASH !in item.name && exists i :: 0 <= i < n && paths[i] == Base(dir) + item.name
  }

  /** While a subdirectory's files are being passed, it is the one listed last. */
  lemma Passing(paths: seq<CString>, dir: CString, n: nat, s: CString)
    requires 0 < n <= |paths| && s != [] && InSub(paths[n - 1], dir, s)
    ensures Scanned(paths, dir, n).prev == s
  {
    InSubSeg(paths[n - 1], dir, s);
  }

  lemma SegNotEmpty(path: CString, dir: CString)
    requires Clean(path) && Under(path, dir)
    ensures Rem(path, dir) != [] && Seg(Rem(path, dir)) != []
  {
    var b := Base(dir);
    if dir != [] {
      assert path[|b| - 1] == b[|b| - 1] == SLASH;
    }
  }

  /** A subdirectory met before and met again was met just before: the files in it are next to each other. */
  lemma MetJustBefore(paths: seq<CString>, dir: CString, n: nat, s: CString, i: nat)
    requires Tree(paths) && 0 < n <= |paths| && i < n - 1 && InSub(paths[i], dir, s) && InSub(paths[n - 1], dir, s)
    requires s != []
    ensures Scanned(paths, dir, n - 1).prev == s
  {
    var p := Base(dir) + s + [SLASH];
    if i < n - 2 { Between(paths[i], paths[n - 2], paths[n - 1], p); }
    Passing(paths, dir, n - 1, s);
  }

  /** A name is not both a file's and a directory's. */
  lemma NotBoth(paths: seq<CString>, dir: CString, name: CString, i: nat, j: nat)
    requires Tree(paths) && i < |paths| && j < |paths| && InSub(paths[j], dir, name)
    ensures paths[i] != Base(dir) + name
  {
    assert !(paths[i] + [SLASH] <= paths[j]);
  }

  /** The list tells the children exactly: each file and each subdirectory, */
  lemma {:induction false} ListsChildren(paths: seq<CString>, dir: CString, n: nat, item: Item)
    requires Tree(paths) && n <= |paths|
    ensures item in Scanned(paths, dir, n).items <==> IsChildOf(paths, dir, n, item)
  {
    if n > 0 {
      ListsChildren(paths, dir, n - 1, item);
      OneMore(paths, dir, n, item);
      ScanMore(paths, dir, n, item);
    }
  }

  /** What the n-th path makes a child. */
  ghost predicate Adds(path: CString, dir: CString, item: Item) {
    if item.isDir then InSub(path, dir, item.name) else SLASH !in item.name && path == Base(dir) + item.name
  }

  lemma OneMore(paths: seq<CString>, dir: CString, n: nat, item: Item)
    requires 0 < n <= |paths|
    ensures IsChildOf(paths, dir, n, item) <==> IsChildOf(paths, dir, n - 1, item) || Adds(paths[n - 1], dir, item)
  {
  }

  lemma ScanMore(paths: seq<CString>, dir: CString, n: nat, item: Item)
    requires Tree(paths) && 0 < n <= |paths|
    ensures item in Scanned(paths, dir, n).items <==>
              item in Scanned(paths, dir, n - 1).items || Adds(paths[n - 1], dir, item)
  {
    var path := paths[n - 1];
    var s := Scanned(paths, dir, n - 1);
    InSubSeg(path, dir, item.name);
    if Under(path, dir) {
      SegNotEmpty(path, dir);
      AddsIs(path, dir, item);
      if Deeper(Rem(path, dir)) && s.prev == Seg(Rem(path, dir)) {
        PrevListed(paths, dir, n - 1);
      }
    } else {
      NotUnder(path, dir, item);
    }
  }

  lemma NotUnder(path: CString, dir: CString, item: Item)
    requires !Under(path, dir)
    ensures !Adds(path, dir, item)
  {
    var b := Base(dir);
    assert b <= b + item.name && b <= b + item.name + [SLASH];
    InSubSeg(path, dir, item.name);
  }

  lemma AddsIs(path: CString, dir: CString, item: Item)
    requires Under(path, dir)
    ensures Adds(path, dir, item) <==> item == Item(Seg(Rem(path, dir)), Deeper(Rem(path, dir)))
  {
    InSubSeg(path, dir, item.name);
    var rem := Rem(path, dir);
    assert path == Base(dir) + rem;
    if !item.isDir {
      if SLASH !in item.name && path == Base(dir) + item.name {
        assert rem == item.name;
        SegUnique(rem, item.name);
      }
      if !Deeper(rem) {
        assert Seg(rem) == rem;
      }
    }
  }

  lemma {:induction false} PrevListed(paths: seq<CString>, dir: CString, n: nat)
    requires n <= |paths|
    ensures var s := Scanned(paths, dir, n); s.prev != [] ==> Item(s.prev, true) in s.items
  {
    if n > 0 { PrevListed(paths, dir, n - 1); }
  }

  /** and each once: remembering the last subdirectory is enough, because the paths are in order. */
  lemma {:induction false} ListsOnce(paths: seq<CString>, dir: CString, n: nat)
    requires Tree(paths) && n <= |paths|
    ensures Distinct(Scanned(paths, dir, n).items)
  {
    if n > 0 {
      ListsOnce(paths, dir, n - 1);
      var s, path := Scanned(paths, dir, n - 1), paths[n - 1];
      if Under(path, dir) {
        var rem := Rem(path, dir);
        var it := Item(Seg(rem), Deeper(rem));
        SegNotEmpty(path, dir);
        if !(it.isDir && s.prev == it.name) {
          forall i | 0 <= i < |s.items| ensures s.items[i].name != it.name {
            NewName(paths, dir, n, s.items[i], it);
          }
          DistinctMore(s.items, it);
        }
      }
    }
  }

  lemma NewName(paths: seq<CString>, dir: CString, n: nat, old_: Item, it: Item)
    requires Tree(paths) && 0 < n <= |paths| && old_ in Scanned(paths, dir, n - 1).items
    requires Under(paths[n - 1], dir) && it == Item(Seg(Rem(paths[n - 1], dir)), Deeper(Rem(paths[n - 1], dir)))
    requires !(it.isDir && Scanned(paths, dir, n - 1).prev == it.name) && it.name != []
    ensures old_.name != it.name
  {
    hide Tree, InSub, Seg;
    ListsChildren(paths, dir, n - 1, old_);
    AddsIs(paths[n - 1], dir, it);
    if old_.name == it.name {
      if old_.isDir {
        var i :| 0 <= i < n - 1 && InSub(paths[i], dir, old_.name);
        if it.isDir { MetJustBefore(paths, dir, n, it.name, i); } else { NotBoth(paths, dir, it.name, n - 1, i); }
      } else {
        var i :| 0 <= i < n - 1 && paths[i] == Base(dir) + old_.name;
        if it.isDir { NotBoth(paths, dir, it.name, i, n - 1); } else { NotTwice(paths, i, n - 1); }
      }
    }
  }

  lemma NotTwice(paths: seq<CString>, i: nat, j: nat)
    requires Tree(paths) && i < j < |paths|
    ensures paths[i] != paths[j]
  {
    Irreflexive(paths[i]);
  }

  // ---- one call ----------------------------------------------------------------------------------------------

  lemma {:induction false} ScannedPrefix(paths: seq<CString>, dir: CString, n: nat, m: nat)
    requires n <= m <= |paths|
    ensures Scanned(paths, dir, n).items <= Scanned(paths, dir, m).items
    decreases m
  {
    if n < m { ScannedPrefix(paths, dir, n, m - 1); }
  }

  /** Path n, if it lists a child, lists the next of the items. */
  lemma NextListed(paths: seq<CString>, dir: CString, n: nat)
    requires n < |paths|
    ensures var items, s, t := Scanned(paths, dir, |paths|).items, Scanned(paths, dir, n), Scanned(paths, dir, n + 1);
            && t == ScanOne(s, paths[n], dir) && |s.items| <= |t.items| <= |items|
            && (|t.items| > |s.items| ==> items[|s.items|] == t.items[|s.items|] && |t.items| == |s.items| + 1)
  {
    ScannedPrefix(paths, dir, n + 1, |paths|);
    ScannedPrefix(paths, dir, n, |paths|);
  }

  /** serve_tree_getdents over the archive's paths, as the entry table gives them. */
  method TreeGetdents(paths: seq<CString>, dir: CString, cursor: nat, count: nat)
    returns (out: seq<Dirent>, written: nat, next: nat)
    ensures var items := Scanned(paths, dir, |paths|).items;
            && |out| == Fitting(items, cursor, 0, count) && Wrote(out, items, cursor)
            && next == cursor + |out| && written == Sum(out, |out|)
  {
    hide Scanned, Wrote, Fitting, RecLen, Sum, Seg;
    out, written, next := [], 0, cursor;
    ghost var items := Scanned(paths, dir, |paths|).items;
    NothingListed(paths, dir);
    var prev: CString := [];
    var childIdx, i := 0, 0;
    while i < |paths|
      invariant 0 <= i <= |paths| && childIdx == |Scanned(paths, dir, i).items| <= |items|
      invariant prev == Scanned(paths, dir, i).prev
      invariant next == cursor + |out| && (if childIdx <= cursor then out == [] else next == childIdx)
      invariant Wrote(out, items, cursor) && written == Sum(out, |out|)
      invariant Fitting(items, cursor, 0, count) == |out| + Fitting(items, next, written, count)
    {
      NextListed(paths, dir, i);
      if Under(paths[i], dir) {
        var rem := Rem(paths[i], dir);
        var name := Seg(rem);
        var isDir := |name| < |rem|;
        if !(isDir && prev != [] && prev == name) {
          if isDir { prev := name; }
          if childIdx < cursor {
            childIdx := childIdx + 1;
          } else {
            var reclen := RecLen(name);
            FitsNext(items, next, written, count);
            if written + reclen > count { return; }
            var d := Dirent(childIdx + 0x300000, written + reclen, reclen, isDir, name);
            WroteMore(out, items, cursor, d);
            out, written := out + [d], written + reclen;
            childIdx, next := childIdx + 1, next + 1;
          }
        }
      }
      i := i + 1;
    }
    NoneFit(items, next, written, count);
  }

  lemma NothingListed(paths: seq<CString>, dir: CString)
    ensures Scanned(paths, dir, 0) == Scan([], []) && forall items: seq<Item>, c: nat :: Wrote([], items, c)
    ensures Sum([], 0) == 0
  {
  }
}
