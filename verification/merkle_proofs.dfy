/** Audit paths: one leaf under a root, proved by the siblings on the way up. */
module MerkleProofs {
  import opened MerkleTree
  import opened MerkleBinding
  import opened Wrappers

  datatype Level = Level(name: string, own: Val, siblings: seq<(string, Val)>)
  datatype Proof = Proof(leaf: string, leafHash: Val, path: seq<Level>, scheme: nat)

  // ---- sorting pairs ---------------------------------------------------------------------------------------

  /** Into its place after every name that is not greater, as a stable sort leaves it. */
  function Insort(s: seq<(string, Val)>, x: (string, Val)): seq<(string, Val)> {
    if s == [] then [x]
    else if Less(x.0, s[0].0) then [x] + s
    else [s[0]] + Insort(s[1..], x)
  }

  function SortPairs(s: seq<(string, Val)>): seq<(string, Val)> {
    if s == [] then [] else Insort(SortPairs(s[..|s| - 1]), s[|s| - 1])
  }

  predicate Rising(s: seq<(string, Val)>) { forall i, j :: 0 <= i < j < |s| ==> Less(s[i].0, s[j].0) }

  lemma {:induction false} InsortHas(s: seq<(string, Val)>, x: (string, Val))
    ensures x in Insort(s, x) && |Insort(s, x)| == |s| + 1
  {
    if s != [] && !Less(x.0, s[0].0) { InsortHas(s[1..], x); }
  }

  lemma SortHas(s: seq<(string, Val)>, x: (string, Val))
    ensures x in SortPairs(s + [x])
  {
    assert (s + [x])[..|s|] == s;
    InsortHas(SortPairs(s), x);
  }

  lemma {:induction false} InsortEnd(s: seq<(string, Val)>, x: (string, Val))
    requires forall i :: 0 <= i < |s| ==> !Less(x.0, s[i].0)
    ensures Insort(s, x) == s + [x]
  {
    if s != [] {
      InsortEnd(s[1..], x);
      assert [s[0]] + (s[1..] + [x]) == s + [x];
    }
  }

  lemma {:induction false} RisingSorts(s: seq<(string, Val)>)
    requires Rising(s)
    ensures SortPairs(s) == s
  {
    hide Less, Insort;
    if s != [] {
      var n := |s| - 1;
      assert Rising(s[..n]);
      RisingSorts(s[..n]);
      forall i | 0 <= i < n ensures !Less(s[n].0, s[..n][i].0) { LessTotal(s[i].0, s[n].0); }
      InsortEnd(s[..n], s[n]);
    }
  }

  /** Taking a pair out of a sorted list and inserting it again. */
  lemma {:induction false} InsortBack(a: seq<(string, Val)>, x: (string, Val), b: seq<(string, Val)>)
    requires Rising(a + [x] + b)
    ensures Insort(a + b, x) == a + [x] + b
    decreases |a|
  {
    var s := a + [x] + b;
    if a == [] {
      if b != [] { assert s[0] == x && s[1] == b[0] && Less(s[0].0, s[1].0); }
      assert a + b == b && [x] + b == a + [x] + b;
    } else {
      assert s[0] == a[0] && s[|a|] == x && Less(s[0].0, s[|a|].0);
      LessTotal(a[0].0, x.0);
      assert s[1..] == a[1..] + [x] + b;
      assert Rising(a[1..] + [x] + b) by {
        forall i, j | 0 <= i < j < |s[1..]| ensures Less(s[1..][i].0, s[1..][j].0) {
          assert s[1..][i] == s[i + 1] && s[1..][j] == s[j + 1];
        }
      }
      InsortBack(a[1..], x, b);
      assert (a + b)[0] == a[0] && (a + b)[1..] == a[1..] + b;
    }
  }

  // ---- the pairs of a directory ----------------------------------------------------------------------------

  function Pairs(kids: Kids, scheme: nat): seq<(string, Val)> {
    match kids
    case End => []
    case Kid(name, node, next) => [(name, Hash(node, scheme))] + Pairs(next, scheme)
  }

  function AsVals(s: seq<(string, Val)>): (r: seq<Val>)
    ensures |r| == |s| && forall i :: 0 <= i < |s| ==> r[i] == PairVal(s[i].0, s[i].1)
  {
    seq(|s|, i requires 0 <= i < |s| => PairVal(s[i].0, s[i].1))
  }

  lemma {:induction false} PairsAsVals(kids: Kids, scheme: nat)
    ensures AsVals(Pairs(kids, scheme)) == PairVals(kids, scheme)
  {
    if kids.Kid? {
      PairsAsVals(kids.next, scheme);
      assert AsVals(Pairs(kids, scheme))
          == [PairVal(kids.name, Hash(kids.node, scheme))] + AsVals(Pairs(kids.next, scheme));
    }
  }

  lemma AsValsBind(s: seq<(string, Val)>, t: seq<(string, Val)>)
    requires AsVals(s) == AsVals(t)
    ensures s == t
  {
    forall i | 0 <= i < |s| ensures s[i] == t[i] {
      assert AsVals(s)[i] == AsVals(t)[i];
      assert [Str(s[i].0), s[i].1][0] == [Str(t[i].0), t[i].1][0];
      assert [Str(s[i].0), s[i].1][1] == [Str(t[i].0), t[i].1][1];
    }
  }

  lemma {:induction false} PairsRise(kids: Kids, scheme: nat)
    requires InOrder(kids)
    ensures Rising(Pairs(kids, scheme))
    ensures forall low: string, i :: Above(low, kids) && 0 <= i < |Pairs(kids, scheme)| ==>
              Less(low, Pairs(kids, scheme)[i].0)
  {
    if kids.Kid? {
      PairsRise(kids.next, scheme);
      forall low: string, i | Above(low, kids) && 0 <= i < |Pairs(kids, scheme)|
        ensures Less(low, Pairs(kids, scheme)[i].0)
      {
        if i > 0 { LessTrans(low, kids.name, Pairs(kids.next, scheme)[i - 1].0); }
      }
    }
  }

  lemma {:induction false} PairsGet(kids: Kids, scheme: nat, x: (string, Val))
    requires InOrder(kids)
    ensures x in Pairs(kids, scheme) <==> Get(kids, x.0).Some? && Hash(Get(kids, x.0).value, scheme) == x.1
  {
    if kids.Kid? {
      PairsGet(kids.next, scheme, x);
      NotAgain(kids);
      assert x in Pairs(kids, scheme) <==> x == (kids.name, Hash(kids.node, scheme)) || x in Pairs(kids.next, scheme);
    }
  }

  // ---- folding up ------------------------------------------------------------------------------------------

  /** One level: the running hash takes its place among the siblings. */
  function Up(level: Level, running: Val, scheme: nat): Val {
    DirHash(level.own, AsVals(SortPairs(level.siblings + [(level.name, running)])), scheme)
  }

  /** A leaf's hash folded up its path, leaf's parent first. */
  function Fold(leafHash: Val, path: seq<Level>, scheme: nat): Val {
    if path == [] then leafHash else Up(path[|path| - 1], Fold(leafHash, path[..|path| - 1], scheme), scheme)
  }

  /** verify_inclusion. */
  method VerifyInclusion(proof: Option<Proof>, root: Val, scheme: Option<nat>) returns (ok: bool)
    ensures ok <==> (proof.Some? && Fold(proof.value.leafHash, proof.value.path,
                                         if scheme.Some? then scheme.value else proof.value.scheme) == root)
  {
    if proof.None? { return false; }
    var sch := if scheme.Some? then scheme.value else proof.value.scheme;
    var running, path := proof.value.leafHash, proof.value.path;
    var i := 0;
    while i < |path|
      invariant 0 <= i <= |path| && running == Fold(proof.value.leafHash, path[..i], sch)
    {
      var level := path[i];
      var pairs := level.siblings + [(level.name, running)];
      pairs := SortPairs(pairs);
      running := if sch == SCHEME_CHILDREN_ONLY then Digest(List(AsVals(pairs)))
                 else Digest(List([level.own, List(AsVals(pairs))]));
      assert path[..i + 1][..i] == path[..i];
      i := i + 1;
    }
    assert path[..i] == path;
    return running == root;
  }

  // ---- making a proof --------------------------------------------------------------------------------------

  function NodeAt(node: Node, parts: seq<string>): Option<Node>
    decreases |parts|
  {
    if parts == [] then Some(node)
    else if node.File? then None
    else match Get(node.kids, parts[0])
         case None => None
         case Some(child) => NodeAt(child, parts[1..])
  }

  function Others(kids: Kids, name: string, scheme: nat): seq<(string, Val)> {
    match kids
    case End => []
    case Kid(n, node, next) => (if n == name then [] else [(n, Hash(node, scheme))]) + Others(next, name, scheme)
  }

  /** What the level of a directory tells about one of its children. */
  function LevelFor(dir: Node, name: string, scheme: nat): Level
    requires dir.Dir?
  {
    Level(name, Own(dir.own), Others(dir.kids, name, scheme))
  }

  /** The audit path of whatever stands at a path, leaf's parent first. */
  function PathFor(node: Node, parts: seq<string>, scheme: nat): seq<Level>
    requires NodeAt(node, parts).Some?
    decreases |parts|
  {
    if parts == [] then []
    else PathFor(Get(node.kids, parts[0]).value, parts[1..], scheme) + [LevelFor(node, parts[0], scheme)]
  }

  /** inclusion_proof: a proof for exactly the file leaves. */
  method InclusionProof(root: Node, relpath: string, scheme: nat) returns (proof: Option<Proof>)
    requires root.Dir?
    ensures var parts := Parts(relpath); var n := NodeAt(root, parts);
            && (proof.Some? <==> n.Some? && n.value.File?)
            && (proof.Some? ==>
                proof.value == Proof(Join(parts), Hash(n.value, scheme), PathFor(root, parts, scheme), scheme))
  {
    var parts := Parts(relpath);
    if parts == [] { return None; }
    var path: seq<Level> := [];
    var cur := root;
    var i := 0;
    while i < |parts|
      invariant 0 <= i <= |parts|
      invariant NodeAt(root, parts) == NodeAt(cur, parts[i..])
      invariant NodeAt(root, parts).Some? ==>
                  PathFor(root, parts, scheme) == PathFor(cur, parts[i..], scheme) + Reversed(path)
    {
      if cur.File? { return None; }
      var child := Get(cur.kids, parts[i]);
      if child.None? { return None; }
      assert parts[i..][0] == parts[i] && parts[i..][1..] == parts[i + 1..];
      Prepended(path, LevelFor(cur, parts[i], scheme));
      path := path + [LevelFor(cur, parts[i], scheme)];
      cur := child.value;
      i := i + 1;
    }
    assert parts[i..] == [];
    if cur.Dir? { return None; }
    return Some(Proof(Join(parts), Hash(cur, scheme), Reversed(path), scheme));
  }

  function Reversed(path: seq<Level>): seq<Level> {
    if path == [] then [] else [path[|path| - 1]] + Reversed(path[..|path| - 1])
  }

  lemma Prepended(path: seq<Level>, level: Level)
    ensures Reversed(path + [level]) == [level] + Reversed(path)
  {
    assert (path + [level])[..|path|] == path;
  }

  // ---- completeness ----------------------------------------------------------------------------------------

  /** The siblings are the pairs on either side of the child's. */
  lemma {:induction false} OthersSplit(kids: Kids, name: string, scheme: nat)
    requires InOrder(kids) && Get(kids, name).Some?
    ensures exists a, b :: Others(kids, name, scheme) == a + b
              && Pairs(kids, scheme) == a + [(name, Hash(Get(kids, name).value, scheme))] + b
  {
    var h := Hash(Get(kids, name).value, scheme);
    if kids.name == name {
      NotAgain(kids);
      OthersAll(kids.next, name, scheme);
      var rest := Pairs(kids.next, scheme);
      assert Others(kids, name, scheme) == [] + rest && Pairs(kids, scheme) == [] + [(name, h)] + rest;
    } else {
      OthersSplit(kids.next, name, scheme);
      var a, b :| Others(kids.next, name, scheme) == a + b && Pairs(kids.next, scheme) == a + [(name, h)] + b;
      var first := [(kids.name, Hash(kids.node, scheme))];
      assert first + (a + b) == (first + a) + b && first + (a + [(name, h)] + b) == (first + a) + [(name, h)] + b;
    }
  }

  lemma {:induction false} OthersAll(kids: Kids, name: string, scheme: nat)
    requires Get(kids, name) == None
    ensures Others(kids, name, scheme) == Pairs(kids, scheme)
  {
    if kids.Kid? { OthersAll(kids.next, name, scheme); }
  }

  /** A directory's hash is its child's, folded up one level. */
  lemma UpIsHash(dir: Node, name: string, scheme: nat)
    requires Proper(dir) && dir.Dir? && Get(dir.kids, name).Some?
    ensures Up(LevelFor(dir, name, scheme), Hash(Get(dir.kids, name).value, scheme), scheme) == Hash(dir, scheme)
  {
    var x := (name, Hash(Get(dir.kids, name).value, scheme));
    OthersSplit(dir.kids, name, scheme);
    var a, b :| Others(dir.kids, name, scheme) == a + b && Pairs(dir.kids, scheme) == a + [x] + b;
    PairsRise(dir.kids, scheme);
    Without(a, x, b);
    RisingSorts(a + b);
    assert (a + b + [x])[..|a + b|] == a + b;
    InsortBack(a, x, b);
    PairsAsVals(dir.kids, scheme);
  }

  lemma Without(a: seq<(string, Val)>, x: (string, Val), b: seq<(string, Val)>)
    requires Rising(a + [x] + b)
    ensures Rising(a + b)
  {
    var s, t := a + [x] + b, a + b;
    forall i, j | 0 <= i < j < |t| ensures Less(t[i].0, t[j].0) {
      var i', j' := if i < |a| then i else i + 1, if j < |a| then j else j + 1;
      assert t[i] == s[i'] && t[j] == s[j'];
    }
  }

  /** Every node's audit path folds to the root. */
  lemma {:induction false} PathFolds(node: Node, parts: seq<string>, scheme: nat)
    requires Proper(node) && NodeAt(node, parts).Some?
    ensures Fold(Hash(NodeAt(node, parts).value, scheme), PathFor(node, parts, scheme), scheme) == Hash(node, scheme)
    decreases |parts|
  {
    if parts != [] {
      var child := Get(node.kids, parts[0]).value;
      GetProper(node.kids, parts[0]);
      PathFolds(child, parts[1..], scheme);
      var path := PathFor(node, parts, scheme);
      assert path[..|path| - 1] == PathFor(child, parts[1..], scheme);
      UpIsHash(node, parts[0], scheme);
    }
  }

  // ---- soundness -------------------------------------------------------------------------------------------

  /** The names of a path, root first. */
  function NamesDown(path: seq<Level>): seq<string> {
    if path == [] then [] else [path[|path| - 1].name] + NamesDown(path[..|path| - 1])
  }

  /** A level that folds to a node's hash is a level of that node, which is a directory with such a child. */
  lemma UpBinds(level: Level, running: Val, dir: Node, scheme: nat)
    requires Proper(dir) && Up(level, running, scheme) == Hash(dir, scheme)
    ensures dir.Dir? && Get(dir.kids, level.name).Some? && Hash(Get(dir.kids, level.name).value, scheme) == running
  {
    var sorted := SortPairs(level.siblings + [(level.name, running)]);
    assert dir.Dir?;
    PairsAsVals(dir.kids, scheme);
    if scheme != SCHEME_CHILDREN_ONLY {
      assert [level.own, List(AsVals(sorted))][1] == [Own(dir.own), List(PairVals(dir.kids, scheme))][1];
    }
    AsValsBind(sorted, Pairs(dir.kids, scheme));
    SortHas(level.siblings, (level.name, running));
    PairsGet(dir.kids, scheme, (level.name, running));
  }

  /** Whatever path folds to a root names, root to leaf, a path of that hierarchy whose node has the leaf hash. */
  lemma {:induction false} FoldNames(leafHash: Val, path: seq<Level>, node: Node, scheme: nat)
    requires Proper(node) && Fold(leafHash, path, scheme) == Hash(node, scheme)
    ensures var n := NodeAt(node, NamesDown(path)); n.Some? && Hash(n.value, scheme) == leafHash
    decreases |path|
  {
    if path != [] {
      var last := |path| - 1;
      UpBinds(path[last], Fold(leafHash, path[..last], scheme), node, scheme);
      GetProper(node.kids, path[last].name);
      FoldNames(leafHash, path[..last], Get(node.kids, path[last].name).value, scheme);
      assert NamesDown(path)[1..] == NamesDown(path[..last]);
    }
  }

  /** A path that is not empty is never accepted against a root of the other scheme. */
  lemma OtherSchemeRejected(leafHash: Val, path: seq<Level>, dir: Node, s: nat, other: nat)
    requires Proper(dir) && dir.Dir? && path != []
    requires s == SCHEME_CHILDREN_ONLY <==> other != SCHEME_CHILDREN_ONLY
    ensures Fold(leafHash, path, other) != Hash(dir, s)
  {
    var level, running := path[|path| - 1], Fold(leafHash, path[..|path| - 1], other);
    var x := (level.name, running);
    var sorted := SortPairs(level.siblings + [x]);
    SortHas(level.siblings, x);
    var i :| 0 <= i < |sorted| && sorted[i] == x;
    var vals := AsVals(sorted);
    assert vals[i] == PairVal(x.0, x.1);
    var pairs := PairVals(dir.kids, s);
    PairsAsVals(dir.kids, s);
    if s == SCHEME_CHILDREN_ONLY {
      if |pairs| > 1 { PairIsNoList(Pairs(dir.kids, s)[1], sorted); }
    } else {
      if |sorted| > 1 { PairIsNoList(sorted[1], Pairs(dir.kids, s)); }
    }
  }

  lemma PairIsNoList(x: (string, Val), s: seq<(string, Val)>)
    ensures PairVal(x.0, x.1) != List(AsVals(s))
  {
    if s != [] {
      assert AsVals(s)[0].List? && [Str(x.0), x.1][0].Str?;
    }
  }

  // ---- on flat states --------------------------------------------------------------------------------------

  lemma {:induction false} NodeShows(node: Node, q: seq<string>)
    ensures KindAt(node, q) == match NodeAt(node, q) { case None => None case Some(n) => Some(Top(n)) }
    decreases |q|
  {
    if q != [] && node.Dir? && Get(node.kids, q[0]).Some? {
      NodeShows(Get(node.kids, q[0]).value, q[1..]);
    }
  }

  /** For every well-formed state: a proof is made for exactly the paths of file entries, and it folds to the root. */
  lemma ProofsComplete(tree: map<string, Val>, keys: seq<string>, relpath: string, scheme: nat)
    requires WellFormed(tree) && Listing(tree, keys)
    ensures var r := Built(tree, keys, |keys|); var q := Parts(relpath); var n := NodeAt(r, q);
            && (n.Some? && n.value.File? <==> q != [] && Named(tree.Keys, q) && !IsDir(tree[Join(q)]))
            && (n.Some? && n.value.File? ==>
                  Hash(n.value, scheme) == Digest(tree[Join(q)])
                  && Fold(Hash(n.value, scheme), PathFor(r, q, scheme), scheme) == Root(tree, keys, scheme))
  {
    var r, q := Built(tree, keys, |keys|), Parts(relpath);
    Shows(tree, keys, q);
    NodeShows(r, q);
    if NodeAt(r, q).Some? { PathFolds(r, q, scheme); }
  }

  /** And whatever is accepted against the root under its scheme names a path the state has, a file's if the leaf hash
      is a file's entry: the entry at that path. */
  lemma ProofsSound(tree: map<string, Val>, keys: seq<string>, proof: Proof, scheme: nat)
    requires WellFormed(tree) && Listing(tree, keys)
    requires Fold(proof.leafHash, proof.path, scheme) == Root(tree, keys, scheme)
    ensures var q := NamesDown(proof.path);
            && Says(tree, q).Some?
            && (exists n: Node :: Proper(n) && Says(tree, q) == Some(Top(n)) && Hash(n, scheme) == proof.leafHash)
            && (forall e: Val :: e.Dict? && proof.leafHash == Digest(e) ==> Says(tree, q) == Some(File(e)))
  {
    var r, q := Built(tree, keys, |keys|), NamesDown(proof.path);
    Shows(tree, keys, q);
    FoldNames(proof.leafHash, proof.path, r, scheme);
    NodeShows(r, q);
    NodeProper(r, q);
    assert Top(NodeAt(r, q).value) == Says(tree, q).value;
  }

  lemma {:induction false} NodeProper(node: Node, q: seq<string>)
    requires Proper(node) && NodeAt(node, q).Some?
    ensures Proper(NodeAt(node, q).value)
    decreases |q|
  {
    if q != [] {
      GetProper(node.kids, q[0]);
      NodeProper(Get(node.kids, q[0]).value, q[1..]);
    }
  }

  /** What verification does not look at: a directory's audit path is accepted too, whatever leaf it claims to be of. */
  lemma DirectoryAccepted(tree: map<string, Val>, keys: seq<string>, q: seq<string>, claim: string, scheme: nat)
    requires WellFormed(tree) && Listing(tree, keys)
    requires Says(tree, q).Some? && Says(tree, q).value.Dir?
    ensures exists p: Proof ::
              p.leaf == claim && NamesDown(p.path) == q && Fold(p.leafHash, p.path, scheme) == Root(tree, keys, scheme)
  {
    var r := Built(tree, keys, |keys|);
    Shows(tree, keys, q);
    NodeShows(r, q);
    PathFolds(r, q, scheme);
    PathNames(r, q, scheme);
    var p := Proof(claim, Hash(NodeAt(r, q).value, scheme), PathFor(r, q, scheme), scheme);
    assert p.leaf == claim;
  }

  lemma {:induction false} PathNames(node: Node, q: seq<string>, scheme: nat)
    requires NodeAt(node, q).Some?
    ensures NamesDown(PathFor(node, q, scheme)) == q
    decreases |q|
  {
    if q != [] {
      var path := PathFor(node, q, scheme);
      PathNames(Get(node.kids, q[0]).value, q[1..], scheme);
      assert path[..|path| - 1] == PathFor(Get(node.kids, q[0]).value, q[1..], scheme);
    }
  }
}
