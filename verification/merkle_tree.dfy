/** A flat tree-state folded into a hierarchy, and the hierarchy into one hash. */
module MerkleTree {
  import opened Wrappers

  // ---- values and their hash -------------------------------------------------------------------------------

  /** What the serializer takes.  Digest is the hash form, a value of its own kind: equal digests are of equal
      values. */
  datatype Val = Null | Str(s: string) | List(items: seq<Val>) | Dict(entries: map<string, Val>) | Digest(of: Val)

  const DIR := "dir"
  const SCHEME_CHILDREN_ONLY: nat := 1

  predicate IsDir(entry: Val) {
    entry.Dict? && "type" in entry.entries && entry.entries["type"] == Str(DIR)
  }

  // ---- names and paths -------------------------------------------------------------------------------------

  /** Strings in code-point order. */
  predicate Less(a: string, b: string) {
    b != [] && (a == [] || a[0] < b[0] || (a[0] == b[0] && Less(a[1..], b[1..])))
  }

  lemma {:induction false} LessTotal(a: string, b: string)
    ensures Less(a, b) || a == b || Less(b, a)
    ensures !(Less(a, b) && Less(b, a)) && !Less(a, a)
  {
    if a != [] && b != [] {
      LessTotal(a[1..], b[1..]);
      if a[0] == b[0] && a[1..] == b[1..] {
        assert a == [a[0]] + a[1..] && b == [b[0]] + b[1..];
      }
    }
    if a != [] { LessTotal(a[1..], a[1..]); }
  }

  lemma {:induction false} LessTrans(a: string, b: string, c: string)
    requires Less(a, b) && Less(b, c)
    ensures Less(a, c)
  {
    if a != [] && a[0] == b[0] == c[0] {
      LessTrans(a[1..], b[1..], c[1..]);
    }
  }

  /** The non-empty segments of a path. */
  function Split(s: string, segment: string): seq<string>
    decreases |s|
  {
    if s == [] then Closed(segment)
    else if s[0] == '/' then Closed(segment) + Split(s[1..], [])
    else Split(s[1..], segment + [s[0]])
  }

  function Closed(segment: string): seq<string> { if segment == [] then [] else [segment] }

  function Parts(relpath: string): seq<string> { Split(relpath, []) }

  function Join(parts: seq<string>): string {
    if parts == [] then ""
    else if |parts| == 1 then parts[0]
    else Join(parts[..|parts| - 1]) + "/" + parts[|parts| - 1]
  }

  // ---- the hierarchy ---------------------------------------------------------------------------------------

  /** Children are kept in the order of their names, which is the order they are hashed in. */
  datatype Node = File(entry: Val) | Dir(kids: Kids, own: Option<Val>)
  datatype Kids = End | Kid(name: string, node: Node, next: Kids)

  function Get(kids: Kids, name: string): Option<Node> {
    match kids
    case End => None
    case Kid(n, node, next) => if n == name then Some(node) else Get(next, name)
  }

  function Put(kids: Kids, name: string, node: Node): Kids {
    match kids
    case End => Kid(name, node, End)
    case Kid(n, old_, next) =>
      if n == name then Kid(name, node, next)
      else if Less(name, n) then Kid(name, node, kids)
      else Kid(n, old_, Put(next, name, node))
  }

  predicate Above(low: string, kids: Kids) { kids.End? || Less(low, kids.name) }

  predicate InOrder(kids: Kids) {
    kids.End? || (Above(kids.name, kids.next) && InOrder(kids.next))
  }

  /** Names in order all the way down; entries are dictionaries, of type "dir" exactly on directories. */
  predicate Proper(node: Node) {
    match node
    case File(entry) => entry.Dict? && !IsDir(entry)
    case Dir(kids, own) => InOrder(kids) && ProperKids(kids) && (own.Some? ==> IsDir(own.value))
  }

  predicate ProperKids(kids: Kids) {
    kids.End? || (Proper(kids.node) && ProperKids(kids.next))
  }

  lemma {:induction false} GetAbove(kids: Kids, low: string, name: string)
    requires InOrder(kids) && Above(low, kids) && Get(kids, name).Some?
    ensures Less(low, name)
  {
    if kids.name != name {
      LessOver(low, kids.name, kids.next);
      GetAbove(kids.next, low, name);
    }
  }

  lemma LessOver(low: string, mid: string, kids: Kids)
    requires Less(low, mid) && Above(mid, kids)
    ensures Above(low, kids)
  {
    if kids.Kid? { LessTrans(low, mid, kids.name); }
  }

  lemma {:induction false} GetProper(kids: Kids, name: string)
    requires ProperKids(kids) && Get(kids, name).Some?
    ensures Proper(Get(kids, name).value)
  {
    if kids.name != name { GetProper(kids.next, name); }
  }

  lemma {:induction false} PutGets(kids: Kids, name: string, node: Node, q: string)
    requires InOrder(kids)
    ensures Get(Put(kids, name, node), q) == if q == name then Some(node) else Get(kids, q)
  {
    match kids
    case End =>
    case Kid(n, _, next) => if n != name && !Less(name, n) { PutGets(next, name, node, q); }
      else if Less(name, n) && q == name {
        LessTotal(name, n);
        if Get(kids, q).Some? && n != q {
          GetAbove(next, n, q);
          LessTotal(n, q);
        }
      }
  }

  lemma {:induction false} PutOrder(kids: Kids, name: string, node: Node)
    requires InOrder(kids)
    ensures InOrder(Put(kids, name, node))
    ensures forall low: string :: Above(low, kids) && Less(low, name) ==> Above(low, Put(kids, name, node))
    ensures ProperKids(kids) && Proper(node) ==> ProperKids(Put(kids, name, node))
  {
    match kids
    case End =>
    case Kid(n, _, next) =>
      LessTotal(n, name);
      if n != name && !Less(name, n) { PutOrder(next, name, node); }
  }

  function EmptyDir(): Node { Dir(End, None) }

  /** The directory to go down into: what is there, or an empty one if nothing or a file is. */
  function Below(kids: Kids, name: string): (d: Node)
    ensures d.Dir?
  {
    match Get(kids, name)
    case Some(Dir(k, own)) => Dir(k, own)
    case _ => EmptyDir()
  }

  /** Places one entry of the flat state under a directory. */
  function Insert(dir: Node, parts: seq<string>, entry: Val): (r: Node)
    requires dir.Dir? && parts != []
    ensures r.Dir?
    decreases |parts|
  {
    var name := parts[0];
    if |parts| == 1 then
      if IsDir(entry) then dir.(kids := Put(dir.kids, name, Below(dir.kids, name).(own := Some(entry))))
      else dir.(kids := Put(dir.kids, name, File(entry)))
    else dir.(kids := Put(dir.kids, name, Insert(Below(dir.kids, name), parts[1..], entry)))
  }

  /** Every path of the state, in order. */
  ghost predicate Listing(tree: map<string, Val>, keys: seq<string>) {
    && (forall i, j :: 0 <= i < j < |keys| ==> Less(keys[i], keys[j]))
    && (forall p :: p in tree <==> p in keys)
  }

  /** The hierarchy of the first n paths. */
  function Built(tree: map<string, Val>, keys: seq<string>, n: nat): (r: Node)
    requires n <= |keys| && forall p :: p in keys ==> p in tree
    ensures r.Dir?
  {
    if n == 0 then EmptyDir()
    else
      var r, parts := Built(tree, keys, n - 1), Parts(keys[n - 1]);
      if parts == [] then r else Insert(r, parts, tree[keys[n - 1]])
  }

  /** _structure. */
  method Structure(tree: map<string, Val>, keys: seq<string>) returns (root: Node)
    requires Listing(tree, keys)
    ensures root == Built(tree, keys, |keys|)
  {
    root := EmptyDir();
    var i := 0;
    while i < |keys|
      invariant 0 <= i <= |keys| && root == Built(tree, keys, i)
    {
      var parts := Parts(keys[i]);
      if parts != [] {
        root := Insert(root, parts, tree[keys[i]]);
      }
      i := i + 1;
    }
  }

  // ---- the hash --------------------------------------------------------------------------------------------

  function PairVal(name: string, hash: Val): Val { List([Str(name), hash]) }

  function Own(own: Option<Val>): Val { if own.Some? then own.value else Null }

  /** A directory's hash, over its pairs and under scheme 2 its own entry. */
  function DirHash(own: Val, pairs: seq<Val>, scheme: nat): Val {
    if scheme == SCHEME_CHILDREN_ONLY then Digest(List(pairs)) else Digest(List([own, List(pairs)]))
  }

  function Hash(node: Node, scheme: nat): Val {
    match node
    case File(entry) => Digest(entry)
    case Dir(kids, own) => DirHash(Own(own), PairVals(kids, scheme), scheme)
  }

  function PairVals(kids: Kids, scheme: nat): seq<Val> {
    match kids
    case End => []
    case Kid(name, node, next) => [PairVal(name, Hash(node, scheme))] + PairVals(next, scheme)
  }

  /** What scheme 1 sees of a node: everything but the directories' own entries. */
  function Stripped(node: Node): Node {
    match node
    case File(_) => node
    case Dir(kids, _) => Dir(StrippedKids(kids), None)
  }

  function StrippedKids(kids: Kids): Kids {
    match kids
    case End => End
    case Kid(name, node, next) => Kid(name, Stripped(node), StrippedKids(next))
  }

  /** What a scheme sees of a node. */
  function Seen(node: Node, scheme: nat): Node { if scheme == SCHEME_CHILDREN_ONLY then Stripped(node) else node }

  function SeenKids(kids: Kids,
                    scheme: nat): Kids { if scheme == SCHEME_CHILDREN_ONLY then StrippedKids(kids) else kids }

  /** A hash binds exactly what its scheme sees. */
  lemma {:induction false} HashBinds(a: Node, b: Node, scheme: nat)
    requires Proper(a) && Proper(b)
    ensures Hash(a, scheme) == Hash(b, scheme) <==> Seen(a, scheme) == Seen(b, scheme)
    decreases a
  {
    if a.Dir? && b.Dir? {
      PairsBind(a.kids, b.kids, scheme);
      var pa, pb := PairVals(a.kids, scheme), PairVals(b.kids, scheme);
      if scheme != SCHEME_CHILDREN_ONLY && Hash(a, scheme) == Hash(b, scheme) {
        assert [Own(a.own), List(pa)] == [Own(b.own), List(pb)];
        assert [Own(a.own), List(pa)][0] == [Own(b.own), List(pb)][0];
        assert [Own(a.own), List(pa)][1] == [Own(b.own), List(pb)][1];
      }
    }
  }

  lemma {:induction false} PairsBind(a: Kids, b: Kids, scheme: nat)
    requires ProperKids(a) && ProperKids(b)
    ensures PairVals(a, scheme) == PairVals(b, scheme) <==> SeenKids(a, scheme) == SeenKids(b, scheme)
    decreases a
  {
    if a.Kid? && b.Kid? {
      HashBinds(a.node, b.node, scheme);
      PairsBind(a.next, b.next, scheme);
      var pa, pb := PairVals(a, scheme), PairVals(b, scheme);
      assert pa[0] == PairVal(a.name, Hash(a.node, scheme)) && pb[0] == PairVal(b.name, Hash(b.node, scheme));
      assert pa[1..] == PairVals(a.next, scheme) && pb[1..] == PairVals(b.next, scheme);
      if pa[0] == pb[0] {
        assert pa[0].items[0] == pb[0].items[0] && pa[0].items[1] == pb[0].items[1];
      }
    }
  }
}
