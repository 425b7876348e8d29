/** The root binds the state: nothing of a well-formed flat state is lost on the way to its hash. */
module MerkleBinding {
  import opened MerkleTree
  import opened Wrappers

  /** A node without what is below it. */
  function Top(node: Node): Node { if node.Dir? then Dir(End, node.own) else node }

  /** What stands at a path of the hierarchy. */
  function KindAt(node: Node, q: seq<string>): Option<Node>
    decreases |q|
  {
    if q == [] then Some(Top(node))
    else if node.File? then None
    else match Get(node.kids, q[0])
         case None => None
         case Some(child) => KindAt(child, q[1..])
  }

  predicate StrictlyAbove(q: seq<string>, r: seq<string>) { |q| < |r| && r[..|q|] == q }

  // ---- a flat state ----------------------------------------------------------------------------------------

  /** The one spelling of a path. */
  predicate Canonical(p: string) { Parts(p) != [] && Join(Parts(p)) == p }

  /** Paths in their one spelling, entries that are dictionaries, and no file above another entry. */
  ghost predicate WellFormed(tree: map<string, Val>) {
    && (forall p :: p in tree ==> Canonical(p) && tree[p].Dict?)
    && (forall p, r :: p in tree && r in tree && StrictlyAbove(Parts(p), Parts(r)) ==> IsDir(tree[p]))
  }

  function EntryNode(entry: Val): Node { if IsDir(entry) then Dir(End, Some(entry)) else File(entry) }

  predicate Named(done: set<string>, q: seq<string>) { Join(q) in done && Parts(Join(q)) == q }

  ghost predicate Implied(done: set<string>, q: seq<string>) { exists p :: p in done && StrictlyAbove(q, Parts(p)) }

  /** What a state says of a path: its entry, a directory it only implies, or nothing. */
  ghost function Kind(tree: map<string, Val>, done: set<string>, q: seq<string>): Option<Node>
    requires done <= tree.Keys
  {
    if q == [] then Some(EmptyDir())
    else if Named(done, q) then Some(EntryNode(tree[Join(q)]))
    else if Implied(done, q) then Some(EmptyDir())
    else None
  }

  // ---- inserting an entry ----------------------------------------------------------------------------------

  /** There is room for an entry: no file on the way to it, and nothing in its place but a directory it is the entry
      of. */
  predicate Room(dir: Node, parts: seq<string>, entry: Val) {
    && parts != [] && dir.Dir?
    && (forall k :: 0 < k < |parts| ==> Open(dir, parts, k))
    && (KindAt(dir, parts) == None || (IsDir(entry) && KindAt(dir, parts).value.Dir?))
  }

  predicate Open(dir: Node, parts: seq<string>, k: nat)
    requires k <= |parts|
  {
    KindAt(dir, parts[..k]) == None || KindAt(dir, parts[..k]).value.Dir?
  }

  lemma RoomBelow(dir: Node, parts: seq<string>, entry: Val)
    requires Room(dir, parts, entry) && |parts| > 1
    ensures Room(Below(dir.kids, parts[0]), parts[1..], entry)
    ensures Get(dir.kids, parts[0]) == None || Get(dir.kids, parts[0]) == Some(Below(dir.kids, parts[0]))
  {
    var d := Below(dir.kids, parts[0]);
    assert parts[..1] == [parts[0]] && Open(dir, parts, 1);
    assert parts[..1][1..] == [];
    OneDown(dir, parts[0], []);
    OneDown(dir, parts[0], parts[1..]);
    assert parts == [parts[0]] + parts[1..];
    forall k | 0 < k < |parts[1..]| ensures Open(d, parts[1..], k) {
      assert Open(dir, parts, k + 1);
      assert parts[..k + 1][1..] == parts[1..][..k];
    }
  }

  lemma OneDown(dir: Node, name: string, r: seq<string>)
    requires dir.Dir?
    ensures KindAt(dir, [name] + r)
            == match Get(dir.kids, name) { case None => None case Some(child) => KindAt(child, r) }
  {
    assert ([name] + r)[1..] == r;
  }

  lemma {:induction false} InsertShows(dir: Node, parts: seq<string>, entry: Val, q: seq<string>)
    requires Proper(dir) && Room(dir, parts, entry)
    ensures KindAt(Insert(dir, parts, entry), q)
            == if q == parts then Some(EntryNode(entry))
               else if StrictlyAbove(q, parts) && KindAt(dir, q) == None then Some(EmptyDir())
               else KindAt(dir, q)
    decreases |parts|
  {
    var name := parts[0];
    if q != [] {
      assert q == [q[0]] + q[1..] && parts == [name] + parts[1..];
      if |parts| == 1 {
        PutGets(dir.kids, name, Insert(dir, parts, entry).kids.node, q[0]);
        InsertLast(dir, name, entry, q);
      } else {
        var d := Below(dir.kids, name);
        RoomBelow(dir, parts, entry);
        BelowProper(dir, name);
        PutGets(dir.kids, name, Insert(d, parts[1..], entry), q[0]);
        if q[0] == name {
          InsertShows(d, parts[1..], entry, q[1..]);
          assert StrictlyAbove(q, parts) <==> StrictlyAbove(q[1..], parts[1..]);
        }
      }
    }
  }

  lemma BelowProper(dir: Node, name: string)
    requires Proper(dir) && dir.Dir?
    ensures Proper(Below(dir.kids, name))
  {
    if Get(dir.kids, name).Some? { GetProper(dir.kids, name); }
  }

  lemma InsertLast(dir: Node, name: string, entry: Val, q: seq<string>)
    requires Proper(dir) && Room(dir, [name], entry) && q != []
    ensures KindAt(Insert(dir, [name], entry), q) == if q == [name] then Some(EntryNode(entry)) else KindAt(dir, q)
  {
    var d := Below(dir.kids, name);
    PutGets(dir.kids, name, if IsDir(entry) then d.(own := Some(entry)) else File(entry), q[0]);
    assert [name] == [name] + [] && q == [q[0]] + q[1..];
    OneDown(dir, name, []);
    OneDown(dir, q[0], q[1..]);
    OneDown(Insert(dir, [name], entry), q[0], q[1..]);
    if q[0] == name && q[1..] != [] {
      OneDown(d, q[1], q[1..][1..]);
      assert q[1..] == [q[1]] + q[1..][1..];
    }
  }

  lemma {:induction false} InsertProper(dir: Node, parts: seq<string>, entry: Val)
    requires Proper(dir) && dir.Dir? && parts != [] && entry.Dict?
    ensures Proper(Insert(dir, parts, entry))
    decreases |parts|
  {
    var name := parts[0];
    BelowProper(dir, name);
    var d := Below(dir.kids, name);
    if |parts| == 1 {
      PutOrder(dir.kids, name, if IsDir(entry) then d.(own := Some(entry)) else File(entry));
    } else {
      InsertProper(d, parts[1..], entry);
      PutOrder(dir.kids, name, Insert(d, parts[1..], entry));
    }
  }

  // ---- the whole hierarchy ---------------------------------------------------------------------------------

  ghost function Done(keys: seq<string>, n: nat): set<string>
    requires n <= |keys|
  {
    set i | 0 <= i < n :: keys[i]
  }

  lemma NextRoom(tree: map<string, Val>, keys: seq<string>, n: nat)
    requires WellFormed(tree) && Listing(tree, keys) && n < |keys|
    requires forall q: seq<string> :: KindAt(Built(tree, keys, n), q) == Kind(tree, Done(keys, n), q)
    ensures Room(Built(tree, keys, n), Parts(keys[n]), tree[keys[n]])
  {
    var p, b, done := keys[n], Built(tree, keys, n), Done(keys, n);
    var parts := Parts(p);
    assert p in tree;
    forall k | 0 < k < |parts| ensures Open(b, parts, k) {
      var q := parts[..k];
      if Named(done, q) {
        assert StrictlyAbove(Parts(Join(q)), parts);
      }
    }
    assert !Named(done, parts) by {
      forall i | 0 <= i < n ensures keys[i] != p {
        LessTotal(keys[i], p);
      }
    }
    if Implied(done, parts) {
      var r :| r in done && StrictlyAbove(parts, Parts(r));
      assert r in tree;
    }
  }

  /** The hierarchy shows at every path exactly what the state says of it. */
  lemma {:induction false} BuiltShows(tree: map<string, Val>, keys: seq<string>, n: nat)
    requires WellFormed(tree) && Listing(tree, keys) && n <= |keys|
    ensures Proper(Built(tree, keys, n))
    ensures forall q: seq<string> :: KindAt(Built(tree, keys, n), q) == Kind(tree, Done(keys, n), q)
  {
    if n == 0 {
      assert Done(keys, 0) == {};
    } else {
      BuiltShows(tree, keys, n - 1);
      NextRoom(tree, keys, n - 1);
      var p := keys[n - 1];
      assert p in tree;
      InsertProper(Built(tree, keys, n - 1), Parts(p), tree[p]);
      forall q: seq<string> ensures KindAt(Built(tree, keys, n), q) == Kind(tree, Done(keys, n), q) {
        InsertShows(Built(tree, keys, n - 1), Parts(p), tree[p], q);
        NextKind(tree, keys, n, q);
      }
    }
  }

  lemma NextKind(tree: map<string, Val>, keys: seq<string>, n: nat, q: seq<string>)
    requires WellFormed(tree) && Listing(tree, keys) && 0 < n <= |keys|
    ensures Kind(tree, Done(keys, n), q)
            == var parts := Parts(keys[n - 1]);
               if q == parts then Some(EntryNode(tree[keys[n - 1]]))
               else if StrictlyAbove(q, parts) && Kind(tree, Done(keys, n - 1), q) == None then Some(EmptyDir())
               else Kind(tree, Done(keys, n - 1), q)
  {
    var p := keys[n - 1];
    assert p in tree;
    assert Done(keys, n) == Done(keys, n - 1) + {p};
    if Implied(Done(keys, n - 1), q) {
      var r :| r in Done(keys, n - 1) && StrictlyAbove(q, Parts(r));
      assert r in Done(keys, n);
    }
    if StrictlyAbove(q, Parts(p)) {
      assert p in Done(keys, n) && StrictlyAbove(q, Parts(p));
    }
  }

  lemma AllDone(tree: map<string, Val>, keys: seq<string>)
    requires Listing(tree, keys)
    ensures Done(keys, |keys|) == tree.Keys
  {
    forall p | p in tree ensures p in Done(keys, |keys|) {
      assert p in keys;
    }
  }

  /** What a state says of a path. */
  ghost function Says(tree: map<string, Val>, q: seq<string>): Option<Node> { Kind(tree, tree.Keys, q) }

  lemma Shows(tree: map<string, Val>, keys: seq<string>, q: seq<string>)
    requires WellFormed(tree) && Listing(tree, keys)
    ensures Proper(Built(tree, keys, |keys|)) && KindAt(Built(tree, keys, |keys|), q) == Says(tree, q)
  {
    BuiltShows(tree, keys, |keys|);
    AllDone(tree, keys);
  }

  // ---- a hierarchy is what it shows ------------------------------------------------------------------------

  lemma {:induction false} NodeIsShown(a: Node, b: Node)
    requires Ordered(a) && Ordered(b) && forall q: seq<string> :: KindAt(a, q) == KindAt(b, q)
    ensures a == b
    decreases a
  {
    assert KindAt(a, []) == KindAt(b, []);
    if a.Dir? {
      forall q: seq<string> | q != [] ensures KindIn(a.kids, q) == KindIn(b.kids, q) {
        assert KindAt(a, q) == KindAt(b, q);
      }
      KidsAreShown(a.kids, b.kids);
    }
  }

  /** Names in order all the way down. */
  predicate Ordered(node: Node) { node.Dir? ==> InOrder(node.kids) && OrderedKids(node.kids) }

  predicate OrderedKids(kids: Kids) { kids.End? || (Ordered(kids.node) && OrderedKids(kids.next)) }

  function KindIn(kids: Kids, q: seq<string>): Option<Node>
    requires q != []
  {
    match Get(kids, q[0])
    case None => None
    case Some(child) => KindAt(child, q[1..])
  }

  lemma {:induction false} KidsAreShown(a: Kids, b: Kids)
    requires InOrder(a) && OrderedKids(a) && InOrder(b) && OrderedKids(b)
    requires forall q: seq<string> :: q != [] ==> KindIn(a, q) == KindIn(b, q)
    ensures a == b
    decreases a
  {
    if a.Kid? { Head(a); assert KindIn(a, [a.name]) == KindIn(b, [a.name]); }
    if b.Kid? { Head(b); assert KindIn(a, [b.name]) == KindIn(b, [b.name]); }
    if a.Kid? && b.Kid? {
      SameHead(a, b);
      forall q: seq<string> ensures KindAt(a.node, q) == KindAt(b.node, q) {
        assert ([a.name] + q)[1..] == q;
        assert KindIn(a, [a.name] + q) == KindIn(b, [a.name] + q);
      }
      NodeIsShown(a.node, b.node);
      forall q: seq<string> | q != [] ensures KindIn(a.next, q) == KindIn(b.next, q) {
        assert KindIn(a, q) == KindIn(b, q);
        if q[0] == a.name { NotAgain(a); NotAgain(b); }
      }
      KidsAreShown(a.next, b.next);
    }
  }

  lemma Head(kids: Kids)
    requires kids.Kid?
    ensures KindIn(kids, [kids.name]) == Some(Top(kids.node))
  {
    assert [kids.name][1..] == [];
  }

  lemma NotAgain(kids: Kids)
    requires kids.Kid? && InOrder(kids)
    ensures Get(kids.next, kids.name) == None
  {
    if Get(kids.next, kids.name).Some? {
      GetAbove(kids.next, kids.name, kids.name);
      LessTotal(kids.name, kids.name);
    }
  }

  lemma SameHead(a: Kids, b: Kids)
    requires a.Kid? && b.Kid? && InOrder(a) && InOrder(b)
    requires Get(b, a.name).Some? && Get(a, b.name).Some?
    ensures a.name == b.name
  {
    if a.name != b.name {
      GetAbove(b.next, b.name, a.name);
      GetAbove(a.next, a.name, b.name);
      LessTotal(a.name, b.name);
    }
  }

  lemma {:induction false} ProperOrdered(node: Node)
    requires Proper(node)
    ensures Ordered(node)
  {
    if node.Dir? { ProperKidsOrdered(node.kids); }
  }

  lemma {:induction false} ProperKidsOrdered(kids: Kids)
    requires ProperKids(kids)
    ensures OrderedKids(kids)
  {
    if kids.Kid? {
      ProperOrdered(kids.node);
      ProperKidsOrdered(kids.next);
    }
  }

  // ---- the two theorems ------------------------------------------------------------------------------------

  function Root(tree: map<string, Val>, keys: seq<string>, scheme: nat): Val
    requires forall p :: p in keys ==> p in tree
  {
    Hash(Built(tree, keys, |keys|), scheme)
  }

  /** Under a scheme that seals the directories' own entries two states have one root exactly when they are one. */
  lemma RootBindsState(a: map<string, Val>, ka: seq<string>, b: map<string, Val>, kb: seq<string>, scheme: nat)
    requires WellFormed(a) && Listing(a, ka) && WellFormed(b) && Listing(b, kb) && scheme != SCHEME_CHILDREN_ONLY
    ensures Root(a, ka, scheme) == Root(b, kb, scheme) <==> a == b
  {
    var na, nb := Built(a, ka, |ka|), Built(b, kb, |kb|);
    Shows(a, ka, []);
    Shows(b, kb, []);
    HashBinds(na, nb, scheme);
    if na == nb {
      forall q: seq<string> ensures Says(a, q) == Says(b, q) {
        Shows(a, ka, q);
        Shows(b, kb, q);
      }
      SaysAll(a, b);
      SaysAll(b, a);
      assert a.Keys == b.Keys;
    }
    if a == b {
      forall q: seq<string> ensures KindAt(na, q) == KindAt(nb, q) {
        Shows(a, ka, q);
        Shows(b, kb, q);
      }
      ProperOrdered(na);
      ProperOrdered(nb);
      NodeIsShown(na, nb);
    }
  }

  lemma SaysAll(a: map<string, Val>, b: map<string, Val>)
    requires WellFormed(a) && WellFormed(b) && forall q: seq<string> :: Says(a, q) == Says(b, q)
    ensures forall p :: p in a ==> p in b && b[p] == a[p]
  {
    forall p | p in a ensures p in b && b[p] == a[p] {
      var q := Parts(p);
      assert Named(a.Keys, q) && Says(a, q) == Says(b, q);
    }
  }

  /** What a state says of a path, directories' own entries aside: nothing, a directory, or a file and its entry. */
  ghost function Shape(tree: map<string, Val>, q: seq<string>): Option<Node> { StrippedKind(Says(tree, q)) }

  function StrippedKind(k: Option<Node>): Option<Node> {
    match k
    case None => None
    case Some(node) => Some(Stripped(node))
  }

  lemma {:induction false} StrippedShows(node: Node, q: seq<string>)
    ensures KindAt(Stripped(node), q) == StrippedKind(KindAt(node, q))
    decreases |q|
  {
    assert StrippedKids(End) == End;
    if q != [] && node.Dir? {
      StrippedGet(node.kids, q[0]);
      if Get(node.kids, q[0]).Some? { StrippedShows(Get(node.kids, q[0]).value, q[1..]); }
    }
  }

  lemma {:induction false} StrippedGet(kids: Kids, name: string)
    ensures Get(StrippedKids(kids), name) == StrippedKind(Get(kids, name))
  {
    if kids.Kid? { StrippedGet(kids.next, name); }
  }

  lemma {:induction false} StrippedOrdered(node: Node)
    requires Ordered(node)
    ensures Ordered(Stripped(node))
  {
    if node.Dir? { StrippedKidsOrdered(node.kids); }
  }

  lemma {:induction false} StrippedKidsOrdered(kids: Kids)
    requires InOrder(kids) && OrderedKids(kids)
    ensures InOrder(StrippedKids(kids)) && OrderedKids(StrippedKids(kids))
  {
    if kids.Kid? {
      StrippedOrdered(kids.node);
      StrippedKidsOrdered(kids.next);
    }
  }

  /** Under the children-only scheme two states have one root exactly when they have the same files, with the same
      entries, and the same directories. */
  lemma RootBindsShape(a: map<string, Val>, ka: seq<string>, b: map<string, Val>, kb: seq<string>)
    requires WellFormed(a) && Listing(a, ka) && WellFormed(b) && Listing(b, kb)
    ensures Root(a, ka, SCHEME_CHILDREN_ONLY) == Root(b, kb, SCHEME_CHILDREN_ONLY)
            <==> forall q: seq<string> :: Shape(a, q) == Shape(b, q)
  {
    var na, nb := Built(a, ka, |ka|), Built(b, kb, |kb|);
    Shows(a, ka, []);
    Shows(b, kb, []);
    HashBinds(na, nb, SCHEME_CHILDREN_ONLY);
    forall q: seq<string>
      ensures KindAt(Stripped(na), q) == Shape(a, q) && KindAt(Stripped(nb), q) == Shape(b, q)
    {
      Shows(a, ka, q);
      Shows(b, kb, q);
      StrippedShows(na, q);
      StrippedShows(nb, q);
    }
    if forall q: seq<string> :: Shape(a, q) == Shape(b, q) {
      ProperOrdered(na);
      ProperOrdered(nb);
      StrippedOrdered(na);
      StrippedOrdered(nb);
      NodeIsShown(Stripped(na), Stripped(nb));
    }
  }
}
