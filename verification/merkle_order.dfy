/** The orders and the hashes' inputs of the hierarchy, told by characters and by fields. */
module MerkleOrder {
  import opened MerkleBinding
  import opened MerkleLocalize
  import opened MerkleReport
  import opened MerkleTree
  import opened Wrappers

  /** a comes before b: they agree up to a place where a has ended, or has the smaller character. */
  ghost predicate Precedes(a: string, b: string) { exists n: nat :: DiffersAt(a, b, n) }

  predicate DiffersAt(a: string, b: string, n: nat) {
    n <= |a| && n < |b| && a[..n] == b[..n] && (n == |a| || a[n] as int < b[n] as int)
  }

  /** The order of names and paths is that one, and no other. */
  lemma {:induction false} LessByCharacters(a: string, b: string)
    ensures Less(a, b) <==> Precedes(a, b)
  {
    if b == [] || a == [] || a[0] != b[0] {
      if Less(a, b) { assert DiffersAt(a, b, 0); }
      if n: nat :| DiffersAt(a, b, n) && n > 0 { assert a[..n][0] == b[..n][0]; }
    } else {
      LessByCharacters(a[1..], b[1..]);
      if n: nat :| DiffersAt(a[1..], b[1..], n) { DiffersCons(a, b, n); }
      if n: nat :| DiffersAt(a, b, n) {
        assert n > 0;
        DiffersCons(a, b, n - 1);
      }
    }
  }

  lemma DiffersCons(a: string, b: string, n: nat)
    requires a != [] && b != [] && a[0] == b[0]
    ensures DiffersAt(a[1..], b[1..], n) <==> DiffersAt(a, b, n + 1)
  {
    if n < |b[1..]| && n <= |a[1..]| {
      assert a[..n + 1] == [a[0]] + a[1..][..n] && b[..n + 1] == [b[0]] + b[1..][..n];
      if a[..n + 1] == b[..n + 1] {
        assert a[1..][..n] == a[..n + 1][1..] && b[1..][..n] == b[..n + 1][1..];
      }
    }
  }

  /** The report of two well-formed states ascends, character by character: each path once. */
  lemma ReportByCharacters(a: map<string, Val>, ka: seq<string>, b: map<string, Val>, kb: seq<string>, scheme: nat)
    requires WellFormed(a) && Listing(a, ka) && WellFormed(b) && Listing(b, kb)
    ensures var out := Diverging(a, ka, b, kb, scheme);
            forall i, j :: 0 <= i < j < |out| ==> Precedes(out[i], out[j])
  {
    hide Walk, Less, Precedes, Diverging, WellFormed;
    var out := Diverging(a, ka, b, kb, scheme);
    ReportAscends(a, ka, b, kb, scheme);
    forall i, j | 0 <= i < j < |out| ensures Precedes(out[i], out[j]) { LessByCharacters(out[i], out[j]); }
  }

  /** Of any two states, well-formed or not, it never descends. */
  lemma ReportNeverDescends(a: map<string, Val>, ka: seq<string>, b: map<string, Val>, kb: seq<string>, scheme: nat)
    requires Listing(a, ka) && Listing(b, kb)
    ensures var out := Diverging(a, ka, b, kb, scheme);
            forall i, j :: 0 <= i < j < |out| ==> out[i] == out[j] || Precedes(out[i], out[j])
  {
    hide Walk, Less, Precedes, SpellAll, SortTexts, Built;
    var s := SpellAll("", Walk(Some(Built(a, ka, |ka|)), Some(Built(b, kb, |kb|)), scheme));
    SortTextsSorted(s);
    var out := SortTexts(s);
    forall i, j | 0 <= i < j < |out| ensures out[i] == out[j] || Precedes(out[i], out[j]) {
      LessByCharacters(out[i], out[j]);
    }
  }

  // ---- what a hash is taken over ------------------------------------------------------------------------------

  function Names(kids: Kids): seq<string> {
    match kids
    case End => []
    case Kid(name, _, next) => [name] + Names(next)
  }

  /** One pair for each child, its name and its own hash, in the order of the names. */
  ghost predicate Listed(pairs: seq<Val>, kids: Kids, scheme: nat) {
    var names := Names(kids);
    && |pairs| == |names|
    && (forall name :: name in names <==> Get(kids, name).Some?)
    && (forall i :: 0 <= i < |names| ==>
          Get(kids, names[i]).Some? && pairs[i] == List([Str(names[i]), Hash(Get(kids, names[i]).value, scheme)]))
    && (forall i, j :: 0 <= i < j < |names| ==> Precedes(names[i], names[j]))
  }

  lemma {:induction false} PairsListed(kids: Kids, scheme: nat)
    requires InOrder(kids)
    ensures Listed(PairVals(kids, scheme), kids, scheme)
  {
    hide Hash, Less, Precedes;
    if kids.Kid? {
      var names, rest := Names(kids), Names(kids.next);
      var pairs, later := PairVals(kids, scheme), PairVals(kids.next, scheme);
      PairsListed(kids.next, scheme);
      forall j | 0 <= j < |rest| ensures rest[j] != kids.name && Precedes(kids.name, rest[j]) {
        GetAbove(kids.next, kids.name, rest[j]);
        LessTotal(kids.name, rest[j]);
        LessByCharacters(kids.name, rest[j]);
      }
      forall i | 0 < i < |names| ensures names[i] == rest[i - 1] && pairs[i] == later[i - 1] {
      }
      assert forall name :: name in names <==> name == kids.name || name in rest;
    }
  }

  /** A file's hash is of its entry.  A directory's is of the pairs of its children, and under scheme 2 of its own
      entry, or null, and the pairs. */
  lemma HashedOver(node: Node, scheme: nat)
    requires Proper(node)
    ensures node.File? ==> Hash(node, scheme) == Digest(node.entry)
    ensures node.Dir? ==>
              exists pairs: seq<Val> ::
                && Listed(pairs, node.kids, scheme)
                && Hash(node, scheme)
                   == Digest(if scheme == 1 then List(pairs)
                             else List([match node.own { case Some(entry) => entry case None => Null }, List(pairs)]))
  {
    hide Listed;
    if node.Dir? { PairsListed(node.kids, scheme); }
  }

  /** So it is with every directory of the hierarchy of a flat state, whatever the state. */
  lemma {:induction false} BuiltInOrder(tree: map<string, Val>, keys: seq<string>, n: nat)
    requires n <= |keys| && forall p :: p in keys ==> p in tree
    requires forall p :: p in tree ==> tree[p].Dict?
    ensures Proper(Built(tree, keys, n))
  {
    if n > 0 {
      BuiltInOrder(tree, keys, n - 1);
      var parts := Parts(keys[n - 1]);
      if parts != [] { InsertProper(Built(tree, keys, n - 1), parts, tree[keys[n - 1]]); }
    }
  }
}
