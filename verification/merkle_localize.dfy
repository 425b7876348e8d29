/** Naming where two states differ: the walk down two hierarchies, pruned where the hashes agree. */
module MerkleLocalize {
  import opened MerkleTree
  import opened MerkleBinding
  import opened Wrappers

  type Spot = n: Option<Node> | n.None? || Proper(n.value) witness None

  predicate DirHere(a: Option<Node>) { a.Some? && a.value.Dir? }

  function KidsOf(a: Option<Node>): Kids { if DirHere(a) then a.value.kids else End }

  predicate Clean(a: Option<Node>, b: Option<Node>, scheme: nat) {
    a.Some? && b.Some? && Hash(a.value, scheme) == Hash(b.value, scheme)
  }

  function Weight(node: Node): nat { if node.Dir? then 1 + KidsWeight(node.kids) else 1 }
  function KidsWeight(kids: Kids): nat { if kids.End? then 0 else Weight(kids.node) + KidsWeight(kids.next) }
  function SpotWeight(a: Option<Node>): nat { if a.Some? then Weight(a.value) else 0 }

  lemma {:induction false} WeightPositive(node: Node)
    ensures Weight(node) >= 1
  {
  }

  // ---- the walk --------------------------------------------------------------------------------------------

  /** The paths a walk names, each as the names down to it. */
  function Walk(a: Option<Node>, b: Option<Node>, scheme: nat): seq<seq<string>>
    requires a.Some? || b.Some?
    decreases SpotWeight(a) + SpotWeight(b), 1
  {
    if Clean(a, b, scheme) then []
    else if DirHere(a) || DirHere(b) then
      var inner := WalkKids(KidsOf(a), KidsOf(b), scheme);
      if DirHere(a) != DirHere(b) then inner + [[]] else if inner == [] then [[]] else inner
    else [[]]
  }

  function WalkKids(ka: Kids, kb: Kids, scheme: nat): seq<seq<string>>
    decreases KidsWeight(ka) + KidsWeight(kb), 2
  {
    if ka.End? && kb.End? then []
    else if OnlyLeft(ka, kb) then
      WeightPositive(ka.node);
      Under(ka.name, Walk(Some(ka.node), None, scheme)) + WalkKids(ka.next, kb, scheme)
    else if OnlyRight(ka, kb) then
      WeightPositive(kb.node);
      Under(kb.name, Walk(None, Some(kb.node), scheme)) + WalkKids(ka, kb.next, scheme)
    else
      WeightPositive(ka.node);
      Under(ka.name, Walk(Some(ka.node), Some(kb.node), scheme)) + WalkKids(ka.next, kb.next, scheme)
  }

  /** The next name in order is on one side only. */
  predicate OnlyLeft(ka: Kids, kb: Kids) { ka.Kid? && (kb.End? || Less(ka.name, kb.name)) }
  predicate OnlyRight(ka: Kids, kb: Kids) { kb.Kid? && (ka.End? || Less(kb.name, ka.name)) }

  function Under(name: string, paths: seq<seq<string>>): (r: seq<seq<string>>)
    ensures |r| == |paths| && forall i :: 0 <= i < |paths| ==> r[i] == [name] + paths[i]
  {
    seq(|paths|, i requires 0 <= i < |paths| => [name] + paths[i])
  }

  lemma UnderHas(name: string, paths: seq<seq<string>>, q: seq<string>)
    ensures q in Under(name, paths) <==> q != [] && q[0] == name && q[1..] in paths
  {
    if q in Under(name, paths) {
      var i :| 0 <= i < |paths| && Under(name, paths)[i] == q;
      assert q[1..] == paths[i];
    }
    if q != [] && q[0] == name && q[1..] in paths {
      var i :| 0 <= i < |paths| && paths[i] == q[1..];
      assert Under(name, paths)[i] == q;
    }
  }

  /** Hashes that differ always name something. */
  lemma WalkNames(a: Option<Node>, b: Option<Node>, scheme: nat)
    requires a.Some? || b.Some?
    ensures Walk(a, b, scheme) == [] <==> Clean(a, b, scheme)
  {
  }

  ghost predicate ListedBelow(ka: Kids, kb: Kids, q: seq<string>, scheme: nat) {
    q != [] && (Get(ka, q[0]).Some? || Get(kb, q[0]).Some?) && q[1..] in Walk(Get(ka, q[0]), Get(kb, q[0]), scheme)
  }

  lemma {:induction false} KidsListed(ka: Kids, kb: Kids, q: seq<string>, scheme: nat)
    requires InOrder(ka) && InOrder(kb)
    ensures q in WalkKids(ka, kb, scheme) <==> ListedBelow(ka, kb, q, scheme)
    decreases KidsWeight(ka) + KidsWeight(kb)
  {
    hide Walk, Less;
    if ka.Kid? { WeightPositive(ka.node); NotAgain(ka); }
    if kb.Kid? { WeightPositive(kb.node); NotAgain(kb); }
    if OnlyLeft(ka, kb) {
      KidsListed(ka.next, kb, q, scheme);
      UnderHas(ka.name, Walk(Some(ka.node), None, scheme), q);
      NotOn(kb, ka.name);
    } else if OnlyRight(ka, kb) {
      KidsListed(ka, kb.next, q, scheme);
      UnderHas(kb.name, Walk(None, Some(kb.node), scheme), q);
      NotOn(ka, kb.name);
    } else if ka.Kid? {
      LessTotal(ka.name, kb.name);
      KidsListed(ka.next, kb.next, q, scheme);
      UnderHas(ka.name, Walk(Some(ka.node), Some(kb.node), scheme), q);
    }
  }

  lemma NotOn(kids: Kids, name: string)
    requires InOrder(kids) && Above(name, kids)
    ensures Get(kids, name) == None
  {
    if Get(kids, name).Some? {
      GetAbove(kids, name, name);
      LessTotal(name, name);
    }
  }

  // ---- what the walk names, exactly ------------------------------------------------------------------------

  /** What a scheme sees at a path. */
  function Look(a: Option<Node>, q: seq<string>, scheme: nat): Option<Node> {
    if a.None? then None else KindAt(Seen(a.value, scheme), q)
  }

  ghost predicate Differ(a: Option<Node>, b: Option<Node>, q: seq<string>, scheme: nat) {
    Look(a, q, scheme) != Look(b, q, scheme)
  }

  ghost predicate BothDirs(a: Option<Node>, b: Option<Node>, q: seq<string>, scheme: nat) {
    DirHere(Look(a, q, scheme)) && DirHere(Look(b, q, scheme))
  }

  ghost predicate DifferBelow(a: Option<Node>, b: Option<Node>, q: seq<string>, scheme: nat) {
    exists r: seq<string> :: StrictlyAbove(q, r) && Differ(a, b, r, scheme)
  }

  /** A path is to be named: it differs, unless as a directory with something below it that differs. */
  ghost predicate Named(a: Option<Node>, b: Option<Node>, q: seq<string>, scheme: nat) {
    Differ(a, b, q, scheme) && !(BothDirs(a, b, q, scheme) && DifferBelow(a, b, q, scheme))
  }

  /** Looking one name down. */
  lemma LookDown(a: Option<Node>, name: string, r: seq<string>, scheme: nat)
    ensures Look(a, [name] + r, scheme) == Look(Get(KidsOf(a), name), r, scheme)
  {
    assert ([name] + r)[0] == name && ([name] + r)[1..] == r;
    if DirHere(a) && scheme == SCHEME_CHILDREN_ONLY {
      StrippedGet(a.value.kids, name);
    }
  }

  lemma BelowDown(a: Option<Node>, b: Option<Node>, name: string, q: seq<string>, scheme: nat)
    ensures DifferBelow(a, b, [name] + q, scheme) <==>
              DifferBelow(Get(KidsOf(a), name), Get(KidsOf(b), name), q, scheme)
  {
    hide Look;
    var x, y := Get(KidsOf(a), name), Get(KidsOf(b), name);
    if DifferBelow(a, b, [name] + q, scheme) {
      var r :| StrictlyAbove([name] + q, r) && Differ(a, b, r, scheme);
      assert r[..|[name] + q|][0] == name && r == [name] + r[1..] && r[1..][..|q|] == r[..|[name] + q|][1..];
      LookDown(a, name, r[1..], scheme);
      LookDown(b, name, r[1..], scheme);
      assert StrictlyAbove(q, r[1..]) && Differ(x, y, r[1..], scheme);
    }
    if DifferBelow(x, y, q, scheme) {
      var r :| StrictlyAbove(q, r) && Differ(x, y, r, scheme);
      LookDown(a, name, r, scheme);
      LookDown(b, name, r, scheme);
      assert ([name] + r)[..1 + |q|] == [name] + r[..|q|];
      assert StrictlyAbove([name] + q, [name] + r) && Differ(a, b, [name] + r, scheme);
    }
  }

  lemma SameHash(a: Spot, b: Spot, scheme: nat)
    requires a.Some? && b.Some?
    ensures Clean(a, b, scheme) <==> forall q: seq<string> :: !Differ(a, b, q, scheme)
  {
    HashBinds(a.value, b.value, scheme);
    if forall q: seq<string> :: !Differ(a, b, q, scheme) {
      forall q: seq<string> ensures KindAt(Seen(a.value, scheme), q) == KindAt(Seen(b.value, scheme), q) {
        assert !Differ(a, b, q, scheme);
      }
      SeenOrdered(a.value, scheme);
      SeenOrdered(b.value, scheme);
      NodeIsShown(Seen(a.value, scheme), Seen(b.value, scheme));
    }
  }

  lemma SeenOrdered(node: Node, scheme: nat)
    requires Proper(node)
    ensures Ordered(Seen(node, scheme))
  {
    ProperOrdered(node);
    StrippedOrdered(node);
  }

  lemma GetSpot(a: Spot, name: string)
    ensures Get(KidsOf(a), name).Some? ==> Proper(Get(KidsOf(a), name).value)
    ensures Get(KidsOf(a), name).Some? ==> SpotWeight(Get(KidsOf(a), name)) < SpotWeight(a)
    ensures SpotWeight(Get(KidsOf(a), name)) <= SpotWeight(a)
    ensures InOrder(KidsOf(a))
  {
    if Get(KidsOf(a), name).Some? {
      GetProper(KidsOf(a), name);
      GetWeight(KidsOf(a), name);
    }
  }

  lemma {:induction false} GetWeight(kids: Kids, name: string)
    requires Get(kids, name).Some?
    ensures Weight(Get(kids, name).value) <= KidsWeight(kids)
  {
    if kids.name != name { GetWeight(kids.next, name); }
  }

  /** The walk names a path exactly when it is to be named. */
  lemma {:induction false} WalkExact(a: Spot, b: Spot, q: seq<string>, scheme: nat)
    requires a.Some? || b.Some?
    ensures q in Walk(a, b, scheme) <==> Named(a, b, q, scheme)
    decreases SpotWeight(a) + SpotWeight(b), 2
  {
    hide Look, Hash;
    if Clean(a, b, scheme) {
      SameHash(a, b, scheme);
      assert !Differ(a, b, q, scheme);
    } else if !DirHere(a) && !DirHere(b) {
      LeavesExact(a, b, q, scheme);
    } else if q != [] {
      WalkTail(a, b, q, scheme);
      WalkBelow(a, b, q, scheme);
    } else {
      WalkHere(a, b, scheme);
    }
  }

  /** Below the top a walk names what the walk of the children does. */
  lemma WalkTail(a: Spot, b: Spot, q: seq<string>, scheme: nat)
    requires (DirHere(a) || DirHere(b)) && !Clean(a, b, scheme) && q != []
    ensures q in Walk(a, b, scheme) <==> ListedBelow(KidsOf(a), KidsOf(b), q, scheme)
  {
    hide WalkKids, ListedBelow;
    GetSpot(a, "");
    GetSpot(b, "");
    KidsListed(KidsOf(a), KidsOf(b), q, scheme);
    var inner := WalkKids(KidsOf(a), KidsOf(b), scheme);
    assert q in inner + [[]] <==> q in inner;
    assert q !in [[]];
  }

  lemma WalkBelow(a: Spot, b: Spot, q: seq<string>, scheme: nat)
    requires (DirHere(a) || DirHere(b)) && !Clean(a, b, scheme) && q != []
    ensures ListedBelow(KidsOf(a), KidsOf(b), q, scheme) <==> Named(a, b, q, scheme)
    decreases SpotWeight(a) + SpotWeight(b), 0
  {
    hide Look, Walk, DifferBelow, Hash;
    var name, r := q[0], q[1..];
    assert q == [name] + r;
    var x, y := Get(KidsOf(a), name), Get(KidsOf(b), name);
    LookDown(a, name, r, scheme);
    LookDown(b, name, r, scheme);
    BelowDown(a, b, name, r, scheme);
    if x.Some? || y.Some? {
      GetSpot(a, name);
      GetSpot(b, name);
      WalkExact(x, y, r, scheme);
    }
  }

  lemma LeavesExact(a: Spot, b: Spot, q: seq<string>, scheme: nat)
    requires (a.Some? || b.Some?) && !DirHere(a) && !DirHere(b) && !Clean(a, b, scheme)
    ensures q in Walk(a, b, scheme) <==> Named(a, b, q, scheme)
  {
    assert Walk(a, b, scheme) == [[]];
  }

  lemma WalkHere(a: Spot, b: Spot, scheme: nat)
    requires (DirHere(a) || DirHere(b)) && !Clean(a, b, scheme)
    ensures [] in Walk(a, b, scheme) <==> Named(a, b, [], scheme)
    decreases SpotWeight(a) + SpotWeight(b), 1
  {
    hide Hash, WalkKids;
    GetSpot(a, "");
    GetSpot(b, "");
    var inner := WalkKids(KidsOf(a), KidsOf(b), scheme);
    KidsListed(KidsOf(a), KidsOf(b), [], scheme);
    assert [] !in inner;
    TopLook(a, scheme);
    TopLook(b, scheme);
    if DirHere(a) && DirHere(b) {
      if inner != [] {
        var q := inner[0];
        KidsListed(KidsOf(a), KidsOf(b), q, scheme);
        WalkBelow(a, b, q, scheme);
        assert StrictlyAbove([], q) && Differ(a, b, q, scheme);
      } else {
        SameHash(a, b, scheme);
        var d: seq<string> :| Differ(a, b, d, scheme);
        forall q: seq<string> | q != [] ensures !Differ(a, b, q, scheme) {
          SameBelow(a, b, q, scheme);
        }
      }
    } else {
      assert [] in inner + [[]];
    }
  }

  lemma TopLook(a: Spot, scheme: nat)
    ensures Look(a, [], scheme).Some? <==> a.Some?
    ensures DirHere(Look(a, [], scheme)) <==> DirHere(a)
  {
  }

  /** Children that name nothing do not differ. */
  lemma SameBelow(a: Spot, b: Spot, q: seq<string>, scheme: nat)
    requires DirHere(a) && DirHere(b) && WalkKids(KidsOf(a), KidsOf(b), scheme) == [] && q != []
    ensures !Differ(a, b, q, scheme)
  {
    hide Walk, WalkKids, Hash;
    var name, r := q[0], q[1..];
    assert q == [name] + r;
    var x, y := Get(KidsOf(a), name), Get(KidsOf(b), name);
    LookDown(a, name, r, scheme);
    LookDown(b, name, r, scheme);
    GetSpot(a, name);
    GetSpot(b, name);
    if x.Some? || y.Some? {
      WalkNames(x, y, scheme);
      if Walk(x, y, scheme) != [] {
        var p := Walk(x, y, scheme)[0];
        assert ([name] + p)[1..] == p;
        KidsListed(KidsOf(a), KidsOf(b), [name] + p, scheme);
      }
      SameHash(x, y, scheme);
      assert !Differ(x, y, r, scheme);
    }
  }

  // ---- in place --------------------------------------------------------------------------------------------

  /** A path as it is reported, from the prefix the walk has so far. */
  function Spell(prefix: string, q: seq<string>): string
    decreases |q|
  {
    if q == [] then (if prefix == "" then "/" else prefix)
    else Spell(Longer(prefix, q[0]), q[1..])
  }

  function Longer(prefix: string, name: string): string { if prefix == "" then name else prefix + "/" + name }

  function SpellAll(prefix: string, paths: seq<seq<string>>): (r: seq<string>)
    ensures |r| == |paths| && forall i :: 0 <= i < |paths| ==> r[i] == Spell(prefix, paths[i])
  {
    seq(|paths|, i requires 0 <= i < |paths| => Spell(prefix, paths[i]))
  }

  lemma SpellUnder(prefix: string, name: string, paths: seq<seq<string>>, rest: seq<seq<string>>)
    ensures SpellAll(prefix, Under(name, paths) + rest)
              == SpellAll(Longer(prefix, name), paths) + SpellAll(prefix, rest)
  {
    forall i | 0 <= i < |paths| ensures Spell(prefix, Under(name, paths)[i]) == Spell(Longer(prefix, name), paths[i]) {
      assert ([name] + paths[i])[1..] == paths[i];
    }
  }

  /** _walk, appending to what has been found so far. */
  method WalkOut(a: Option<Node>, b: Option<Node>, prefix: string, found: seq<string>, scheme: nat)
    returns (out: seq<string>)
    requires a.Some? || b.Some?
    ensures out == found + SpellAll(prefix, Walk(a, b, scheme))
    decreases SpotWeight(a) + SpotWeight(b)
  {
    hide Hash, Less;
    out := found;
    if a.Some? && b.Some? && Hash(a.value, scheme) == Hash(b.value, scheme) { return; }
    var aDir, bDir := a.Some? && a.value.Dir?, b.Some? && b.value.Dir?;
    if aDir || bDir {
      var ka, kb := if aDir then a.value.kids else End, if bDir then b.value.kids else End;
      out := WalkChildren(ka, kb, prefix, found, scheme, SpotWeight(a) + SpotWeight(b));
      ghost var inner := WalkKids(ka, kb, scheme);
      assert SpellAll(prefix, inner + [[]]) == SpellAll(prefix, inner) + [Spell(prefix, [])];
      if aDir != bDir || |out| == |found| {
        out := out + [if prefix == "" then "/" else prefix];
      }
    } else {
      out := out + [if prefix == "" then "/" else prefix];
    }
  }

  /** The names of two directories, in order. */
  method WalkChildren(left: Kids, right: Kids, prefix: string, found: seq<string>, scheme: nat, ghost fuel: nat)
    returns (out: seq<string>)
    requires KidsWeight(left) + KidsWeight(right) < fuel
    ensures out == found + SpellAll(prefix, WalkKids(left, right, scheme))
    decreases fuel, 0
  {
    hide Hash, Less, Walk, WalkKids, KidsWeight, Weight, OnlyLeft, OnlyRight, SpellAll, Under;
    var ka, kb := left, right;
    out := found;
    while ka.Kid? || kb.Kid?
      invariant out + SpellAll(prefix, WalkKids(ka, kb, scheme))
                  == found + SpellAll(prefix, WalkKids(left, right, scheme))
      invariant KidsWeight(ka) + KidsWeight(kb) < fuel
      decreases KidsWeight(ka) + KidsWeight(kb)
    {
      var s := NextName(ka, kb);
      NextNameWalks(ka, kb, scheme);
      SpellUnder(prefix, s.name, Walk(s.x, s.y, scheme), WalkKids(s.ka, s.kb, scheme));
      var longer := Longer(prefix, s.name);
      ghost var was, here := out, SpellAll(longer, Walk(s.x, s.y, scheme));
      ghost var rest := SpellAll(prefix, WalkKids(s.ka, s.kb, scheme));
      out := WalkOut(s.x, s.y, longer, out, scheme);
      assert was + (here + rest) == (was + here) + rest;
      ka, kb := s.ka, s.kb;
    }
    NoNames(prefix, scheme);
    assert out + [] == out;
  }

  /** The next name of two directories, who has it, and what is left. */
  datatype Next = Next(name: string, x: Option<Node>, y: Option<Node>, ka: Kids, kb: Kids)

  function NextName(ka: Kids, kb: Kids): Next
    requires ka.Kid? || kb.Kid?
  {
    if OnlyLeft(ka, kb) then Next(ka.name, Some(ka.node), None, ka.next, kb)
    else if OnlyRight(ka, kb) then Next(kb.name, None, Some(kb.node), ka, kb.next)
    else Next(ka.name, Some(ka.node), Some(kb.node), ka.next, kb.next)
  }

  lemma NextNameWalks(ka: Kids, kb: Kids, scheme: nat)
    requires ka.Kid? || kb.Kid?
    ensures var s := NextName(ka, kb);
            && (s.x.Some? || s.y.Some?)
            && WalkKids(ka, kb, scheme) == Under(s.name, Walk(s.x, s.y, scheme)) + WalkKids(s.ka, s.kb, scheme)
            && SpotWeight(s.x) + SpotWeight(s.y) <= KidsWeight(ka) + KidsWeight(kb)
            && KidsWeight(s.ka) + KidsWeight(s.kb) < KidsWeight(ka) + KidsWeight(kb)
  {
    hide Walk, Less;
    if ka.Kid? { WeightPositive(ka.node); }
    if kb.Kid? { WeightPositive(kb.node); }
  }

  lemma NoNames(prefix: string, scheme: nat)
    ensures SpellAll(prefix, WalkKids(End, End, scheme)) == []
  {
  }

  function InsortText(s: seq<string>, x: string): seq<string> {
    if s == [] then [x] else if Less(x, s[0]) then [x] + s else [s[0]] + InsortText(s[1..], x)
  }

  function SortTexts(s: seq<string>): seq<string> {
    if s == [] then [] else InsortText(SortTexts(s[..|s| - 1]), s[|s| - 1])
  }

  lemma {:induction false} InsortTextHas(s: seq<string>, x: string, y: string)
    ensures y in InsortText(s, x) <==> y == x || y in s
  {
    if s != [] && !Less(x, s[0]) { InsortTextHas(s[1..], x, y); }
  }

  lemma {:induction false} SortTextsHas(s: seq<string>, y: string)
    ensures y in SortTexts(s) <==> y in s
  {
    if s != [] {
      SortTextsHas(s[..|s| - 1], y);
      InsortTextHas(SortTexts(s[..|s| - 1]), s[|s| - 1], y);
    }
  }

  /** localize, on two flat states. */
  method Localize(a: map<string, Val>, ka: seq<string>, b: map<string, Val>, kb: seq<string>, scheme: nat)
    returns (out: seq<string>)
    requires Listing(a, ka) && Listing(b, kb)
    ensures out == Diverging(a, ka, b, kb, scheme)
  {
    hide Walk, SortTexts, Built;
    var na := Structure(a, ka);
    var nb := Structure(b, kb);
    out := WalkOut(Some(na), Some(nb), "", [], scheme);
    assert out == SpellAll("", Walk(Some(na), Some(nb), scheme));
    out := SortTexts(out);
  }

  function Diverging(a: map<string, Val>, ka: seq<string>, b: map<string, Val>, kb: seq<string>,
                     scheme: nat): seq<string>
    requires (forall p :: p in ka ==> p in a) && (forall p :: p in kb ==> p in b)
  {
    SortTexts(SpellAll("", Walk(Some(Built(a, ka, |ka|)), Some(Built(b, kb, |kb|)), scheme)))
  }

  // ---- what localize reports -------------------------------------------------------------------------------

  /** Nothing is reported exactly when the roots are equal. */
  lemma NothingReported(a: map<string, Val>, ka: seq<string>, b: map<string, Val>, kb: seq<string>, scheme: nat)
    requires Listing(a, ka) && Listing(b, kb)
    ensures Diverging(a, ka, b, kb, scheme) == [] <==> Root(a, ka, scheme) == Root(b, kb, scheme)
  {
    var w := Walk(Some(Built(a, ka, |ka|)), Some(Built(b, kb, |kb|)), scheme);
    WalkNames(Some(Built(a, ka, |ka|)), Some(Built(b, kb, |kb|)), scheme);
    if w != [] {
      assert SpellAll("", w)[0] in SpellAll("", w);
      SortTextsHas(SpellAll("", w), SpellAll("", w)[0]);
    }
  }

  /** What a scheme seals of a path of a flat state. */
  ghost function Sealed(tree: map<string, Val>, q: seq<string>, scheme: nat): Option<Node> {
    if scheme == SCHEME_CHILDREN_ONLY then Shape(tree, q) else Says(tree, q)
  }

  ghost predicate SealedBelow(a: map<string, Val>, b: map<string, Val>, q: seq<string>, scheme: nat) {
    exists r: seq<string> :: StrictlyAbove(q, r) && Sealed(a, r, scheme) != Sealed(b, r, scheme)
  }

  /** A path is to be reported: what is sealed of it differs, and it is not a directory in both states with something
      below it that differs. */
  ghost predicate ToReport(a: map<string, Val>, b: map<string, Val>, q: seq<string>, scheme: nat) {
    && Sealed(a, q, scheme) != Sealed(b, q, scheme)
    && !(DirHere(Sealed(a, q, scheme)) && DirHere(Sealed(b, q, scheme)) && SealedBelow(a, b, q, scheme))
  }

  lemma LookIsSealed(tree: map<string, Val>, keys: seq<string>, q: seq<string>, scheme: nat)
    requires WellFormed(tree) && Listing(tree, keys)
    ensures Proper(Built(tree, keys, |keys|))
    ensures Look(Some(Built(tree, keys, |keys|)), q, scheme) == Sealed(tree, q, scheme)
  {
    Shows(tree, keys, q);
    StrippedShows(Built(tree, keys, |keys|), q);
  }

  /** The walk over two well-formed states names exactly the paths to be reported. */
  lemma ReportsExactly(a: map<string, Val>, ka: seq<string>, b: map<string, Val>, kb: seq<string>, scheme: nat,
                       q: seq<string>)
    requires WellFormed(a) && Listing(a, ka) && WellFormed(b) && Listing(b, kb)
    ensures q in Walk(Some(Built(a, ka, |ka|)), Some(Built(b, kb, |kb|)), scheme) <==> ToReport(a, b, q, scheme)
  {
    hide Walk, Look, Sealed;
    var na, nb := Built(a, ka, |ka|), Built(b, kb, |kb|);
    LookIsSealed(a, ka, q, scheme);
    LookIsSealed(b, kb, q, scheme);
    WalkExact(Some(na), Some(nb), q, scheme);
    forall r: seq<string>
      ensures Differ(Some(na), Some(nb), r, scheme) <==> Sealed(a, r, scheme) != Sealed(b, r, scheme)
    {
      LookIsSealed(a, ka, r, scheme);
      LookIsSealed(b, kb, r, scheme);
    }
    BelowAgrees(a, b, na, nb, q, scheme);
  }

  lemma BelowAgrees(a: map<string, Val>, b: map<string, Val>, na: Node, nb: Node, q: seq<string>, scheme: nat)
    requires forall r: seq<string> :: Differ(Some(na), Some(nb), r, scheme) <==>
               Sealed(a, r, scheme) != Sealed(b, r, scheme)
    ensures DifferBelow(Some(na), Some(nb), q, scheme) <==> SealedBelow(a, b, q, scheme)
  {
    hide Sealed, Look;
    if DifferBelow(Some(na), Some(nb), q, scheme) {
      var r :| StrictlyAbove(q, r) && Differ(Some(na), Some(nb), r, scheme);
      assert StrictlyAbove(q, r) && Sealed(a, r, scheme) != Sealed(b, r, scheme);
    }
    if SealedBelow(a, b, q, scheme) {
      var r :| StrictlyAbove(q, r) && Sealed(a, r, scheme) != Sealed(b, r, scheme);
      assert StrictlyAbove(q, r) && Differ(Some(na), Some(nb), r, scheme);
    }
  }

  predicate FileIn(tree: map<string, Val>, p: string) { p in tree && !IsDir(tree[p]) }

  /** Every file added, removed or changed is reported by its path. */
  lemma FilesReported(a: map<string, Val>, ka: seq<string>, b: map<string, Val>, kb: seq<string>, scheme: nat,
                      p: string)
    requires WellFormed(a) && Listing(a, ka) && WellFormed(b) && Listing(b, kb)
    requires FileIn(a, p) || FileIn(b, p)
    requires FileIn(a, p) && FileIn(b, p) ==> a[p] != b[p]
    ensures p in Diverging(a, ka, b, kb, scheme)
  {
    hide Walk;
    var q := Parts(p);
    var w := Walk(Some(Built(a, ka, |ka|)), Some(Built(b, kb, |kb|)), scheme);
    FileSealed(a, p, scheme);
    FileSealed(b, p, scheme);
    ReportsExactly(a, ka, b, kb, scheme, q);
    var i :| 0 <= i < |w| && w[i] == q;
    SpellJoins(p);
    assert SpellAll("", w)[i] == p;
    SortTextsHas(SpellAll("", w), p);
  }

  lemma FileSealed(tree: map<string, Val>, p: string, scheme: nat)
    requires WellFormed(tree) && Canonical(p)
    ensures FileIn(tree, p) <==> Sealed(tree, Parts(p), scheme).Some? && Sealed(tree, Parts(p), scheme).value.File?
    ensures FileIn(tree, p) ==> Sealed(tree, Parts(p), scheme) == Some(File(tree[p]))
  {
  }

  // ---- spelling --------------------------------------------------------------------------------------------

  predicate Segments(q: seq<string>) { forall i :: 0 <= i < |q| ==> q[i] != "" }

  lemma {:induction false} SplitSegments(s: string, segment: string)
    ensures Segments(Split(s, segment))
    decreases |s|
  {
    if s != [] {
      SplitSegments(s[1..], []);
      SplitSegments(s[1..], segment + [s[0]]);
    }
  }

  /** From a prefix already spelled, the rest is joined on. */
  lemma {:induction false} SpellSuffix(done: seq<string>, q: seq<string>)
    requires Segments(done + q) && done + q != []
    ensures Spell(Join(done), q) == Join(done + q)
    decreases |q|
  {
    if q == [] {
      assert done + q == done;
      JoinSome(done);
    } else {
      assert (done + [q[0]]) + q[1..] == done + q;
      assert (done + [q[0]])[..|done|] == done;
      assert (done + q)[|done|] == q[0];
      if done != [] {
        assert Segments(done) by {
          forall i | 0 <= i < |done| ensures done[i] != "" {
            assert (done + q)[i] == done[i];
          }
        }
        JoinSome(done);
      }
      SpellSuffix(done + [q[0]], q[1..]);
    }
  }

  lemma {:induction false} JoinSome(q: seq<string>)
    requires Segments(q) && q != []
    ensures Join(q) != ""
  {
  }

  lemma SpellJoins(p: string)
    requires Canonical(p)
    ensures Spell("", Parts(p)) == p
  {
    SplitSegments(p, []);
    assert [] + Parts(p) == Parts(p);
    SpellSuffix([], Parts(p));
  }
}
