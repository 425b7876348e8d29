/** The report as a list of strings: in order, without repeats, and exactly the paths to be reported, spelled. */
module MerkleReport {
  import opened MerkleTree
  import opened MerkleBinding
  import opened MerkleLocalize
  import opened Wrappers

  // ---- sorting ---------------------------------------------------------------------------------------------

  predicate AtMost(a: string, b: string) { a == b || Less(a, b) }

  predicate Sorted(s: seq<string>) { forall i, j :: 0 <= i < j < |s| ==> AtMost(s[i], s[j]) }

  lemma AtMostTrans(a: string, b: string, c: string)
    requires AtMost(a, b) && AtMost(b, c)
    ensures AtMost(a, c)
  {
    if a != b && b != c { LessTrans(a, b, c); }
  }

  lemma PrependSorted(x: string, s: seq<string>)
    requires Sorted(s) && forall j :: 0 <= j < |s| ==> AtMost(x, s[j])
    ensures Sorted([x] + s)
  {
    hide AtMost;
  }

  lemma {:induction false} InsortSorted(s: seq<string>, x: string)
    requires Sorted(s)
    ensures Sorted(InsortText(s, x))
  {
    hide AtMost, Less;
    if s != [] {
      LessTotal(x, s[0]);
      if Less(x, s[0]) {
        forall j | 0 <= j < |s| ensures AtMost(x, s[j]) {
          HeadAtMost(s, j);
          AtMostLess(x, s[0]);
          AtMostTrans(x, s[0], s[j]);
        }
        PrependSorted(x, s);
      } else {
        InsortSorted(s[1..], x);
        var r := InsortText(s[1..], x);
        forall j | 0 <= j < |r| ensures AtMost(s[0], r[j]) {
          InsortTextHas(s[1..], x, r[j]);
          if r[j] == x {
            AtMostLess(s[0], x);
          } else {
            var l :| 0 <= l < |s[1..]| && s[1..][l] == r[j];
            HeadAtMost(s, l + 1);
          }
        }
        PrependSorted(s[0], r);
      }
    }
  }

  lemma {:induction false} InsortCounts(s: seq<string>, x: string)
    ensures multiset(InsortText(s, x)) == multiset(s) + multiset{x}
  {
    hide Less;
    if s != [] {
      assert s == [s[0]] + s[1..];
      if !Less(x, s[0]) { InsortCounts(s[1..], x); }
    }
  }

  lemma HeadAtMost(s: seq<string>, j: nat)
    requires Sorted(s) && j < |s|
    ensures AtMost(s[0], s[j])
  {
  }

  lemma AtMostLess(a: string, b: string)
    requires a == b || Less(a, b)
    ensures AtMost(a, b)
  {
  }

  /** Sorting keeps every string as often as it was there, and puts them in order. */
  lemma {:induction false} SortTextsSorted(s: seq<string>)
    ensures Sorted(SortTexts(s)) && multiset(SortTexts(s)) == multiset(s)
  {
    if s != [] {
      var init := s[..|s| - 1];
      SortTextsSorted(init);
      InsortSorted(SortTexts(init), s[|s| - 1]);
      InsortCounts(SortTexts(init), s[|s| - 1]);
      assert s == init + [s[|s| - 1]];
    }
  }

  // ---- the walk names nothing twice ------------------------------------------------------------------------

  predicate NoRepeats<T(==)>(s: seq<T>) { forall i, j :: 0 <= i < j < |s| ==> s[i] != s[j] }

  lemma NoRepeatsConcat<T>(s: seq<T>, t: seq<T>)
    requires NoRepeats(s) && NoRepeats(t) && forall x :: x in s ==> x !in t
    ensures NoRepeats(s + t)
  {
    forall i, j | 0 <= i < j < |s + t| ensures (s + t)[i] != (s + t)[j] {
      if i < |s| <= j {
        assert (s + t)[i] in s && (s + t)[j] in t;
      }
    }
  }

  lemma UnderOnce(name: string, paths: seq<seq<string>>)
    requires NoRepeats(paths)
    ensures NoRepeats(Under(name, paths))
  {
    var u := Under(name, paths);
    forall i, j | 0 <= i < j < |u| ensures u[i] != u[j] {
      assert u[i][1..] == paths[i] && u[j][1..] == paths[j];
    }
  }

  lemma {:induction false} WalkOnce(a: Spot, b: Spot, scheme: nat)
    requires a.Some? || b.Some?
    ensures NoRepeats(Walk(a, b, scheme))
    decreases SpotWeight(a) + SpotWeight(b), 0
  {
    hide Hash, WalkKids;
    if !Clean(a, b, scheme) && (DirHere(a) || DirHere(b)) {
      GetSpot(a, "");
      GetSpot(b, "");
      var ka, kb := KidsOf(a), KidsOf(b);
      KidsSpots(a);
      KidsSpots(b);
      KidsOnce(ka, kb, scheme);
      var inner := WalkKids(ka, kb, scheme);
      forall q | q in inner ensures q !in [[]] {
        KidsListed(ka, kb, q, scheme);
      }
      NoRepeatsConcat(inner, [[]]);
    }
  }

  lemma KidsSpots(a: Spot)
    ensures ProperKids(KidsOf(a)) && InOrder(KidsOf(a))
    ensures DirHere(a) ==> KidsWeight(KidsOf(a)) < SpotWeight(a)
    ensures KidsWeight(KidsOf(a)) <= SpotWeight(a)
  {
  }

  lemma {:induction false} KidsOnce(ka: Kids, kb: Kids, scheme: nat)
    requires InOrder(ka) && InOrder(kb) && ProperKids(ka) && ProperKids(kb)
    ensures NoRepeats(WalkKids(ka, kb, scheme))
    decreases KidsWeight(ka) + KidsWeight(kb), 1
  {
    hide Walk, Less, WalkKids, KidsWeight, Weight;
    if ka.End? && kb.End? {
      NoNames("", scheme);
    } else {
      var s := NextName(ka, kb);
      NextNameWalks(ka, kb, scheme);
      NextNameProper(ka, kb);
      WalkOnce(s.x, s.y, scheme);
      KidsOnce(s.ka, s.kb, scheme);
      var here, rest := Under(s.name, Walk(s.x, s.y, scheme)), WalkKids(s.ka, s.kb, scheme);
      UnderOnce(s.name, Walk(s.x, s.y, scheme));
      forall q | q in here ensures q !in rest {
        UnderHas(s.name, Walk(s.x, s.y, scheme), q);
        KidsListed(s.ka, s.kb, q, scheme);
      }
      NoRepeatsConcat(here, rest);
    }
  }

  /** What is left after the next name is still in order, and does not have it. */
  lemma NextNameProper(ka: Kids, kb: Kids)
    requires InOrder(ka) && InOrder(kb) && ProperKids(ka) && ProperKids(kb) && (ka.Kid? || kb.Kid?)
    ensures var s := NextName(ka, kb);
            && InOrder(s.ka) && InOrder(s.kb) && ProperKids(s.ka) && ProperKids(s.kb)
            && (s.x.Some? ==> Proper(s.x.value)) && (s.y.Some? ==> Proper(s.y.value))
            && Get(s.ka, s.name) == None && Get(s.kb, s.name) == None
  {
    hide Less, Proper;
    if ka.Kid? { NotAgain(ka); }
    if kb.Kid? { NotAgain(kb); }
    if OnlyLeft(ka, kb) {
      NotOn(kb, ka.name);
    } else if OnlyRight(ka, kb) {
      NotOn(ka, kb.name);
    } else {
      LessTotal(ka.name, kb.name);
    }
  }

  // ---- spelled paths ---------------------------------------------------------------------------------------

  predicate Plain(segment: string) { segment != "" && '/' !in segment }

  predicate PlainAll(q: seq<string>) { forall i :: 0 <= i < |q| ==> Plain(q[i]) }

  lemma {:induction false} SplitPlain(s: string, segment: string)
    requires '/' !in segment
    ensures PlainAll(Split(s, segment))
    decreases |s|
  {
    if s != [] {
      SplitPlain(s[1..], []);
      if s[0] != '/' { SplitPlain(s[1..], segment + [s[0]]); }
    }
  }

  lemma {:induction false} SplitAt(s: string, t: string, segment: string)
    ensures Split(s + "/" + t, segment) == Split(s, segment) + Split(t, [])
    decreases |s|
  {
    if s == [] {
      assert (s + "/" + t)[1..] == t;
    } else {
      assert (s + "/" + t)[1..] == s[1..] + "/" + t;
      if s[0] == '/' {
        SplitAt(s[1..], t, []);
      } else {
        SplitAt(s[1..], t, segment + [s[0]]);
      }
    }
  }

  lemma {:induction false} SplitOne(s: string, segment: string)
    requires '/' !in s
    ensures Split(s, segment) == Closed(segment + s)
    decreases |s|
  {
    if s == [] {
      assert segment + s == segment;
    } else {
      SplitOne(s[1..], segment + [s[0]]);
      assert segment + [s[0]] + s[1..] == segment + s;
    }
  }

  /** Plain segments joined and split again are the same segments. */
  lemma {:induction false} JoinParts(q: seq<string>)
    requires PlainAll(q) && q != []
    ensures Parts(Join(q)) == q
    decreases |q|
  {
    var last := q[|q| - 1];
    SplitOne(last, []);
    assert [] + last == last;
    if |q| > 1 {
      var init := q[..|q| - 1];
      JoinParts(init);
      SplitAt(Join(init), last, []);
      assert q == init + [last];
    }
  }

  /** The spelling of a path can be read back. */
  lemma SpellParts(q: seq<string>)
    requires PlainAll(q)
    ensures Parts(Spell("", q)) == q
  {
    if q == [] {
      assert Split("/", []) == Closed([]) + Split("/"[1..], []);
    } else {
      assert [] + q == q;
      SpellSuffix([], q);
      JoinParts(q);
    }
  }

  lemma SealedPlain(tree: map<string, Val>, q: seq<string>, scheme: nat)
    requires Sealed(tree, q, scheme).Some?
    ensures PlainAll(q)
  {
    if q != [] && !MerkleBinding.Named(tree.Keys, q) {
      var p :| p in tree.Keys && StrictlyAbove(q, Parts(p));
      SplitPlain(p, []);
      forall i | 0 <= i < |q| ensures Plain(q[i]) {
        assert q[i] == Parts(p)[i];
      }
    } else if q != [] {
      SplitPlain(Join(q), []);
    }
  }

  // ---- the report ------------------------------------------------------------------------------------------

  /** A string is reported exactly when it spells a path to be reported. */
  lemma ReportedExactly(a: map<string, Val>, ka: seq<string>, b: map<string, Val>, kb: seq<string>, scheme: nat,
                        t: string)
    requires WellFormed(a) && Listing(a, ka) && WellFormed(b) && Listing(b, kb)
    ensures t in Diverging(a, ka, b, kb, scheme) <==>
              exists q: seq<string> :: ToReport(a, b, q, scheme) && t == Spell("", q)
  {
    hide Walk, ToReport, Spell, SortTexts;
    var w := Walk(Some(Built(a, ka, |ka|)), Some(Built(b, kb, |kb|)), scheme);
    SortTextsHas(SpellAll("", w), t);
    if t in SpellAll("", w) {
      var i :| 0 <= i < |w| && SpellAll("", w)[i] == t;
      ReportsExactly(a, ka, b, kb, scheme, w[i]);
      assert ToReport(a, b, w[i], scheme) && t == Spell("", w[i]);
    }
    if q: seq<string> :| ToReport(a, b, q, scheme) && t == Spell("", q) {
      ReportsExactly(a, ka, b, kb, scheme, q);
      var i :| 0 <= i < |w| && w[i] == q;
      assert SpellAll("", w)[i] == t;
    }
  }

  lemma SpellOnce(a: map<string, Val>, ka: seq<string>, b: map<string, Val>, kb: seq<string>, scheme: nat)
    requires WellFormed(a) && Listing(a, ka) && WellFormed(b) && Listing(b, kb)
    ensures NoRepeats(SpellAll("", Walk(Some(Built(a, ka, |ka|)), Some(Built(b, kb, |kb|)), scheme)))
  {
    hide Walk, Spell, Sealed, Parts;
    var w := Walk(Some(Built(a, ka, |ka|)), Some(Built(b, kb, |kb|)), scheme);
    LookIsSealed(a, ka, [], scheme);
    LookIsSealed(b, kb, [], scheme);
    WalkOnce(Some(Built(a, ka, |ka|)), Some(Built(b, kb, |kb|)), scheme);
    forall i | 0 <= i < |w| ensures Parts(SpellAll("", w)[i]) == w[i] {
      ReportsExactly(a, ka, b, kb, scheme, w[i]);
      if Sealed(a, w[i], scheme).Some? { SealedPlain(a, w[i], scheme); } else { SealedPlain(b, w[i], scheme); }
      SpellParts(w[i]);
    }
  }

  /** The report is in strictly ascending order: each path once. */
  lemma ReportAscends(a: map<string, Val>, ka: seq<string>, b: map<string, Val>, kb: seq<string>, scheme: nat)
    requires WellFormed(a) && Listing(a, ka) && WellFormed(b) && Listing(b, kb)
    ensures var out := Diverging(a, ka, b, kb, scheme); forall i, j :: 0 <= i < j < |out| ==> Less(out[i], out[j])
  {
    hide Walk, Less, SpellAll, SortTexts;
    var s := SpellAll("", Walk(Some(Built(a, ka, |ka|)), Some(Built(b, kb, |kb|)), scheme));
    SpellOnce(a, ka, b, kb, scheme);
    SortTextsSorted(s);
    SameCountOnce(s, SortTexts(s));
  }

  lemma SameCountOnce(s: seq<string>, t: seq<string>)
    requires NoRepeats(s) && multiset(s) == multiset(t)
    ensures NoRepeats(t)
  {
    forall i, j | 0 <= i < j < |t| ensures t[i] != t[j] {
      if t[i] == t[j] {
        Twice(t, i, j);
        Once(s, t[i]);
      }
    }
  }

  lemma {:induction false} Once(s: seq<string>, x: string)
    requires NoRepeats(s)
    ensures multiset(s)[x] <= 1
  {
    if s != [] {
      assert s == [s[0]] + s[1..];
      Once(s[1..], x);
      if s[0] == x {
        assert x !in s[1..] by {
          forall j | 0 <= j < |s[1..]| ensures s[1..][j] != x { assert s[1..][j] == s[j + 1]; }
        }
      }
    }
  }

  lemma Twice(t: seq<string>, i: nat, j: nat)
    requires i < j < |t| && t[i] == t[j]
    ensures multiset(t)[t[i]] >= 2
  {
    assert t == t[..j] + t[j..];
    assert t[..j][i] == t[i] && t[j..][0] == t[j];
    assert t[i] in t[..j] && t[i] in t[j..];
  }
}
