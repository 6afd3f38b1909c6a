/** Sources whose lists keep their places, so that merging them twice is merging them once. */
module YamlAnchored {
  import opened Strings
  import opened YamlMerge
  import opened YamlCoverage
  import opened YamlPreservation
  import opened YamlRemerge

  // ---------- elements that find themselves again ----------

  /** What makes a target take over the very element that stands in its place. */
  predicate Recognised(t: Tree, target: Tree)
  {
    || NameMatch(t, target)
    || (target.kind == Scalar && TrimSpace(target.value) == "" && Alike(t, target))
  }

  function Below(k: nat): (r: set<int>)
    ensures forall i :: i in r <==> 0 <= i < k
  {
    if k == 0 then {} else Below(k - 1) + {k - 1}
  }

  lemma MatchesItself(kids: seq<Tree>, src: seq<Tree>, k: nat)
    requires k < |kids| == |src| && Recognised(kids[k], src[k])
    ensures MatchElement(kids, Below(k), src[k]) == k
  {
    hide Identity, TrimSpace, Alike;
    assert k !in Below(k) && forall j :: 0 <= j < k ==> j in Below(k);
  }

  lemma {:induction false} PlanInPlace(kids: seq<Tree>, src: seq<Tree>, k: nat)
    requires k <= |kids| == |src| && forall i :: 0 <= i < |src| ==> Recognised(kids[i], src[i])
    ensures forall i :: 0 <= i < |src| - k ==> Plan(kids, Below(k), src[k..])[i] == k + i
    decreases |src| - k
  {
    hide Recognised, MatchElement;
    if k < |src| {
      MatchesItself(kids, src, k);
      assert Below(k) + {k} == Below(k + 1) && src[k..][1..] == src[k + 1..];
      PlanInPlace(kids, src, k + 1);
      var plan, rest := Plan(kids, Below(k), src[k..]), Plan(kids, Below(k + 1), src[k + 1..]);
      assert plan == [k] + rest;
    }
  }

  // ---------- keys as a parser gives them ----------

  predicate KeysTrimmed(kids: seq<Tree>)
  {
    forall j :: 0 <= j && j % 2 == 0 && j + 1 < |kids| ==> Trimmed(kids[j].value)
  }

  /** Mappings in pairs, no key twice, no blanks around a key. */
  ghost predicate TidyKeys(t: Tree)
    decreases t
  {
    && (t.kind == Mapping ==> |t.kids| % 2 == 0 && UniqueKeys(t.kids) && KeysTrimmed(t.kids))
    && forall i :: 0 <= i < |t.kids| ==> TidyKeys(t.kids[i])
  }

  // ---------- named elements ----------

  predicate NamesElement(key: string)
  {
    ToLower(key) in IDENTITY_KEYS
  }

  predicate KeysApart(kids: seq<Tree>)
  {
    forall i, j :: 0 <= i < j && i % 2 == 0 && j % 2 == 0 && j + 1 < |kids| ==>
      ToLower(kids[i].value) != ToLower(kids[j].value)
  }

  /** The pair at j names the element. */
  predicate NamedAt(kids: seq<Tree>, j: nat)
    requires j + 1 < |kids|
  {
    NamesElement(kids[j].value) && TrimSpace(kids[j + 1].value) != ""
  }

  /** A mapping with a name: keys apart from each other and not blank; under the keys that can name an element only
      scalars, at least one with a text, and none of those a known default. */
  ghost predicate NamedElement(t: Tree, path: seq<string>)
  {
    && t.kind == Mapping && |t.kids| % 2 == 0 && KeysTrimmed(t.kids) && KeysApart(t.kids) && NoBlankKey(t)
    && (forall j :: 0 <= j && j % 2 == 0 && j + 1 < |t.kids| && NamesElement(t.kids[j].value) ==>
      t.kids[j + 1].kind == Scalar)
    && (exists j :: 0 <= j && j % 2 == 0 && j + 1 < |t.kids| && NamedAt(t.kids, j))
    && (forall j :: 0 <= j && j % 2 == 0 && j + 1 < |t.kids| && NamedAt(t.kids, j) ==>
          !IsKnownDefault(path + [t.kids[j].value], t.kids[j + 1]))
  }

  lemma {:induction false} ScalarUnderAt(kids: seq<Tree>, name: string, j: nat)
    requires KeysTrimmed(kids) && KeysApart(kids) && j % 2 == 0 && j + 1 < |kids|
      && ToLower(kids[j].value) == ToLower(name)
    ensures ScalarUnder(kids, name) == if kids[j + 1].kind == Scalar then TrimSpace(kids[j + 1].value) else ""
    decreases |kids|
  {
    hide TrimSpace, ToLower;
    KeyText(kids, 0);
    var tail := kids[2..];
    KeysTail(kids);
    if j > 0 {
      assert tail[j - 2] == kids[j] && tail[j - 1] == kids[j + 1];
      ScalarUnderAt(tail, name, j - 2);
    } else {
      forall i | 0 <= i && i % 2 == 0 && i + 1 < |tail| ensures ToLower(tail[i].value) != ToLower(name) {
        assert tail[i] == kids[i + 2];
      }
      ScalarUnderNone(tail, name);
    }
  }

  lemma KeyText(kids: seq<Tree>, j: nat)
    requires KeysTrimmed(kids) && j % 2 == 0 && j + 1 < |kids|
    ensures TrimSpace(kids[j].value) == kids[j].value
  {
  }

  lemma KeysTail(kids: seq<Tree>)
    requires |kids| >= 2 && KeysTrimmed(kids)
    ensures KeysTrimmed(kids[2..]) && (KeysApart(kids) ==> KeysApart(kids[2..]))
  {
    hide ToLower, Trimmed;
    var tail := kids[2..];
    forall j | 0 <= j && j % 2 == 0 && j + 1 < |tail| ensures Trimmed(tail[j].value) { assert tail[j] == kids[j + 2]; }
    if KeysApart(kids) {
      forall i, j | 0 <= i < j && i % 2 == 0 && j % 2 == 0 && j + 1 < |tail|
        ensures ToLower(tail[i].value) != ToLower(tail[j].value)
      {
        assert tail[i] == kids[i + 2] && tail[j] == kids[j + 2];
      }
    }
  }

  lemma {:induction false} ScalarUnderNone(kids: seq<Tree>, name: string)
    requires KeysTrimmed(kids)
    requires forall j :: 0 <= j && j % 2 == 0 && j + 1 < |kids| ==> ToLower(kids[j].value) != ToLower(name)
    ensures ScalarUnder(kids, name) == ""
    decreases |kids|
  {
    hide TrimSpace, ToLower;
    if |kids| >= 2 {
      KeyText(kids, 0);
      KeysTail(kids);
      var tail := kids[2..];
      forall j | 0 <= j && j % 2 == 0 && j + 1 < |tail| ensures ToLower(tail[j].value) != ToLower(name) {
        assert tail[j] == kids[j + 2];
      }
      ScalarUnderNone(tail, name);
    }
  }

  /** In the keys of a tidy tree that come from e, no two are one but for case. */
  lemma KeysOfNamed(t: Tree, e: Tree, path: seq<string>)
    requires NamedElement(e, path) && ElementFits(t, e, path) && TidyKeys(t)
    ensures t.kind == Mapping && KeysTrimmed(t.kids) && NoBlankKey(t)
    ensures forall j :: 0 <= j && j % 2 == 0 && j + 1 < |t.kids| ==> FindKey(e.kids, t.kids[j].value) >= 0
    ensures KeysApart(t.kids)
  {
    hide TrimSpace, ToLower, PairsFit, IsKnownDefault;
    forall j | 0 <= j && j % 2 == 0 && j + 1 < |t.kids|
      ensures FindKey(e.kids, t.kids[j].value) >= 0
    {
      KeyText(t.kids, j);
      LookupFinds(e.kids, t.kids[j].value);
      if Keeps(e.kids, t.kids[j].value) {
        var i :| 0 <= i && i % 2 == 0 && i + 1 < |e.kids| && TrimSpace(e.kids[i].value) == TrimSpace(t.kids[j].value);
        KeyText(e.kids, i);
      }
    }
    forall i, j | 0 <= i < j && i % 2 == 0 && j % 2 == 0 && j + 1 < |t.kids|
      ensures ToLower(t.kids[i].value) != ToLower(t.kids[j].value)
    {
      var a, b := FindKey(e.kids, t.kids[i].value), FindKey(e.kids, t.kids[j].value);
      assert a != b;
    }
    forall j | 0 <= j && j % 2 == 0 && j + 1 < |t.kids|
      ensures TrimSpace(t.kids[j].value) != ""
    {
      var a := FindKey(e.kids, t.kids[j].value);
      assert e.kids[a].value == t.kids[j].value;
    }
  }

  lemma NamedValueFits(t: Tree, e: Tree, path: seq<string>, a: nat)
    requires NamedElement(e, path) && ElementFits(t, e, path) && a % 2 == 0 && a + 1 < |e.kids|
      && NamesElement(e.kids[a].value)
    ensures var found := Lookup(t.kids, e.kids[a].value);
      if found.Some? then found.value.kind == Scalar && found.value.value == e.kids[a + 1].value
      else TrimSpace(e.kids[a + 1].value) == ""
  {
    hide IsKnownDefault, TrimSpace, NamesElement, KeysTrimmed, KeysApart, KeysFrom;
    assert PairFits(t.kids, e.kids, a, path, true);
    assert e.kids[a + 1].kind == Scalar;
    assert TrimSpace(e.kids[a].value) != "";
  }

  lemma ScalarUnderPresent(t: Tree, e: Tree, path: seq<string>, name: string, j: nat)
    requires NamedElement(e, path) && ElementFits(t, e, path) && TidyKeys(t) && name in IDENTITY_KEYS
      && ToLower(name) == name
    requires t.kind == Mapping && j % 2 == 0 && j + 1 < |t.kids| && ToLower(t.kids[j].value) == name
    ensures ScalarUnder(t.kids, name) == ScalarUnder(e.kids, name)
  {
    hide TrimSpace, ToLower, ElementFits, IsKnownDefault, NoBlankKey, ScalarUnder;
    KeysOfNamed(t, e, path);
    var a := FindKey(e.kids, t.kids[j].value);
    LookupAt(t.kids, j);
    NamedValueFits(t, e, path, a);
    ScalarUnderAt(t.kids, name, j);
    ScalarUnderAt(e.kids, name, a);
  }

  lemma ScalarUnderAbsent(t: Tree, e: Tree, path: seq<string>, name: string)
    requires NamedElement(e, path) && ElementFits(t, e, path) && TidyKeys(t) && name in IDENTITY_KEYS
      && ToLower(name) == name
    requires forall j :: 0 <= j && j % 2 == 0 && j + 1 < |t.kids| ==> ToLower(t.kids[j].value) != name
    ensures ScalarUnder(t.kids, name) == ScalarUnder(e.kids, name)
  {
    hide TrimSpace, ToLower, ElementFits, IsKnownDefault, NoBlankKey, ScalarUnder;
    KeysOfNamed(t, e, path);
    ScalarUnderNone(t.kids, name);
    if a :| 0 <= a && a % 2 == 0 && a + 1 < |e.kids| && ToLower(e.kids[a].value) == name {
      LookupFinds(t.kids, e.kids[a].value);
      NamedValueFits(t, e, path, a);
      ScalarUnderAt(e.kids, name, a);
    } else {
      ScalarUnderNone(e.kids, name);
    }
  }

  /** Under a key that can name an element, a tree that fits e has the text that e has. */
  lemma SameScalarUnder(t: Tree, e: Tree, path: seq<string>, name: string)
    requires NamedElement(e, path) && ElementFits(t, e, path) && TidyKeys(t) && name in IDENTITY_KEYS
      && ToLower(name) == name
    ensures ScalarUnder(t.kids, name) == ScalarUnder(e.kids, name)
  {
    hide NamedElement, ElementFits, TidyKeys, ToLower, ScalarUnder;
    assert t.kind == Mapping by { KeysOfNamed(t, e, path); }
    if j :| 0 <= j && j % 2 == 0 && j + 1 < |t.kids| && ToLower(t.kids[j].value) == name {
      ScalarUnderPresent(t, e, path, name, j);
    } else {
      ScalarUnderAbsent(t, e, path, name);
    }
  }

  lemma {:induction false} SameFirstNamed(t: seq<Tree>, e: seq<Tree>, names: seq<string>)
    requires forall i :: 0 <= i < |names| ==> ScalarUnder(t, names[i]) == ScalarUnder(e, names[i])
    ensures FirstNamed(t, names) == FirstNamed(e, names)
    ensures (exists i :: 0 <= i < |names| && ScalarUnder(e, names[i]) != "") ==> FirstNamed(e, names) != ""
  {
    if names != [] {
      assert ScalarUnder(t, names[0]) == ScalarUnder(e, names[0]);
      var tail := names[1..];
      forall i | 0 <= i < |tail| ensures ScalarUnder(t, tail[i]) == ScalarUnder(e, tail[i]) {
        assert tail[i] == names[i + 1];
      }
      SameFirstNamed(t, e, tail);
      if i :| 0 <= i < |names| && ScalarUnder(e, names[i]) != "" {
        if i > 0 { assert tail[i - 1] == names[i]; }
      }
    }
  }

  lemma NamesAreLower()
    ensures forall i :: 0 <= i < |IDENTITY_KEYS| ==> ToLower(IDENTITY_KEYS[i]) == IDENTITY_KEYS[i]
  {
    forall i | 0 <= i < |IDENTITY_KEYS|
      ensures ToLower(IDENTITY_KEYS[i]) == IDENTITY_KEYS[i]
    {
      var n := IDENTITY_KEYS[i];
      assert forall k :: 0 <= k < |n| ==> LowerChar(n[k]) == n[k];
    }
  }

  /** A named element is recognised in whatever tidy tree fits it. */
  lemma NamedRecognised(t: Tree, e: Tree, path: seq<string>)
    requires NamedElement(e, path) && ElementFits(t, e, path) && TidyKeys(t)
    ensures NameMatch(t, e) && NoBlankKey(t)
  {
    hide TrimSpace, ToLower, IsKnownDefault, ScalarUnder, ElementFits;
    KeysOfNamed(t, e, path);
    NamesAreLower();
    forall i | 0 <= i < |IDENTITY_KEYS|
      ensures ScalarUnder(t.kids, IDENTITY_KEYS[i]) == ScalarUnder(e.kids, IDENTITY_KEYS[i])
    {
      SameScalarUnder(t, e, path, IDENTITY_KEYS[i]);
    }
    var j :| 0 <= j && j % 2 == 0 && j + 1 < |e.kids| && NamedAt(e.kids, j);
    var n :| 0 <= n < |IDENTITY_KEYS| && IDENTITY_KEYS[n] == ToLower(e.kids[j].value);
    ScalarUnderAt(e.kids, IDENTITY_KEYS[n], j);
    SameFirstNamed(t.kids, e.kids, IDENTITY_KEYS);
    hide FirstNamed, FirstScalar;
  }

  // ---------- sources with anchored lists ----------

  /** Every element of every list is a scalar or, where mappings are allowed, one that names itself. */
  ghost predicate Anchored(s: Tree, path: seq<string>, named: bool)
    decreases s, 1
  {
    match s.kind
    case Mapping =>
      forall j :: 0 <= j && j % 2 == 0 && j + 1 < |s.kids| ==> Anchored(s.kids[j + 1], path + [s.kids[j].value], named)
    case Sequence => forall i :: 0 <= i < |s.kids| ==> ElementAnchored(s.kids[i], path, named)
    case _ => true
  }

  ghost predicate ElementAnchored(e: Tree, path: seq<string>, named: bool)
    decreases e, 2
  {
    e.kind == Scalar || (named && NamedElement(e, path) && Anchored(e, path, named))
  }

  lemma {:induction false} AnchoredPair(kids: seq<Tree>, src: seq<Tree>, j: nat, path: seq<string>, pruned: bool,
                                        named: bool)
    requires j + 1 < |src| && PairFits(kids, src, j, path, pruned) && WellFormed(src[j + 1])
    requires Anchored(src[j + 1], path + [src[j].value], named)
    requires named ==> forall i :: 0 <= i < |kids| ==> TidyKeys(kids[i])
    ensures PairStable(kids, src, j, path)
    decreases src, 0
  {
    hide Fits, Stable, Anchored, TidyKeys, IsKnownDefault, Prune, WellFormed;
    LookupFinds(kids, src[j].value);
    var found := Lookup(kids, src[j].value);
    if found.Some? { AnchoredStable(found.value, src[j + 1], path + [src[j].value], named); }
  }

  lemma StableTogether(kids: seq<Tree>, src: seq<Tree>, path: seq<string>)
    requires forall j :: 0 <= j && j % 2 == 0 && j + 1 < |src| ==> PairStable(kids, src, j, path)
    ensures PairsStable(kids, src, path)
  {
  }

  lemma FitsEach(kids: seq<Tree>, src: seq<Tree>, j: nat, path: seq<string>, pruned: bool)
    requires PairsFit(kids, src, path, pruned) && j % 2 == 0 && j + 1 < |src|
    ensures PairFits(kids, src, j, path, pruned)
  {
  }

  lemma {:induction false} AnchoredPairs(kids: seq<Tree>, src: seq<Tree>, path: seq<string>, pruned: bool, named: bool)
    requires PairsFit(kids, src, path, pruned) && forall i :: 0 <= i < |src| ==> WellFormed(src[i])
    requires forall j :: 0 <= j && j % 2 == 0 && j + 1 < |src| ==> Anchored(src[j + 1], path + [src[j].value], named)
    requires named ==> forall i :: 0 <= i < |kids| ==> TidyKeys(kids[i])
    ensures PairsStable(kids, src, path)
    decreases src, 1
  {
    hide PairsFit, PairFits, PairStable, PairsStable, Anchored, TidyKeys, WellFormed;
    forall j | 0 <= j && j % 2 == 0 && j + 1 < |src|
      ensures PairStable(kids, src, j, path)
    {
      FitsEach(kids, src, j, path, pruned);
      AnchoredPair(kids, src, j, path, pruned, named);
    }
    StableTogether(kids, src, path);
  }

  lemma ScalarRecognised(t: Tree, e: Tree, path: seq<string>)
    requires e.kind == Scalar && ElementFits(t, e, path)
    ensures Recognised(t, e)
  {
  }

  lemma {:induction false} AnchoredStable(t: Tree, s: Tree, path: seq<string>, named: bool)
    requires WellFormed(s) && Fits(t, s, path) && Anchored(s, path, named) && (named ==> TidyKeys(t))
    ensures Stable(t, s, path)
    decreases s, 1
  {
    match s.kind
    case Mapping =>
      hide PairsFit, PairsStable;
      AnchoredPairs(t.kids, s.kids, path, false, named);
    case Sequence =>
      hide ElementFits, ElementStable, ElementAnchored, Recognised, Plan, MergeElement;
      if t.kind == Sequence {
        forall i | 0 <= i < |s.kids|
          ensures Recognised(t.kids[i], s.kids[i]) && ElementStable(t.kids[i], s.kids[i], path)
        {
          AnchoredElement(t.kids[i], s.kids[i], path, named);
        }
        PlanInPlace(t.kids, s.kids, 0);
        assert s.kids[0..] == s.kids && Below(0) == {};
      }
    case Scalar =>
    case Unknown =>
    case Document =>
  }

  lemma {:induction false} AnchoredElement(t: Tree, e: Tree, path: seq<string>, named: bool)
    requires WellFormed(e) && ElementFits(t, e, path) && ElementAnchored(e, path, named) && (named ==> TidyKeys(t))
    ensures Recognised(t, e) && ElementStable(t, e, path)
    decreases e, 2
  {
    if e.kind == Scalar {
      ScalarRecognised(t, e, path);
    } else {
      hide PairsFit, PairsStable, NamedElement, NameMatch, NoBlankKey, KeysFrom;
      NamedIsMapping(e, path);
      NamedRecognised(t, e, path);
      AnchoredPairs(t.kids, e.kids, path, true, named);
    }
  }

  lemma NamedIsMapping(e: Tree, path: seq<string>)
    requires NamedElement(e, path)
    ensures e.kind == Mapping
  {
  }

  // ---------- tidy keys stay tidy ----------

  ghost predicate TidyKids(kids: seq<Tree>)
  {
    |kids| % 2 == 0 && UniqueKeys(kids) && KeysTrimmed(kids) && forall i :: 0 <= i < |kids| ==> TidyKeys(kids[i])
  }

  lemma {:induction false} TidyPaired(t: Tree)
    requires TidyKeys(t)
    ensures Paired(t)
    decreases t
  {
    forall i | 0 <= i < |t.kids| ensures Paired(t.kids[i]) { TidyPaired(t.kids[i]); }
  }

  lemma TidyTail(kids: seq<Tree>)
    requires TidyKids(kids) && kids != []
    ensures TidyKids(kids[2..]) && Lookup(kids[2..], kids[0].value) == None
  {
    hide TidyKeys, Trimmed;
    UniqueTail(kids);
    KeysTail(kids);
  }

  lemma TidyCons(k: Tree, v: Tree, rest: seq<Tree>)
    requires TidyKids(rest) && TidyKeys(k) && TidyKeys(v) && Trimmed(k.value) && Lookup(rest, k.value) == None
    ensures TidyKids([k, v] + rest)
  {
    hide TidyKeys, Trimmed;
    LookupFinds(rest, k.value);
    var kids := [k, v] + rest;
    forall i, j | 0 <= i < j && i % 2 == 0 && j % 2 == 0 && j + 1 < |kids|
      ensures kids[i].value != kids[j].value
    {
      assert kids[j] == rest[j - 2] && (i > 0 ==> kids[i] == rest[i - 2]);
    }
    forall j | 0 <= j && j % 2 == 0 && j + 1 < |kids| ensures Trimmed(kids[j].value) {
      if j > 0 { assert kids[j] == rest[j - 2]; }
    }
  }

  lemma {:induction false} PruneMissingTidy(kids: seq<Tree>, src: seq<Tree>)
    requires TidyKids(kids)
    ensures TidyKids(PruneMissing(kids, src))
    decreases |kids|
  {
    hide TidyKids, Keeps, TidyKeys, Trimmed;
    if kids == [] {
    } else {
      assert |kids| >= 2 && TidyKeys(kids[0]) && TidyKeys(kids[1]) && Trimmed(kids[0].value) by { TidyHead(kids); }
      TidyTail(kids);
      PruneMissingTidy(kids[2..], src);
      var rest := PruneMissing(kids[2..], src);
      if Keeps(src, kids[0].value) {
        PruneMissingLookup(kids[2..], src, kids[0].value);
        TidyCons(kids[0], kids[1], rest);
      } else {
        assert [] + rest == rest;
      }
    }
  }

  lemma TidyHead(kids: seq<Tree>)
    requires TidyKids(kids) && kids != []
    ensures |kids| >= 2 && TidyKeys(kids[0]) && TidyKeys(kids[1]) && Trimmed(kids[0].value)
  {
  }

  lemma {:induction false} PruneTidy(path: seq<string>, t: Tree)
    requires TidyKeys(t)
    ensures TidyKeys(Prune(path, t))
    decreases t, 1
  {
    if t.kind == Mapping {
      hide PrunePairs;
      PrunePairsTidy(path, t.kids);
    } else if t.kind == Sequence {
      forall i | 0 <= i < |t.kids| ensures TidyKeys(PruneAll(path, t.kids)[i]) {
        PruneAllAt(path, t.kids, i);
        PruneTidy(path, t.kids[i]);
      }
    }
  }

  lemma {:induction false} PrunePairsTidy(path: seq<string>, kids: seq<Tree>)
    requires TidyKids(kids)
    ensures TidyKids(PrunePairs(path, kids))
    decreases kids, 0
  {
    hide TidyKids, TidyKeys, Trimmed, Prune, IsKnownDefault;
    if kids == [] {
      assert TidyKids([]) by { NoKids(); }
    } else {
      assert |kids| >= 2 && TidyKeys(kids[0]) && TidyKeys(kids[1]) && Trimmed(kids[0].value) by { TidyHead(kids); }
      TidyTail(kids);
      PrunePairsTidy(path, kids[2..]);
      var child := path + [kids[0].value];
      PruneTidy(child, kids[1]);
      TidyUnique(kids[2..]);
      LookupPruned(path, kids[2..], kids[0].value);
      if !Dropped(child, kids[1]) {
        TidyCons(kids[0], Prune(child, kids[1]), PrunePairs(path, kids[2..]));
      }
    }
  }

  lemma NoKids()
    ensures TidyKids([])
  {
  }

  lemma TidyUnique(kids: seq<Tree>)
    requires TidyKids(kids)
    ensures |kids| % 2 == 0 && UniqueKeys(kids)
  {
  }

  /** The source's first pair, merged. */
  lemma {:induction false} MergePairTidy(kids: seq<Tree>, src: seq<Tree>, path: seq<string>)
    requires TidyKids(kids) && |src| >= 2 && TidyKeys(src[0]) && TidyKeys(src[1]) && Trimmed(src[0].value)
      && WellFormed(src[1])
    ensures TidyKids(MergePair(kids, src, path))
    decreases src, 0
  {
    hide TidyKeys, Trimmed, MergeNode, Prune, IsKnownDefault, WellFormed;
    var i, child, next := FindKey(kids, src[0].value), path + [src[0].value], MergePair(kids, src, path);
    MergePairPrefix(kids, src, path);
    if i >= 0 {
      OnceTidy(kids[i + 1], src[1], child);
    } else {
      PruneTidy(child, src[1]);
    }
    forall j | 0 <= j && j % 2 == 0 && j + 1 < |next| ensures Trimmed(next[j].value) {
      if j < |kids| { assert next[j] == kids[j]; }
    }
  }

  lemma {:induction false} MergePairsTidy(kids: seq<Tree>, src: seq<Tree>, path: seq<string>)
    requires TidyKids(kids) && KeysTrimmed(src) && forall i :: 0 <= i < |src| ==> TidyKeys(src[i]) && WellFormed(src[i])
    ensures TidyKids(MergePairs(kids, src, path))
    decreases src, 1
  {
    hide TidyKids, TidyKeys, Trimmed, WellFormed, MergePair;
    if |src| >= 2 {
      MergePairTidy(kids, src, path);
      KeysTail(src);
      MergePairsTidy(MergePair(kids, src, path), src[2..], path);
    }
  }

  /** Merging tidy trees gives a tidy tree. */
  lemma {:induction false} OnceTidy(d: Tree, s: Tree, path: seq<string>)
    requires WellFormed(s) && TidyKeys(d) && TidyKeys(s)
    ensures TidyKeys(MergeNode(d, s, path))
    decreases s, 1
  {
    match s.kind
    case Mapping =>
      hide MergePairs, MergeNode, Trimmed;
      MergeNodeAsMapping(d, s, path);
      MergePairsTidy(if d.kind == Mapping then d.kids else s.kids, s.kids, path);
    case Sequence =>
      hide Plan, MergeElement;
      if !(d.kind == Scalar && d.tag == "!!null" && s.kids == []) {
        var original := if d.kind == Sequence then d.kids else [];
        var plan := Plan(original, {}, s.kids);
        forall i | 0 <= i < |s.kids|
          ensures TidyKeys(MergeElements(original, plan, s.kids, path)[i])
        {
          MergeElementsAt(original, plan, s.kids, path, i);
          if plan[i] >= 0 { ElementOnceTidy(original[plan[i]], s.kids[i], path); }
        }
      }
    case Scalar =>
    case Unknown =>
    case Document =>
  }

  lemma {:induction false} ElementOnceTidy(d: Tree, s: Tree, path: seq<string>)
    requires WellFormed(s) && TidyKeys(d) && TidyKeys(s)
    ensures TidyKeys(MergeElement(d, s, path))
    decreases s, 2
  {
    hide MergeNode, PruneMissing, Trimmed;
    OnceTidy(d, s, path);
    var m := MergeNode(d, s, path);
    if m.kind == Mapping && s.kind == Mapping {
      PruneMissingTidy(m.kids, s.kids);
    }
  }

  /** A source whose lists hold scalars only is merged twice as once, whatever the destination was; so is, into a
      destination with tidy keys, one whose list elements are scalars or mappings that name themselves. */
  lemma MergeTwice(d: Tree, s: Tree, path: seq<string>, named: bool)
    requires WellFormed(s) && Paired(d) && Anchored(s, path, named) && (named ==> TidyKeys(d) && TidyKeys(s))
    ensures var once := MergeNode(d, s, path); MergeNode(once, s, path) == once
  {
    OnceFits(d, s, path);
    if named { OnceTidy(d, s, path); }
    AnchoredStable(MergeNode(d, s, path), s, path, named);
    MergeTwiceIff(d, s, path);
  }
}
