/** Merging the same source a second time. */
module YamlRemerge {
  import opened Strings
  import opened YamlMerge
  import opened YamlCoverage
  import opened YamlPreservation

  // ---------- mappings that a merge leaves alone ----------

  /** Merging the pair at j would change nothing. */
  ghost predicate PairSettled(kids: seq<Tree>, src: seq<Tree>, j: nat, path: seq<string>)
    requires j + 1 < |src|
  {
    var found, child := Lookup(kids, src[j].value), path + [src[j].value];
    if found.Some? then MergeNode(found.value, src[j + 1], child) == found.value
    else IsKnownDefault(child, Prune(child, src[j + 1]))
  }

  lemma {:induction false} SettledPairs(kids: seq<Tree>, src: seq<Tree>, path: seq<string>)
    requires forall j :: 0 <= j && j % 2 == 0 && j + 1 < |src| ==> PairSettled(kids, src, j, path)
    ensures MergePairs(kids, src, path) == kids
    decreases |src|
  {
    hide MergeNode, Prune, IsKnownDefault;
    if |src| >= 2 {
      assert PairSettled(kids, src, 0, path);
      LookupFinds(kids, src[0].value);
      assert MergePair(kids, src, path) == kids;
      var tail := src[2..];
      forall j | 0 <= j && j % 2 == 0 && j + 1 < |tail|
        ensures PairSettled(kids, tail, j, path)
      {
        assert PairSettled(kids, src, j + 2, path);
      }
      SettledPairs(kids, tail, path);
    }
  }

  /** A merge leaves a mapping alone exactly when it leaves every pair alone. */
  lemma PairsFixed(kids: seq<Tree>, src: seq<Tree>, path: seq<string>)
    requires |kids| % 2 == 0 && UniqueKeys(src)
    ensures MergePairs(kids, src, path) == kids <==>
      forall j :: 0 <= j && j % 2 == 0 && j + 1 < |src| ==> PairSettled(kids, src, j, path)
  {
    hide MergeNode, Prune, IsKnownDefault, MergePairs;
    if MergePairs(kids, src, path) == kids {
      forall j | 0 <= j && j % 2 == 0 && j + 1 < |src|
        ensures PairSettled(kids, src, j, path)
      {
        MergedLookup(kids, src, path, src[j].value);
        LookupAt(src, j);
      }
    }
    if forall j :: 0 <= j && j % 2 == 0 && j + 1 < |src| ==> PairSettled(kids, src, j, path) {
      SettledPairs(kids, src, path);
    }
  }

  // ---------- elements that a merge leaves alone ----------

  ghost predicate AllKept(kids: seq<Tree>, src: seq<Tree>)
  {
    forall j :: 0 <= j && j % 2 == 0 && j + 1 < |kids| ==> Keeps(src, kids[j].value)
  }

  ghost predicate NoneKept(kids: seq<Tree>, src: seq<Tree>)
  {
    forall j :: 0 <= j && j % 2 == 0 && j + 1 < |kids| ==> !Keeps(src, kids[j].value)
  }

  /** In an element a pair under a blank key is pruned as soon as it is added. */
  ghost predicate ElementPairSettled(kids: seq<Tree>, src: seq<Tree>, j: nat, path: seq<string>)
    requires j + 1 < |src|
  {
    PairSettled(kids, src, j, path) || (Lookup(kids, src[j].value).None? && TrimSpace(src[j].value) == "")
  }

  lemma {:induction false} PruneAway(kids: seq<Tree>, src: seq<Tree>)
    requires |kids| % 2 == 0 && NoneKept(kids, src)
    ensures PruneMissing(kids, src) == []
    decreases |kids|
  {
    hide Keeps;
    if kids != [] {
      var tail := kids[2..];
      forall j | 0 <= j && j % 2 == 0 && j + 1 < |tail| ensures !Keeps(src, tail[j].value) {
        assert tail[j] == kids[j + 2];
      }
      PruneAway(tail, src);
    }
  }

  lemma {:induction false} PruneBehind(kids: seq<Tree>, junk: seq<Tree>, src: seq<Tree>)
    requires |kids| % 2 == 0 && AllKept(kids, src) && |junk| % 2 == 0 && NoneKept(junk, src)
    ensures PruneMissing(kids + junk, src) == kids
    decreases |kids|
  {
    hide Keeps;
    if kids == [] {
      assert kids + junk == junk;
      PruneAway(junk, src);
    } else {
      var tail := kids[2..];
      forall j | 0 <= j && j % 2 == 0 && j + 1 < |tail| ensures Keeps(src, tail[j].value) {
        assert tail[j] == kids[j + 2];
      }
      PruneBehind(tail, junk, src);
      assert (kids + junk)[2..] == tail + junk && kids == [kids[0], kids[1]] + tail;
    }
  }

  lemma FindIs(kids: seq<Tree>, key: string, i: int)
    requires -1 <= i && (i >= 0 ==> i % 2 == 0 && i + 1 < |kids| && kids[i].value == key)
    requires forall j :: 0 <= j && j % 2 == 0 && j + 1 < |kids| && (i < 0 || j < i) ==> kids[j].value != key
    ensures FindKey(kids, key) == i
  {
  }

  lemma FindConcat(kids: seq<Tree>, junk: seq<Tree>, key: string)
    requires |kids| % 2 == 0
    ensures FindKey(kids + junk, key) ==
      if FindKey(kids, key) >= 0 then FindKey(kids, key)
      else if FindKey(junk, key) >= 0 then |kids| + FindKey(junk, key) else -1
  {
    hide FindKey;
    var all, k, l := kids + junk, FindKey(kids, key), FindKey(junk, key);
    var i := if k >= 0 then k else if l >= 0 then |kids| + l else -1;
    forall j | 0 <= j && j % 2 == 0 && j + 1 < |all| && (i < 0 || j < i)
      ensures all[j].value != key
    {
      var x := if j < |kids| then kids[j] else junk[j - |kids|];
      assert all[j] == x;
    }
    FindIs(all, key, i);
  }

  /** What pairs of the source are added behind a settled element is pruned away again. */
  lemma {:induction false} SettledElement(kids: seq<Tree>, junk: seq<Tree>, rest: seq<Tree>, src: seq<Tree>,
                                          path: seq<string>)
    requires |kids| % 2 == 0 && AllKept(kids, src) && |junk| % 2 == 0 && NoneKept(junk, src)
    requires forall j :: 0 <= j && j % 2 == 0 && j + 1 < |rest| ==> ElementPairSettled(kids, rest, j, path)
    ensures PruneMissing(MergePairs(kids + junk, rest, path), src) == kids
    decreases |rest|
  {
    hide MergeNode, Prune, IsKnownDefault, Keeps, PruneMissing;
    if |rest| < 2 {
      PruneBehind(kids, junk, src);
    } else {
      assert ElementPairSettled(kids, rest, 0, path);
      var junk' := SettledStep(kids, junk, rest, src, path);
      var tail := rest[2..];
      forall j | 0 <= j && j % 2 == 0 && j + 1 < |tail|
        ensures ElementPairSettled(kids, tail, j, path)
      {
        assert ElementPairSettled(kids, rest, j + 2, path);
      }
      SettledElement(kids, junk', tail, src, path);
    }
  }

  lemma SettledStep(kids: seq<Tree>, junk: seq<Tree>, rest: seq<Tree>, src: seq<Tree>, path: seq<string>)
    returns (junk': seq<Tree>)
    requires |kids| % 2 == 0 && |junk| % 2 == 0 && NoneKept(junk, src)
    requires |rest| >= 2 && ElementPairSettled(kids, rest, 0, path)
    ensures |junk'| % 2 == 0 && NoneKept(junk', src)
    ensures MergePair(kids + junk, rest, path) == kids + junk'
  {
    hide MergeNode, Prune, IsKnownDefault, Keeps;
    var key, child := rest[0].value, path + [rest[0].value];
    FindConcat(kids, junk, key);
    LookupFinds(kids, key);
    if Lookup(kids, key).Some? {
      junk' := junk;
    } else if FindKey(junk, key) >= 0 {
      var i := FindKey(junk, key);
      junk' := junk[i + 1 := MergeNode(junk[i + 1], rest[1], child)];
      assert (kids + junk)[|kids| + i + 1 := junk'[i + 1]] == kids + junk';
    } else if IsKnownDefault(child, Prune(child, rest[1])) {
      junk' := junk;
    } else {
      var pair := [rest[0], Prune(child, rest[1])];
      junk' := junk + pair;
      BlankNotKept(src, key);
      assert kids + junk + pair == kids + junk';
    }
  }

  lemma BlankNotKept(src: seq<Tree>, key: string)
    ensures TrimSpace(key) == "" ==> !Keeps(src, key)
  {
  }

  lemma {:induction false} KeptKeys(kids: seq<Tree>, src: seq<Tree>, key: string)
    requires AllKept(kids, src) && Lookup(kids, key).Some?
    ensures Keeps(src, key)
  {
    LookupFinds(kids, key);
  }

  /** Merging and pruning leaves an element alone exactly when all its keys are the source's and no pair changes. */
  lemma ElementPairsFixed(kids: seq<Tree>, src: seq<Tree>, path: seq<string>)
    requires |kids| % 2 == 0 && UniqueKeys(src)
    ensures PruneMissing(MergePairs(kids, src, path), src) == kids <==>
      AllKept(kids, src) && forall j :: 0 <= j && j % 2 == 0 && j + 1 < |src| ==> ElementPairSettled(kids, src, j, path)
  {
    hide MergeNode, Prune, IsKnownDefault, MergePairs, PruneMissing, Keeps;
    var merged := MergePairs(kids, src, path);
    if PruneMissing(merged, src) == kids {
      MergedLookup(kids, src, path, "");
      PruneMissingOnly(merged, src);
      forall j | 0 <= j && j % 2 == 0 && j + 1 < |src|
        ensures ElementPairSettled(kids, src, j, path)
      {
        var key := src[j].value;
        MergedLookup(kids, src, path, key);
        LookupAt(src, j);
        BlankNotKept(src, key);
        if TrimSpace(key) == "" {
          if Lookup(kids, key).Some? { KeptKeys(kids, src, key); }
        } else {
          KeyIsKept(src, j);
          PruneMissingLookup(merged, src, key);
        }
      }
    }
    if AllKept(kids, src)
      && forall j :: 0 <= j && j % 2 == 0 && j + 1 < |src| ==> ElementPairSettled(kids, src, j, path)
    {
      assert kids + [] == kids;
      SettledElement(kids, [], src, src, path);
    }
  }

  lemma KeyIsKept(src: seq<Tree>, j: nat)
    requires j % 2 == 0 && j + 1 < |src|
    ensures TrimSpace(src[j].value) != "" ==> Keeps(src, src[j].value)
  {
  }

  // ---------- trees that a merge of the source has passed over ----------

  /** Every key is kept when foreign keys are pruned, or is a blank key of the source itself. */
  ghost predicate KeysFrom(kids: seq<Tree>, src: seq<Tree>)
  {
    forall j :: 0 <= j && j % 2 == 0 && j + 1 < |kids| ==> Keeps(src, kids[j].value) || Lookup(src, kids[j].value).Some?
  }

  /** t holds what s says, up to blank keys of elements, which an earlier merge may have lost. */
  ghost predicate Fits(t: Tree, s: Tree, path: seq<string>)
    decreases s, 1
  {
    match s.kind
    case Mapping => t.kind == Mapping && PairsFit(t.kids, s.kids, path, false)
    case Sequence =>
      || (t.kind == Scalar && t.tag == "!!null" && s.kids == [])
      || (t.kind == Sequence && |t.kids| == |s.kids|
          && forall i :: 0 <= i < |s.kids| ==> ElementFits(t.kids[i], s.kids[i], path))
    case Scalar => t.kind == Scalar && t.tag == s.tag && t.value == s.value
    case Unknown => true
    case Document => t.kind == Document && t.tag == s.tag && t.value == s.value && t.kids == s.kids
  }

  ghost predicate ElementFits(t: Tree, s: Tree, path: seq<string>)
    decreases s, 2
  {
    if s.kind == Mapping then
      t.kind == Mapping && PairsFit(t.kids, s.kids, path, true) && KeysFrom(t.kids, s.kids)
    else Fits(t, s, path)
  }

  ghost predicate PairsFit(kids: seq<Tree>, src: seq<Tree>, path: seq<string>, pruned: bool)
    decreases src, 0
  {
    |kids| % 2 == 0 && forall j :: 0 <= j && j % 2 == 0 && j + 1 < |src| ==> PairFits(kids, src, j, path, pruned)
  }

  ghost predicate PairFits(kids: seq<Tree>, src: seq<Tree>, j: nat, path: seq<string>, pruned: bool)
    requires j + 1 < |src|
    decreases src, 0, 0
  {
    var found, child := Lookup(kids, src[j].value), path + [src[j].value];
    if found.Some? then Fits(found.value, src[j + 1], child)
    else IsKnownDefault(child, Prune(child, src[j + 1])) || (pruned && TrimSpace(src[j].value) == "")
  }

  lemma PairsFitTogether(kids: seq<Tree>, src: seq<Tree>, path: seq<string>, pruned: bool)
    requires |kids| % 2 == 0
    requires forall j :: 0 <= j && j % 2 == 0 && j + 1 < |src| ==> PairFits(kids, src, j, path, pruned)
    ensures PairsFit(kids, src, path, pruned)
  {
  }

  lemma PairFitsEither(kids: seq<Tree>, src: seq<Tree>, j: nat, path: seq<string>)
    requires j + 1 < |src| && PairFits(kids, src, j, path, false)
    ensures PairFits(kids, src, j, path, true)
  {
  }

  lemma {:induction false} SelfFits(s: Tree, path: seq<string>)
    requires WellFormed(s)
    ensures Fits(s, s, path) && ElementFits(s, s, path)
    decreases s
  {
    if s.kind == Mapping {
      hide IsKnownDefault, Prune, Keeps, PairsFit;
      forall j | 0 <= j && j % 2 == 0 && j + 1 < |s.kids|
        ensures PairFits(s.kids, s.kids, j, path, false) && PairFits(s.kids, s.kids, j, path, true)
        ensures Lookup(s.kids, s.kids[j].value).Some?
      {
        LookupAt(s.kids, j);
        SelfFits(s.kids[j + 1], path + [s.kids[j].value]);
        PairFitsEither(s.kids, s.kids, j, path);
      }
      PairsFitTogether(s.kids, s.kids, path, false);
      PairsFitTogether(s.kids, s.kids, path, true);
    } else {
      forall i | 0 <= i < |s.kids| ensures ElementFits(s.kids[i], s.kids[i], path) { SelfFits(s.kids[i], path); }
    }
  }

  lemma {:induction false} PrunedEven(path: seq<string>, kids: seq<Tree>)
    ensures |PrunePairs(path, kids)| % 2 == 0
    decreases |kids|
  {
    hide Prune, Dropped;
    if |kids| >= 2 { PrunedEven(path, kids[2..]); }
  }

  lemma DroppedIsDefault(path: seq<string>, t: Tree)
    requires Dropped(path, t)
    ensures IsKnownDefault(path, Prune(path, t))
  {
    if IsKnownDefault(path, t) { DefaultPruned(path, t); } else { EmptyIsZero(Prune(path, t)); }
  }

  /** A pruned copy fits what it was copied from. */
  lemma {:induction false} PruneFits(path: seq<string>, s: Tree)
    requires WellFormed(s)
    ensures Fits(Prune(path, s), s, path) && ElementFits(Prune(path, s), s, path)
    decreases s
  {
    if s.kind == Mapping {
      hide IsKnownDefault, Keeps, PairsFit;
      var kids := PrunePairs(path, s.kids);
      PrunedEven(path, s.kids);
      forall j | 0 <= j && j % 2 == 0 && j + 1 < |s.kids|
        ensures PairFits(kids, s.kids, j, path, false) && PairFits(kids, s.kids, j, path, true)
      {
        var child, v := path + [s.kids[j].value], s.kids[j + 1];
        LookupAt(s.kids, j);
        LookupPruned(path, s.kids, s.kids[j].value);
        if Dropped(child, v) { DroppedIsDefault(child, v); } else { PruneFits(child, v); }
        PairFitsEither(kids, s.kids, j, path);
      }
      PairsFitTogether(kids, s.kids, path, false);
      PairsFitTogether(kids, s.kids, path, true);
      forall j | 0 <= j && j % 2 == 0 && j + 1 < |kids| ensures Lookup(s.kids, kids[j].value).Some? {
        LookupFinds(kids, kids[j].value);
        LookupPruned(path, s.kids, kids[j].value);
      }
    } else if s.kind == Sequence {
      forall i | 0 <= i < |s.kids| ensures ElementFits(Prune(path, s).kids[i], s.kids[i], path) {
        PruneAllAt(path, s.kids, i);
        PruneFits(path, s.kids[i]);
      }
    }
  }

  lemma {:induction false} MergedPairFits(kids: seq<Tree>, src: seq<Tree>, path: seq<string>, j: nat)
    requires |kids| % 2 == 0 && AllPaired(kids)
    requires UniqueKeys(src) && forall i :: 0 <= i < |src| ==> WellFormed(src[i])
    requires j % 2 == 0 && j + 1 < |src|
    ensures PairFits(MergePairs(kids, src, path), src, j, path, false)
    decreases src, 0
  {
    hide Fits, Paired, WellFormed, MergeNode, Prune, IsKnownDefault;
    var key, child := src[j].value, path + [src[j].value];
    MergedLookup(kids, src, path, key);
    LookupAt(src, j);
    LookupPaired(kids, key);
    if Lookup(kids, key).Some? {
      OnceFits(Lookup(kids, key).value, src[j + 1], child);
    } else {
      PruneFits(child, src[j + 1]);
    }
  }

  lemma {:induction false} PrunedPairFits(kids: seq<Tree>, src: seq<Tree>, path: seq<string>, j: nat)
    requires |kids| % 2 == 0 && AllPaired(kids)
    requires UniqueKeys(src) && forall i :: 0 <= i < |src| ==> WellFormed(src[i])
    requires j % 2 == 0 && j + 1 < |src|
    ensures PairFits(PruneMissing(MergePairs(kids, src, path), src), src, j, path, true)
    decreases src, 1
  {
    hide Fits, Paired, WellFormed, MergePairs, Prune, IsKnownDefault, PruneMissing, Keeps;
    var key := src[j].value;
    if TrimSpace(key) == "" {
      BlankNotKept(src, key);
      PruneMissingLoses(MergePairs(kids, src, path), src, key);
    } else {
      KeyIsKept(src, j);
      PruneMissingLookup(MergePairs(kids, src, path), src, key);
      MergedPairFits(kids, src, path, j);
    }
  }

  /** Whatever the destination was, the merged tree fits the source. */
  lemma {:induction false} OnceFits(d: Tree, s: Tree, path: seq<string>)
    requires WellFormed(s) && Paired(d)
    ensures Fits(MergeNode(d, s, path), s, path)
    decreases s, 1
  {
    match s.kind
    case Mapping =>
      hide MergePairs, MergeNode, PairsFit, PairFits;
      var kids := if d.kind == Mapping then d.kids else s.kids;
      WellFormedPaired(s);
      MergeNodeAsMapping(d, s, path);
      MergedLookup(kids, s.kids, path, "");
      forall j | 0 <= j && j % 2 == 0 && j + 1 < |s.kids|
        ensures PairFits(MergePairs(kids, s.kids, path), s.kids, j, path, false)
      {
        MergedPairFits(kids, s.kids, path, j);
      }
      PairsFitTogether(MergePairs(kids, s.kids, path), s.kids, path, false);
    case Sequence =>
      hide Plan, ElementFits, MergeElement;
      if !(d.kind == Scalar && d.tag == "!!null" && s.kids == []) {
        var original := if d.kind == Sequence then d.kids else [];
        var plan := Plan(original, {}, s.kids);
        forall i | 0 <= i < |s.kids|
          ensures ElementFits(MergeElements(original, plan, s.kids, path)[i], s.kids[i], path)
        {
          MergeElementsAt(original, plan, s.kids, path, i);
          if plan[i] < 0 {
            SelfFits(s.kids[i], path);
          } else {
            ElementOnceFits(original[plan[i]], s.kids[i], path);
          }
        }
      }
    case Scalar =>
    case Unknown =>
    case Document =>
  }

  lemma {:induction false} ElementOnceFits(d: Tree, s: Tree, path: seq<string>)
    requires WellFormed(s) && Paired(d)
    ensures ElementFits(MergeElement(d, s, path), s, path)
    decreases s, 2
  {
    if s.kind == Mapping {
      hide MergePairs, MergeNode, PruneMissing, PairsFit, PairFits, Keeps;
      var kids := if d.kind == Mapping then d.kids else s.kids;
      WellFormedPaired(s);
      MergeNodeAsMapping(d, s, path);
      MergedLookup(kids, s.kids, path, "");
      var merged := PruneMissing(MergePairs(kids, s.kids, path), s.kids);
      assert MergeElement(d, s, path).kids == merged;
      PruneMissingOnly(MergePairs(kids, s.kids, path), s.kids);
      forall j | 0 <= j && j % 2 == 0 && j + 1 < |s.kids|
        ensures PairFits(merged, s.kids, j, path, true)
      {
        PrunedPairFits(kids, s.kids, path, j);
      }
      PairsFitTogether(merged, s.kids, path, true);
    } else {
      hide Fits, MergeNode;
      OnceFits(d, s, path);
    }
  }

  // ---------- when merging s into a tree that fits it changes nothing ----------

  /** Only lists decide. Each element of t is the copy that the merge would make again, or takes its own place and is
      stable itself, or another element that takes its place comes out as it is. An element that takes its own place has
      no blank key, for such a key would be pruned away. */
  ghost predicate Stable(t: Tree, s: Tree, path: seq<string>)
    decreases s, 1
  {
    match s.kind
    case Mapping => PairsStable(t.kids, s.kids, path)
    case Sequence =>
      t.kind == Sequence && |t.kids| == |s.kids| ==>
        var plan := Plan(t.kids, {}, s.kids);
        forall i :: 0 <= i < |s.kids| ==>
          if plan[i] < 0 then t.kids[i] == s.kids[i]
          else if plan[i] == i then ElementStable(t.kids[i], s.kids[i], path)
          else MergeElement(t.kids[plan[i]], s.kids[i], path) == t.kids[i]
    case _ => true
  }

  ghost predicate ElementStable(t: Tree, s: Tree, path: seq<string>)
    decreases s, 2
  {
    if s.kind == Mapping then NoBlankKey(t) && PairsStable(t.kids, s.kids, path) else Stable(t, s, path)
  }

  ghost predicate PairsStable(kids: seq<Tree>, src: seq<Tree>, path: seq<string>)
    decreases src, 0
  {
    forall j :: 0 <= j && j % 2 == 0 && j + 1 < |src| ==> PairStable(kids, src, j, path)
  }

  ghost predicate PairStable(kids: seq<Tree>, src: seq<Tree>, j: nat, path: seq<string>)
    requires j + 1 < |src|
    decreases src, 0, 0
  {
    var found := Lookup(kids, src[j].value);
    found.Some? ==> Stable(found.value, src[j + 1], path + [src[j].value])
  }

  lemma {:induction false} PairFixed(kids: seq<Tree>, src: seq<Tree>, j: nat, path: seq<string>, pruned: bool)
    requires j + 1 < |src| && PairFits(kids, src, j, path, pruned) && WellFormed(src[j + 1])
    ensures !pruned ==> (PairSettled(kids, src, j, path) <==> PairStable(kids, src, j, path))
    ensures pruned ==> (ElementPairSettled(kids, src, j, path) <==> PairStable(kids, src, j, path))
    decreases src, 0
  {
    hide Fits, Stable, MergeNode, Prune, IsKnownDefault, WellFormed;
    var found := Lookup(kids, src[j].value);
    if found.Some? { FixedIff(found.value, src[j + 1], path + [src[j].value]); }
  }

  lemma StableByPair(kids: seq<Tree>, src: seq<Tree>, path: seq<string>)
    requires forall j :: 0 <= j && j % 2 == 0 && j + 1 < |src| ==>
      (PairSettled(kids, src, j, path) <==> PairStable(kids, src, j, path))
    ensures PairsStable(kids, src, path) <==>
      forall j :: 0 <= j && j % 2 == 0 && j + 1 < |src| ==> PairSettled(kids, src, j, path)
  {
    hide PairSettled, PairStable;
    if PairsStable(kids, src, path) {
      forall j | 0 <= j && j % 2 == 0 && j + 1 < |src| ensures PairSettled(kids, src, j, path) {
        assert PairStable(kids, src, j, path);
      }
    }
  }

  lemma StableByElementPair(kids: seq<Tree>, src: seq<Tree>, path: seq<string>)
    requires forall j :: 0 <= j && j % 2 == 0 && j + 1 < |src| ==>
      (ElementPairSettled(kids, src, j, path) <==> PairStable(kids, src, j, path))
    ensures PairsStable(kids, src, path) <==>
      forall j :: 0 <= j && j % 2 == 0 && j + 1 < |src| ==> ElementPairSettled(kids, src, j, path)
  {
    hide ElementPairSettled, PairStable;
    if PairsStable(kids, src, path) {
      forall j | 0 <= j && j % 2 == 0 && j + 1 < |src| ensures ElementPairSettled(kids, src, j, path) {
        assert PairStable(kids, src, j, path);
      }
    }
  }

  lemma BlanksDecideKept(t: Tree, src: seq<Tree>)
    requires t.kind == Mapping && KeysFrom(t.kids, src)
    ensures AllKept(t.kids, src) <==> NoBlankKey(t)
  {
    forall j | 0 <= j && j % 2 == 0 && j + 1 < |t.kids|
      ensures Keeps(src, t.kids[j].value) <==> TrimSpace(t.kids[j].value) != ""
    {
      LookupFinds(src, t.kids[j].value);
    }
  }

  /** Merging s into a tree that fits it changes nothing exactly when the tree is stable. */
  lemma {:induction false} FixedIff(t: Tree, s: Tree, path: seq<string>)
    requires WellFormed(s) && Fits(t, s, path)
    ensures MergeNode(t, s, path) == t <==> Stable(t, s, path)
    decreases s, 1
  {
    match s.kind
    case Mapping =>
      hide MergePairs, MergeNode, PairFits, PairSettled, PairStable, PairsStable;
      MergeNodeOfMappings(t, s, path);
      PairsFixed(t.kids, s.kids, path);
      forall j | 0 <= j && j % 2 == 0 && j + 1 < |s.kids|
        ensures PairSettled(t.kids, s.kids, j, path) <==> PairStable(t.kids, s.kids, j, path)
      {
        PairFixed(t.kids, s.kids, j, path, false);
      }
      StableByPair(t.kids, s.kids, path);
    case Sequence =>
      hide Plan, ElementFits, ElementStable, MergeElement;
      if t.kind == Sequence {
        var plan := Plan(t.kids, {}, s.kids);
        var merged := MergeElements(t.kids, plan, s.kids, path);
        forall i | 0 <= i < |s.kids|
          ensures merged[i] == t.kids[i] <==>
            if plan[i] < 0 then t.kids[i] == s.kids[i]
            else if plan[i] == i then ElementStable(t.kids[i], s.kids[i], path)
            else MergeElement(t.kids[plan[i]], s.kids[i], path) == t.kids[i]
        {
          MergeElementsAt(t.kids, plan, s.kids, path, i);
          if plan[i] == i { ElementFixedIff(t.kids[i], s.kids[i], path); }
        }
        assert merged == t.kids <==> forall i :: 0 <= i < |s.kids| ==> merged[i] == t.kids[i];
      }
    case Scalar =>
    case Unknown =>
    case Document =>
  }

  lemma {:induction false} ElementFixedIff(t: Tree, s: Tree, path: seq<string>)
    requires WellFormed(s) && ElementFits(t, s, path)
    ensures MergeElement(t, s, path) == t <==> ElementStable(t, s, path)
    decreases s, 2
  {
    if s.kind == Mapping {
      hide MergePairs, MergeNode, PruneMissing, PairFits, ElementPairSettled, PairStable, PairsStable, AllKept,
        NoBlankKey;
      MergeNodeOfMappings(t, s, path);
      ElementPairsFixed(t.kids, s.kids, path);
      BlanksDecideKept(t, s.kids);
      forall j | 0 <= j && j % 2 == 0 && j + 1 < |s.kids|
        ensures ElementPairSettled(t.kids, s.kids, j, path) <==> PairStable(t.kids, s.kids, j, path)
      {
        PairFixed(t.kids, s.kids, j, path, true);
      }
      StableByElementPair(t.kids, s.kids, path);
    } else {
      hide Fits, MergeNode, Stable;
      FixedIff(t, s, path);
    }
  }

  /** For every source with unique keys and every destination: a second merge changes nothing exactly when the merged
      tree is stable. */
  lemma MergeTwiceIff(d: Tree, s: Tree, path: seq<string>)
    requires WellFormed(s) && Paired(d)
    ensures var once := MergeNode(d, s, path); MergeNode(once, s, path) == once <==> Stable(once, s, path)
  {
    OnceFits(d, s, path);
    FixedIff(MergeNode(d, s, path), s, path);
  }
}
