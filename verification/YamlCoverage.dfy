/** What a merged YAML tree has of its source, and what it keeps of its destination. */
module YamlCoverage {
  import opened Strings
  import opened YamlMerge

  // ---------- looking up keys ----------

  /** The value under the first key with that text. */
  function Lookup(kids: seq<Tree>, key: string): Option<Tree>
  {
    if |kids| < 2 then None
    else if kids[0].value == key then Some(kids[1])
    else Lookup(kids[2..], key)
  }

  lemma {:induction false} LookupFinds(kids: seq<Tree>, key: string)
    ensures var i := FindKey(kids, key); Lookup(kids, key) == if i >= 0 then Some(kids[i + 1]) else None
    decreases |kids|
  {
    if |kids| >= 2 && kids[0].value != key {
      LookupFinds(kids[2..], key);
      var i, k := FindKey(kids, key), FindKey(kids[2..], key);
      if k >= 0 { assert kids[k + 2].value == key; }
      if i >= 0 { assert kids[2..][i - 2].value == key; }
    }
  }

  /** No two keys of a mapping have one text. */
  ghost predicate UniqueKeys(kids: seq<Tree>)
  {
    forall i, j :: 0 <= i < j && i % 2 == 0 && j % 2 == 0 && j + 1 < |kids| ==> kids[i].value != kids[j].value
  }

  /** Mappings in pairs, no key twice. */
  ghost predicate WellFormed(t: Tree)
    decreases t
  {
    && (t.kind == Mapping ==> |t.kids| % 2 == 0 && UniqueKeys(t.kids))
    && forall i :: 0 <= i < |t.kids| ==> WellFormed(t.kids[i])
  }

  /** Mappings come in pairs throughout. */
  ghost predicate Paired(t: Tree)
    decreases t
  {
    (t.kind == Mapping ==> |t.kids| % 2 == 0) && forall i :: 0 <= i < |t.kids| ==> Paired(t.kids[i])
  }

  // ---------- coverage ----------

  /** d says all that s says: a key of s that d lacks stands for a known default. */
  ghost predicate Covers(d: Tree, s: Tree, path: seq<string>)
    decreases s, 1
  {
    match s.kind
    case Mapping => d.kind == Mapping && CoversPairs(d.kids, s.kids, path)
    case Sequence =>
      || (d.kind == Scalar && d.tag == "!!null" && s.kids == [])
      || (d.kind == Sequence && |d.kids| == |s.kids| && forall i :: 0 <= i < |s.kids| ==>
        Covers(d.kids[i], s.kids[i], path))
    case Scalar => d.kind == Scalar && d.tag == s.tag && d.value == s.value
    case Unknown => true
    case Document => d.kind == Document && d.tag == s.tag && d.value == s.value && d.kids == s.kids
  }

  ghost predicate CoversPairs(kids: seq<Tree>, src: seq<Tree>, path: seq<string>)
    decreases src, 0
  {
    forall j :: 0 <= j && j % 2 == 0 && j + 1 < |src| ==> CoversPair(kids, src, j, path)
  }

  ghost predicate CoversPair(kids: seq<Tree>, src: seq<Tree>, j: nat, path: seq<string>)
    requires j + 1 < |src|
    decreases src, 0, 0
  {
    var found, child := Lookup(kids, src[j].value), path + [src[j].value];
    if found.Some? then Covers(found.value, src[j + 1], child)
    else IsKnownDefault(child, Prune(child, src[j + 1]))
  }

  // ---------- pruning keeps coverage ----------

  lemma {:induction false} ZeroPruned(path: seq<string>, t: Tree)
    requires IsZero(t)
    ensures IsZero(Prune(path, t))
    decreases t, 1
  {
    if t.kind == Mapping {
      ZeroPairsPruned(path, t.kids);
    } else if t.kind == Sequence {
      ZeroAllPruned(path, t.kids, 0);
      assert t.kids[0..] == t.kids;
    }
  }

  lemma {:induction false} AllZeroShift(kids: seq<Tree>, step: nat, from: nat, k: nat)
    requires step > 0 && k <= from && k <= |kids|
    ensures AllZero(kids, step, from) == AllZero(kids[k..], step, from - k)
    decreases |kids| - from
  {
    if from < |kids| {
      AllZeroShift(kids, step, from + step, k);
      assert kids[k..][from - k] == kids[from];
    }
  }

  lemma {:induction false} ZeroPairsPruned(path: seq<string>, kids: seq<Tree>)
    requires AllZero(kids, 2, 1)
    ensures PrunePairs(path, kids) == []
    decreases kids, 0
  {
    if |kids| >= 2 {
      AllZeroShift(kids, 2, 3, 2);
      ZeroPairsPruned(path, kids[2..]);
    }
  }

  lemma {:induction false} ZeroAllPruned(path: seq<string>, kids: seq<Tree>, from: nat)
    requires from <= |kids| && AllZero(kids[from..], 1, 0)
    ensures AllZero(PruneAll(path, kids[from..]), 1, 0)
    decreases kids, 0, |kids| - from
  {
    if from < |kids| {
      var rest := kids[from..];
      AllZeroShift(rest, 1, 1, 1);
      assert rest[1..] == kids[from + 1..];
      ZeroPruned(path, kids[from]);
      ZeroAllPruned(path, kids, from + 1);
      var pruned := PruneAll(path, rest);
      assert pruned[1..] == PruneAll(path, kids[from + 1..]);
      AllZeroShift(pruned, 1, 1, 1);
    }
  }

  /** A default stays one when pruned, so it is dropped either way. */
  lemma DefaultPruned(path: seq<string>, t: Tree)
    requires IsKnownDefault(path, t)
    ensures IsKnownDefault(path, Prune(path, t))
  {
    if IsZero(t) {
      ZeroPruned(path, t);
    }
  }

  lemma {:induction false} LookupAt(kids: seq<Tree>, j: nat)
    requires UniqueKeys(kids) && j % 2 == 0 && j + 1 < |kids|
    ensures Lookup(kids, kids[j].value) == Some(kids[j + 1])
    decreases |kids|
  {
    if j > 0 {
      assert kids[0].value != kids[j].value;
      UniqueTail(kids);
      LookupAt(kids[2..], j - 2);
      assert kids[2..][j - 2] == kids[j] && kids[2..][j - 1] == kids[j + 1];
    }
  }

  lemma UniqueTail(kids: seq<Tree>)
    requires UniqueKeys(kids) && |kids| >= 2
    ensures UniqueKeys(kids[2..])
    ensures Lookup(kids[2..], kids[0].value) == None
  {
    var tail := kids[2..];
    forall i, j | 0 <= i < j && i % 2 == 0 && j % 2 == 0 && j + 1 < |tail|
      ensures tail[i].value != tail[j].value
    {
      assert tail[i] == kids[i + 2] && tail[j] == kids[j + 2];
    }
    forall i | 0 <= i && i % 2 == 0 && i + 1 < |tail|
      ensures tail[i].value != kids[0].value
    {
      assert tail[i] == kids[i + 2];
    }
    LookupFinds(tail, kids[0].value);
  }

  lemma {:induction false} LookupPruned(path: seq<string>, kids: seq<Tree>, key: string)
    requires UniqueKeys(kids)
    ensures Lookup(PrunePairs(path, kids), key) ==
            var found, child := Lookup(kids, key), path + [key];
            if found.None? || Dropped(child, found.value) then None else Some(Prune(child, found.value))
    decreases |kids|
  {
    if |kids| >= 2 {
      UniqueTail(kids);
      LookupPruned(path, kids[2..], key);
      var child := path + [kids[0].value];
      if !Dropped(child, kids[1]) {
        var pair, rest := [kids[0], Prune(child, kids[1])], PrunePairs(path, kids[2..]);
        assert (pair + rest)[2..] == rest;
      }
    }
  }

  lemma {:induction false} PruneAllAt(path: seq<string>, kids: seq<Tree>, i: nat)
    requires i < |kids|
    ensures PruneAll(path, kids)[i] == Prune(path, kids[i])
    decreases |kids|
  {
    if i > 0 { PruneAllAt(path, kids[1..], i - 1); }
  }

  lemma EmptyIsZero(t: Tree)
    ensures IsEmptyCollection(t) ==> IsZero(t)
  {
  }

  /** A pruned copy covers what it was copied from. */
  lemma {:induction false} PruneCovers(path: seq<string>, t: Tree)
    requires WellFormed(t)
    ensures Covers(Prune(path, t), t, path)
    decreases t
  {
    if t.kind == Mapping {
      forall j | 0 <= j && j % 2 == 0 && j + 1 < |t.kids|
        ensures CoversPair(PrunePairs(path, t.kids), t.kids, j, path)
      {
        var key, v := t.kids[j].value, t.kids[j + 1];
        var child := path + [key];
        LookupAt(t.kids, j);
        LookupPruned(path, t.kids, key);
        PruneCovers(child, v);
        if IsKnownDefault(child, v) { DefaultPruned(child, v); }
        EmptyIsZero(Prune(child, v));
      }
    } else if t.kind == Sequence {
      forall i | 0 <= i < |t.kids|
        ensures Covers(PruneAll(path, t.kids)[i], t.kids[i], path)
      {
        PruneAllAt(path, t.kids, i);
        PruneCovers(path, t.kids[i]);
      }
    }
  }

  /** A tree covers itself. */
  lemma {:induction false} SelfCovers(t: Tree, path: seq<string>)
    requires WellFormed(t)
    ensures Covers(t, t, path)
    decreases t
  {
    if t.kind == Mapping {
      forall j | 0 <= j && j % 2 == 0 && j + 1 < |t.kids|
        ensures CoversPair(t.kids, t.kids, j, path)
      {
        LookupAt(t.kids, j);
        SelfCovers(t.kids[j + 1], path + [t.kids[j].value]);
      }
    } else if t.kind == Sequence {
      forall i | 0 <= i < |t.kids| ensures Covers(t.kids[i], t.kids[i], path) {
        SelfCovers(t.kids[i], path);
      }
    }
  }

  // ---------- one pair merged ----------

  lemma {:induction false} LookupSet(kids: seq<Tree>, i: nat, v: Tree, key: string)
    requires i % 2 == 0 && i + 1 < |kids|
    requires forall j :: 0 <= j < i && j % 2 == 0 ==> kids[j].value != kids[i].value
    ensures Lookup(kids[i + 1 := v], key) == if key == kids[i].value then Some(v) else Lookup(kids, key)
    decreases |kids|
  {
    if i > 0 {
      assert kids[i + 1 := v][2..] == kids[2..][i - 1 := v];
      LookupSet(kids[2..], i - 2, v, key);
    } else {
      assert kids[1 := v][2..] == kids[2..];
    }
  }

  lemma {:induction false} LookupAdded(kids: seq<Tree>, k: Tree, v: Tree, key: string)
    requires |kids| % 2 == 0
    ensures Lookup(kids + [k, v], key) ==
            if Lookup(kids, key).Some? then Lookup(kids, key) else if k.value == key then Some(v) else None
    decreases |kids|
  {
    if kids != [] {
      assert (kids + [k, v])[2..] == kids[2..] + [k, v];
      LookupAdded(kids[2..], k, v, key);
    }
  }

  /** The effect of one source pair on every key. */
  lemma MergePairLookup(kids: seq<Tree>, src: seq<Tree>, path: seq<string>, key: string)
    requires |kids| % 2 == 0 && |src| >= 2
    ensures |MergePair(kids, src, path)| % 2 == 0
    ensures Lookup(MergePair(kids, src, path), key) ==
            var found, child := Lookup(kids, key), path + [key];
            if key != src[0].value then found
            else if found.Some? then Some(MergeNode(found.value, src[1], child))
            else if IsKnownDefault(child, Prune(child, src[1])) then None
            else Some(Prune(child, src[1]))
  {
    var i, child := FindKey(kids, src[0].value), path + [src[0].value];
    LookupFinds(kids, src[0].value);
    if i >= 0 {
      LookupSet(kids, i, MergeNode(kids[i + 1], src[1], child), key);
    } else {
      LookupAdded(kids, src[0], Prune(child, src[1]), key);
    }
  }

  /** As a map from keys the merged mapping is fixed: keys of both are merged, keys of one side kept or added unless
      default. */
  lemma {:induction false} MergedLookup(kids: seq<Tree>, src: seq<Tree>, path: seq<string>, key: string)
    requires |kids| % 2 == 0 && UniqueKeys(src)
    ensures |MergePairs(kids, src, path)| % 2 == 0
    ensures Lookup(MergePairs(kids, src, path), key) ==
            var mine, theirs, child := Lookup(kids, key), Lookup(src, key), path + [key];
            if theirs.None? then mine
            else if mine.Some? then Some(MergeNode(mine.value, theirs.value, child))
            else if IsKnownDefault(child, Prune(child, theirs.value)) then None
            else Some(Prune(child, theirs.value))
    decreases |src|
  {
    hide MergeNode, Prune, IsKnownDefault;
    if |src| >= 2 {
      UniqueTail(src);
      MergePairLookup(kids, src, path, key);
      MergedLookup(MergePair(kids, src, path), src[2..], path, key);
    }
  }

  // ---------- when the merge covers its source ----------

  ghost predicate AllPaired(kids: seq<Tree>)
  {
    forall i :: 0 <= i < |kids| ==> Paired(kids[i])
  }

  lemma {:induction false} LookupPaired(kids: seq<Tree>, key: string)
    requires AllPaired(kids)
    ensures Lookup(kids, key).Some? ==> Paired(Lookup(kids, key).value)
    decreases |kids|
  {
    if |kids| >= 2 { LookupPaired(kids[2..], key); }
  }

  lemma {:induction false} MergeElementsAt(original: seq<Tree>, plan: seq<int>, src: seq<Tree>, path: seq<string>,
                                           i: nat)
    requires |plan| == |src| && forall k :: 0 <= k < |plan| ==> -1 <= plan[k] < |original|
    requires i < |src|
    ensures MergeElements(original, plan, src, path)[i] ==
            if plan[i] < 0 then src[i] else MergeElement(original[plan[i]], src[i], path)
    decreases |src|
  {
    if i > 0 { MergeElementsAt(original, plan[1..], src[1..], path, i - 1); }
  }

  lemma {:induction false} PruneMissingLookup(kids: seq<Tree>, src: seq<Tree>, key: string)
    requires Keeps(src, key)
    ensures Lookup(PruneMissing(kids, src), key) == Lookup(kids, key)
    decreases |kids|
  {
    if |kids| >= 2 {
      PruneMissingLookup(kids[2..], src, key);
      var rest := PruneMissing(kids[2..], src);
      if Keeps(src, kids[0].value) {
        assert ([kids[0], kids[1]] + rest)[2..] == rest;
      } else {
        assert kids[0].value != key;
        assert [] + rest == rest;
      }
    }
  }

  lemma {:induction false} PruneMissingLoses(kids: seq<Tree>, src: seq<Tree>, key: string)
    requires !Keeps(src, key)
    ensures Lookup(PruneMissing(kids, src), key) == None
    decreases |kids|
  {
    if |kids| >= 2 {
      PruneMissingLoses(kids[2..], src, key);
      var rest := PruneMissing(kids[2..], src);
      if Keeps(src, kids[0].value) {
        assert ([kids[0], kids[1]] + rest)[2..] == rest;
      } else {
        assert [] + rest == rest;
      }
    }
  }

  predicate SameKey(src: seq<Tree>, j: nat, key: string)
  {
    j % 2 == 0 && j + 1 < |src| && TrimSpace(src[j].value) == TrimSpace(key)
  }

  /** A pair survives the pruning exactly when its key is not blank and the source has the same key, both trimmed. */
  lemma PruneMissingIs(kids: seq<Tree>, src: seq<Tree>, key: string)
    ensures Lookup(PruneMissing(kids, src), key) ==
            if TrimSpace(key) != "" && (exists j :: SameKey(src, j, key)) then Lookup(kids, key) else None
  {
    KeepsIff(src, key);
    if Keeps(src, key) {
      PruneMissingLookup(kids, src, key);
    } else {
      PruneMissingLoses(kids, src, key);
    }
  }

  lemma KeepsIff(src: seq<Tree>, key: string)
    ensures Keeps(src, key) <==> TrimSpace(key) != "" && exists j :: SameKey(src, j, key)
  {
    if Keeps(src, key) {
      var j :| 0 <= j && j % 2 == 0 && j + 1 < |src| && TrimSpace(src[j].value) == TrimSpace(key) != "";
      assert SameKey(src, j, key);
    }
  }

  /** Nothing of s is lost when it is merged into d. Only one thing can be: in an element of a sequence that takes over
      an original, a pair under a blank key is pruned away, and that is a loss unless its value is a known default. */
  ghost predicate Lossless(d: Tree, s: Tree, path: seq<string>)
    decreases s, 1
  {
    match s.kind
    case Mapping => PairsLossless(if d.kind == Mapping then d.kids else s.kids, s.kids, path, false)
    case Sequence =>
      || (d.kind == Scalar && d.tag == "!!null" && s.kids == [])
      || (var original := if d.kind == Sequence then d.kids else [];
          var plan := Plan(original, {}, s.kids);
          forall i :: 0 <= i < |s.kids| && plan[i] >= 0 ==> ElementLossless(original[plan[i]], s.kids[i], path))
    case _ => true
  }

  ghost predicate ElementLossless(d: Tree, s: Tree, path: seq<string>)
    decreases s, 2
  {
    if s.kind == Mapping then PairsLossless(if d.kind == Mapping then d.kids else s.kids, s.kids, path, true)
    else Lossless(d, s, path)
  }

  ghost predicate PairsLossless(kids: seq<Tree>, src: seq<Tree>, path: seq<string>, pruned: bool)
    decreases src, 0
  {
    forall j :: 0 <= j && j % 2 == 0 && j + 1 < |src| ==> PairLossless(kids, src, j, path, pruned)
  }

  ghost predicate PairLossless(kids: seq<Tree>, src: seq<Tree>, j: nat, path: seq<string>, pruned: bool)
    requires j + 1 < |src|
    decreases src, 0, 0
  {
    var found, child := Lookup(kids, src[j].value), path + [src[j].value];
    if pruned && TrimSpace(src[j].value) == "" then IsKnownDefault(child, Prune(child, src[j + 1]))
    else found.Some? ==> Lossless(found.value, src[j + 1], child)
  }

  lemma {:induction false} PairCovered(kids: seq<Tree>, src: seq<Tree>, path: seq<string>, j: nat)
    requires |kids| % 2 == 0 && AllPaired(kids)
    requires UniqueKeys(src) && forall i :: 0 <= i < |src| ==> WellFormed(src[i])
    requires j % 2 == 0 && j + 1 < |src|
    ensures CoversPair(MergePairs(kids, src, path), src, j, path) <==> PairLossless(kids, src, j, path, false)
    decreases src, 0
  {
    hide Covers, Paired, WellFormed, MergeNode, Prune, IsKnownDefault, Lossless;
    var key, child := src[j].value, path + [src[j].value];
    MergedLookup(kids, src, path, key);
    LookupAt(src, j);
    LookupPaired(kids, key);
    if Lookup(kids, key).Some? {
      MergeNodeCoversIff(Lookup(kids, key).value, src[j + 1], child);
    } else {
      PruneCovers(child, src[j + 1]);
    }
  }

  /** In an element a blank key is lost, any other key fares as in the mapping before it is pruned. */
  lemma {:induction false} PrunedPairCovered(kids: seq<Tree>, src: seq<Tree>, path: seq<string>, j: nat)
    requires |kids| % 2 == 0 && AllPaired(kids)
    requires UniqueKeys(src) && forall i :: 0 <= i < |src| ==> WellFormed(src[i])
    requires j % 2 == 0 && j + 1 < |src|
    ensures CoversPair(PruneMissing(MergePairs(kids, src, path), src), src, j, path) <==>
      PairLossless(kids, src, j, path, true)
    decreases src, 1
  {
    hide Covers, Paired, WellFormed, MergePairs, Prune, IsKnownDefault, Lossless, PruneMissing;
    var key := src[j].value;
    if TrimSpace(key) == "" {
      PruneMissingLoses(MergePairs(kids, src, path), src, key);
    } else {
      assert Keeps(src, key);
      PruneMissingLookup(MergePairs(kids, src, path), src, key);
      PairCovered(kids, src, path, j);
    }
  }

  /** Pair by pair is all pairs together. */
  lemma PairByPair(merged: seq<Tree>, kids: seq<Tree>, src: seq<Tree>, path: seq<string>, pruned: bool)
    requires forall j :: 0 <= j && j % 2 == 0 && j + 1 < |src| ==>
      (CoversPair(merged, src, j, path) <==> PairLossless(kids, src, j, path, pruned))
    ensures CoversPairs(merged, src, path) <==> PairsLossless(kids, src, path, pruned)
  {
    if CoversPairs(merged, src, path) {
      forall j | 0 <= j && j % 2 == 0 && j + 1 < |src| ensures PairLossless(kids, src, j, path, pruned) {
        assert CoversPair(merged, src, j, path);
      }
    }
    if PairsLossless(kids, src, path, pruned) {
      forall j | 0 <= j && j % 2 == 0 && j + 1 < |src| ensures CoversPair(merged, src, j, path) {
        assert PairLossless(kids, src, j, path, pruned);
      }
    }
  }

  /** Merging two mappings, as the kinds of both allow. */
  lemma MergeNodeAsMapping(d: Tree, s: Tree, path: seq<string>)
    requires s.kind == Mapping
    ensures var kids := if d.kind == Mapping then d.kids else s.kids;
      MergeNode(d, s, path).kind == Mapping && MergeNode(d, s, path).kids == MergePairs(kids, s.kids, path)
  {
  }

  /** A merged element that was taken over covers its source exactly when nothing is lost. */
  lemma {:induction false} MergeElementCoversIff(d: Tree, s: Tree, path: seq<string>)
    requires WellFormed(s) && Paired(d)
    ensures Covers(MergeElement(d, s, path), s, path) <==> ElementLossless(d, s, path)
    decreases s, 2
  {
    if s.kind == Mapping {
      hide MergePairs, MergeNode, PruneMissing, CoversPair, PairLossless;
      var kids := if d.kind == Mapping then d.kids else s.kids;
      WellFormedPaired(s);
      MergeNodeAsMapping(d, s, path);
      var merged := PruneMissing(MergePairs(kids, s.kids, path), s.kids);
      assert MergeElement(d, s, path).kids == merged;
      forall j | 0 <= j && j % 2 == 0 && j + 1 < |s.kids|
        ensures CoversPair(merged, s.kids, j, path) <==> PairLossless(kids, s.kids, j, path, true)
      {
        PrunedPairCovered(kids, s.kids, path, j);
      }
      PairByPair(merged, kids, s.kids, path, true);
    } else {
      hide Covers, MergeNode, Lossless;
      MergeNodeCoversIff(d, s, path);
    }
  }

  /** For every source with unique keys and every destination: the merged tree covers the source exactly when nothing
      is lost. */
  lemma {:induction false} MergeNodeCoversIff(d: Tree, s: Tree, path: seq<string>)
    requires WellFormed(s) && Paired(d)
    ensures Covers(MergeNode(d, s, path), s, path) <==> Lossless(d, s, path)
    decreases s, 1
  {
    match s.kind
    case Mapping =>
      hide MergePairs, MergeNode, CoversPair, PairLossless;
      var kids := if d.kind == Mapping then d.kids else s.kids;
      WellFormedPaired(s);
      MergeNodeAsMapping(d, s, path);
      forall j | 0 <= j && j % 2 == 0 && j + 1 < |s.kids|
        ensures CoversPair(MergePairs(kids, s.kids, path), s.kids, j, path) <==>
          PairLossless(kids, s.kids, j, path, false)
      {
        PairCovered(kids, s.kids, path, j);
      }
      PairByPair(MergePairs(kids, s.kids, path), kids, s.kids, path, false);
    case Sequence =>
      hide Plan, ElementLossless, MergeElement;
      if !(d.kind == Scalar && d.tag == "!!null" && s.kids == []) {
        var original := if d.kind == Sequence then d.kids else [];
        var plan := Plan(original, {}, s.kids);
        forall i | 0 <= i < |s.kids|
          ensures Covers(MergeElements(original, plan, s.kids, path)[i], s.kids[i], path) <==>
            (plan[i] >= 0 ==> ElementLossless(original[plan[i]], s.kids[i], path))
        {
          MergeElementsAt(original, plan, s.kids, path, i);
          if plan[i] < 0 {
            SelfCovers(s.kids[i], path);
          } else {
            MergeElementCoversIff(original[plan[i]], s.kids[i], path);
          }
        }
      }
    case Scalar =>
    case Unknown =>
    case Document =>
  }

  // ---------- sources that cannot lose anything ----------

  predicate NoBlankKey(t: Tree)
  {
    t.kind == Mapping ==> forall j :: 0 <= j && j % 2 == 0 && j + 1 < |t.kids| ==> TrimSpace(t.kids[j].value) != ""
  }

  /** No element of a sequence has a blank key. */
  ghost predicate BlankFree(t: Tree)
    decreases t
  {
    && (t.kind == Sequence ==> forall i :: 0 <= i < |t.kids| ==> NoBlankKey(t.kids[i]))
    && forall i :: 0 <= i < |t.kids| ==> BlankFree(t.kids[i])
  }

  /** A blank key stands over a known default. */
  predicate BlankIsDefault(src: seq<Tree>, j: nat, path: seq<string>)
    requires j + 1 < |src|
  {
    var child := path + [src[j].value];
    TrimSpace(src[j].value) == "" ==> IsKnownDefault(child, Prune(child, src[j + 1]))
  }

  predicate BlanksAreDefaults(src: seq<Tree>, path: seq<string>)
  {
    forall j :: 0 <= j && j % 2 == 0 && j + 1 < |src| ==> BlankIsDefault(src, j, path)
  }

  lemma {:induction false} BlankFreePairs(kids: seq<Tree>, src: seq<Tree>, path: seq<string>, j: nat, pruned: bool)
    requires j % 2 == 0 && j + 1 < |src| && BlankFree(src[j + 1])
    ensures PairLossless(kids, src, j, path, pruned) <==> !pruned || BlankIsDefault(src, j, path)
    decreases src, 0
  {
    hide Lossless, IsKnownDefault, Prune, BlankFree;
    if Lookup(kids, src[j].value).Some? {
      BlankFreeLossless(Lookup(kids, src[j].value).value, src[j + 1], path + [src[j].value]);
    }
  }

  lemma BlankByBlank(kids: seq<Tree>, src: seq<Tree>, path: seq<string>)
    requires forall j :: 0 <= j && j % 2 == 0 && j + 1 < |src| ==>
      (PairLossless(kids, src, j, path, true) <==> BlankIsDefault(src, j, path))
    ensures PairsLossless(kids, src, path, true) <==> BlanksAreDefaults(src, path)
  {
    hide PairLossless, BlankIsDefault;
    if PairsLossless(kids, src, path, true) {
      forall j | 0 <= j && j % 2 == 0 && j + 1 < |src| ensures BlankIsDefault(src, j, path) {
        assert PairLossless(kids, src, j, path, true);
      }
    }
  }

  lemma {:induction false} BlankFreeLossless(d: Tree, s: Tree, path: seq<string>)
    requires BlankFree(s)
    ensures Lossless(d, s, path)
    decreases s, 1
  {
    match s.kind
    case Mapping =>
      forall j | 0 <= j && j % 2 == 0 && j + 1 < |s.kids|
        ensures PairLossless(if d.kind == Mapping then d.kids else s.kids, s.kids, j, path, false)
      {
        BlankFreePairs(if d.kind == Mapping then d.kids else s.kids, s.kids, path, j, false);
      }
    case Sequence =>
      hide Plan, Prune, IsKnownDefault;
      var original := if d.kind == Sequence then d.kids else [];
      var plan := Plan(original, {}, s.kids);
      forall i | 0 <= i < |s.kids| && plan[i] >= 0
        ensures ElementLossless(original[plan[i]], s.kids[i], path)
      {
        BlankFreeElement(original[plan[i]], s.kids[i], path);
      }
    case Scalar =>
    case Unknown =>
    case Document =>
  }

  /** An element loses something exactly when a blank key of its own stands over a value that is no default. */
  lemma {:induction false} BlankFreeElement(d: Tree, s: Tree, path: seq<string>)
    requires BlankFree(s)
    ensures ElementLossless(d, s, path) <==> s.kind != Mapping || BlanksAreDefaults(s.kids, path)
    decreases s, 2
  {
    if s.kind == Mapping {
      hide PairLossless, BlankIsDefault, PairsLossless;
      var kids := if d.kind == Mapping then d.kids else s.kids;
      forall j | 0 <= j && j % 2 == 0 && j + 1 < |s.kids|
        ensures PairLossless(kids, s.kids, j, path, true) <==> BlankIsDefault(s.kids, j, path)
      {
        BlankFreePairs(kids, s.kids, path, j, true);
      }
      BlankByBlank(kids, s.kids, path);
    } else {
      BlankFreeLossless(d, s, path);
    }
  }

  /** Whatever the destination was, the merge covers a source without blank keys in its sequence elements. */
  lemma MergeNodeCovers(d: Tree, s: Tree, path: seq<string>)
    requires WellFormed(s) && BlankFree(s) && Paired(d)
    ensures Covers(MergeNode(d, s, path), s, path)
  {
    MergeNodeCoversIff(d, s, path);
    BlankFreeLossless(d, s, path);
  }

  /** The element that is taken over covers its source exactly when its own blank keys stand over defaults. */
  lemma MergeElementCovers(d: Tree, s: Tree, path: seq<string>)
    requires WellFormed(s) && BlankFree(s) && Paired(d)
    ensures Covers(MergeElement(d, s, path), s, path) <==> s.kind != Mapping || BlanksAreDefaults(s.kids, path)
  {
    MergeElementCoversIff(d, s, path);
    BlankFreeElement(d, s, path);
  }

  /** The merge at the root, where a destination that is no mapping is replaced by the source. */
  lemma MergeMappingCovers(d: Tree, s: Tree, path: seq<string>)
    requires WellFormed(s) && Paired(d) && s.kind == Mapping
    ensures Covers(MergeMapping(d, s, path), s, path) <==> d.kind != Mapping || Lossless(d, s, path)
  {
    hide Lossless, MergePairs, CoversPair;
    if d.kind == Mapping {
      MergeNodeCoversIff(d, s, path);
      assert MergeNode(d, s, path) == MergeMapping(d, s, path);
    } else {
      SelfCovers(s, path);
    }
  }

  lemma {:induction false} WellFormedPaired(t: Tree)
    requires WellFormed(t)
    ensures Paired(t)
    decreases t
  {
    forall i | 0 <= i < |t.kids| ensures Paired(t.kids[i]) { WellFormedPaired(t.kids[i]); }
  }
}
