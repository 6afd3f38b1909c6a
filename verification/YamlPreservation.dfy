/** What a merge keeps of the destination tree, and how it pairs up sequence elements. */
module YamlPreservation {
  import opened Strings
  import opened YamlMerge
  import opened YamlCoverage

  // ---------- keys ----------

  lemma MergePairPrefix(kids: seq<Tree>, src: seq<Tree>, path: seq<string>)
    requires |src| >= 2 && |kids| % 2 == 0
    ensures |kids| <= |MergePair(kids, src, path)| && |MergePair(kids, src, path)| % 2 == 0
    ensures forall j :: 0 <= j < |kids| && j % 2 == 0 ==> MergePair(kids, src, path)[j] == kids[j]
    ensures UniqueKeys(kids) ==> UniqueKeys(MergePair(kids, src, path))
  {
    hide MergeNode, Prune, IsKnownDefault;
    var next := MergePair(kids, src, path);
    if UniqueKeys(kids) {
      forall i, j | 0 <= i < j && i % 2 == 0 && j % 2 == 0 && j + 1 < |next|
        ensures next[i].value != next[j].value
      {
        if j == |kids| { assert next[j] == src[0]; }
      }
    }
  }

  /** The destination's key nodes stay, in order, in front; no key comes twice. */
  lemma {:induction false} KeysKeepOrder(kids: seq<Tree>, src: seq<Tree>, path: seq<string>)
    requires |kids| % 2 == 0
    ensures |kids| <= |MergePairs(kids, src, path)| && |MergePairs(kids, src, path)| % 2 == 0
    ensures forall j :: 0 <= j < |kids| && j % 2 == 0 ==> MergePairs(kids, src, path)[j] == kids[j]
    ensures UniqueKeys(kids) ==> UniqueKeys(MergePairs(kids, src, path))
    decreases |src|
  {
    if |src| >= 2 {
      MergePairPrefix(kids, src, path);
      KeysKeepOrder(MergePair(kids, src, path), src[2..], path);
    }
  }

  // ---------- notes ----------

  /** After s was merged into d, giving d': the node keeps its note; where both were mappings every key node of d is
      where it was; where both were sequences every original that was taken over keeps its notes the same way in its
      new place. */
  ghost predicate NotesKept(d: Tree, d': Tree, s: Tree)
    decreases s, 1
  {
    && d'.note == d.note
    && (d.kind == Mapping && s.kind == Mapping ==> d'.kind == Mapping && PairsKept(d.kids, d'.kids, s.kids))
    && (d.kind == Sequence && s.kind == Sequence ==>
          && d'.kind == Sequence && |d'.kids| == |s.kids|
          && var plan := Plan(d.kids, {}, s.kids);
             forall i :: 0 <= i < |plan| && plan[i] >= 0 ==> ElementKept(d.kids[plan[i]], d'.kids[i], s.kids[i]))
  }

  /** Of an element, what survives are the pairs whose keys the source element has. */
  ghost predicate ElementKept(d: Tree, d': Tree, s: Tree)
    decreases s, 2
  {
    if d.kind == Mapping && s.kind == Mapping then
      d'.note == d.note && d'.kind == Mapping && PairsKept(PruneMissing(d.kids, s.kids), d'.kids, s.kids)
    else NotesKept(d, d', s)
  }

  ghost predicate PairsKept(kids: seq<Tree>, kids': seq<Tree>, src: seq<Tree>)
    decreases src, 0
  {
    |kids| <= |kids'| && forall j :: 0 <= j && j % 2 == 0 && j + 1 < |kids| ==>
      kids'[j] == kids[j] && ValueKept(kids[j].value, kids[j + 1], kids'[j + 1], src)
  }

  /** A value is untouched, or was merged with the source's value under the same key. */
  ghost predicate ValueKept(key: string, v: Tree, v': Tree, src: seq<Tree>)
    decreases src, 0, 0
  {
    v' == v || exists i :: 0 <= i && i % 2 == 0 && i + 1 < |src| && src[i].value == key && NotesKept(v, v', src[i + 1])
  }

  /** The value at odd index j, of a key the source does not have. */
  lemma {:induction false} ValueUntouched(kids: seq<Tree>, src: seq<Tree>, path: seq<string>, j: nat)
    requires |kids| % 2 == 0 && j % 2 == 1 && j < |kids| && Lookup(src, kids[j - 1].value) == None
    ensures j < |MergePairs(kids, src, path)| && MergePairs(kids, src, path)[j] == kids[j]
    decreases |src|
  {
    hide MergeNode, Prune, IsKnownDefault;
    if |src| >= 2 {
      MergePairPrefix(kids, src, path);
      ValueUntouched(MergePair(kids, src, path), src[2..], path, j);
    }
  }

  lemma ValueKeptTail(key: string, v: Tree, v': Tree, src: seq<Tree>)
    requires |src| >= 2 && ValueKept(key, v, v', src[2..])
    ensures ValueKept(key, v, v', src)
  {
    hide NotesKept;
    if v' != v {
      var tail := src[2..];
      var i :| 0 <= i && i % 2 == 0 && i + 1 < |tail| && tail[i].value == key && NotesKept(v, v', tail[i + 1]);
      assert src[i + 2] == tail[i] && src[i + 3] == tail[i + 1];
    }
  }

  lemma {:induction false} MergedValueKept(kids: seq<Tree>, src: seq<Tree>, path: seq<string>, j: nat)
    requires |kids| % 2 == 0 && j % 2 == 0 && j + 1 < |kids| && UniqueKeys(src)
    requires Paired(kids[j + 1]) && forall i :: 0 <= i < |src| ==> UniqueThroughout(src[i])
    ensures j + 1 < |MergePairs(kids, src, path)|
    ensures ValueKept(kids[j].value, kids[j + 1], MergePairs(kids, src, path)[j + 1], src)
    decreases src, 0
  {
    hide MergeNode, Prune, IsKnownDefault, NotesKept, ValueKept, Paired, UniqueThroughout;
    if |src| < 2 {
      Untouched(kids[j].value, kids[j + 1], src);
    } else {
      MergePairPrefix(kids, src, path);
      UniqueTail(src);
      var next := MergePair(kids, src, path);
      if FindKey(kids, src[0].value) == j {
        MergeNodePreserves(kids[j + 1], src[1], path + [src[0].value]);
        ValueUntouched(next, src[2..], path, j + 1);
        MergedWithFirst(kids[j].value, kids[j + 1], next[j + 1], src);
      } else {
        assert next[j] == kids[j] && next[j + 1] == kids[j + 1];
        MergedValueKept(next, src[2..], path, j);
        ValueKeptTail(kids[j].value, kids[j + 1], MergePairs(kids, src, path)[j + 1], src);
      }
    }
  }

  lemma Untouched(key: string, v: Tree, src: seq<Tree>)
    ensures ValueKept(key, v, v, src)
  {
  }

  lemma MergedWithFirst(key: string, v: Tree, v': Tree, src: seq<Tree>)
    requires |src| >= 2 && src[0].value == key && NotesKept(v, v', src[1])
    ensures ValueKept(key, v, v', src)
  {
    hide NotesKept;
    assert 0 % 2 == 0 && src[0].value == key && NotesKept(v, v', src[0 + 1]);
  }

  lemma {:induction false} MergedPairsKept(kids: seq<Tree>, src: seq<Tree>, path: seq<string>)
    requires |kids| % 2 == 0 && UniqueKeys(src)
    requires forall i :: 0 <= i < |kids| ==> Paired(kids[i])
    requires forall i :: 0 <= i < |src| ==> UniqueThroughout(src[i])
    ensures PairsKept(kids, MergePairs(kids, src, path), src)
    decreases src, 1
  {
    hide MergePairs, ValueKept, Paired, UniqueThroughout;
    KeysKeepOrder(kids, src, path);
    forall j | 0 <= j && j % 2 == 0 && j + 1 < |kids|
      ensures ValueKept(kids[j].value, kids[j + 1], MergePairs(kids, src, path)[j + 1], src)
    {
      MergedValueKept(kids, src, path, j);
    }
  }

  /** Pruning the same keys on both sides keeps pairs beside each other. */
  lemma {:induction false} PrunedPairsKept(kids: seq<Tree>, kids': seq<Tree>, src: seq<Tree>)
    requires |kids| % 2 == 0 && |kids'| % 2 == 0 && PairsKept(kids, kids', src)
    ensures PairsKept(PruneMissing(kids, src), PruneMissing(kids', src), src)
    decreases |kids|
  {
    hide ValueKept, Keeps, PairsKept;
    if kids == [] {
      NoPairs(PruneMissing(kids', src), src);
    } else {
      PairsKeptSplit(kids, kids', src);
      PrunedPairsKept(kids[2..], kids'[2..], src);
      var rest, rest' := PruneMissing(kids[2..], src), PruneMissing(kids'[2..], src);
      if Keeps(src, kids[0].value) {
        PairInFront(kids[0], kids[1], kids'[1], rest, rest', src);
      } else {
        assert [] + rest == rest && [] + rest' == rest';
      }
    }
  }

  lemma NoPairs(kids': seq<Tree>, src: seq<Tree>)
    ensures PairsKept([], kids', src)
  {
  }

  lemma PairsKeptSplit(kids: seq<Tree>, kids': seq<Tree>, src: seq<Tree>)
    requires |kids| % 2 == 0 && |kids'| % 2 == 0 && kids != [] && PairsKept(kids, kids', src)
    ensures |kids'| >= 2 && kids'[0] == kids[0] && ValueKept(kids[0].value, kids[1], kids'[1], src)
    ensures PairsKept(kids[2..], kids'[2..], src)
  {
    hide ValueKept;
    var tail, tail' := kids[2..], kids'[2..];
    forall j | 0 <= j && j % 2 == 0 && j + 1 < |tail|
      ensures tail'[j] == tail[j] && ValueKept(tail[j].value, tail[j + 1], tail'[j + 1], src)
    {
      assert tail[j] == kids[j + 2] && tail[j + 1] == kids[j + 3] && tail'[j] == kids'[j + 2]
        && tail'[j + 1] == kids'[j + 3];
    }
  }

  lemma PairInFront(k: Tree, v: Tree, v': Tree, rest: seq<Tree>, rest': seq<Tree>, src: seq<Tree>)
    requires ValueKept(k.value, v, v', src) && PairsKept(rest, rest', src)
    ensures PairsKept([k, v] + rest, [k, v'] + rest', src)
  {
    hide ValueKept;
    var kids, kids' := [k, v] + rest, [k, v'] + rest';
    forall j | 0 <= j && j % 2 == 0 && j + 1 < |kids|
      ensures kids'[j] == kids[j] && ValueKept(kids[j].value, kids[j + 1], kids'[j + 1], src)
    {
      if j > 0 {
        assert kids[j] == rest[j - 2] && kids[j + 1] == rest[j - 1] && kids'[j] == rest'[j - 2]
          && kids'[j + 1] == rest'[j - 1];
      }
    }
  }

  /** Comments, styles and positions of every node that survives a merge stay where they are, inside the elements of
      sequences as well as outside. */
  lemma {:induction false} MergeNodePreserves(d: Tree, s: Tree, path: seq<string>)
    requires Paired(d) && UniqueThroughout(s)
    ensures NotesKept(d, MergeNode(d, s, path), s)
    decreases s, 1
  {
    if d.kind == Mapping && s.kind == Mapping {
      hide MergePairs, MergeNode, PairsKept;
      MergeNodeOfMappings(d, s, path);
      MergedPairsKept(d.kids, s.kids, path);
    } else if d.kind == Sequence && s.kind == Sequence {
      hide Plan, MergeElement, ElementKept;
      var plan := Plan(d.kids, {}, s.kids);
      forall i | 0 <= i < |plan| && plan[i] >= 0
        ensures ElementKept(d.kids[plan[i]], MergeElements(d.kids, plan, s.kids, path)[i], s.kids[i])
      {
        MergeElementsAt(d.kids, plan, s.kids, path, i);
        MergeElementPreserves(d.kids[plan[i]], s.kids[i], path);
      }
    }
  }

  lemma {:induction false} MergeElementPreserves(d: Tree, s: Tree, path: seq<string>)
    requires Paired(d) && UniqueThroughout(s)
    ensures ElementKept(d, MergeElement(d, s, path), s)
    decreases s, 2
  {
    hide MergeNode, NotesKept;
    MergeNodePreserves(d, s, path);
    if d.kind == Mapping && s.kind == Mapping {
      hide PairsKept, MergePairs, PruneMissing;
      MergeNodeOfMappings(d, s, path);
      MergedPairsKept(d.kids, s.kids, path);
      KeysKeepOrder(d.kids, s.kids, path);
      PrunedPairsKept(d.kids, MergePairs(d.kids, s.kids, path), s.kids);
    } else if s.kind == Mapping {
      KeptNotReplaced(d, MergeNode(d, s, path), s);
    }
  }

  /** Pruning the copy that replaced a node of another kind leaves the node its note. */
  lemma KeptNotReplaced(d: Tree, m: Tree, s: Tree)
    requires d.kind != Mapping && s.kind == Mapping && NotesKept(d, m, s)
    ensures forall kids :: NotesKept(d, m.(kids := kids), s)
  {
  }

  lemma MergeNodeOfMappings(d: Tree, s: Tree, path: seq<string>)
    requires d.kind == Mapping && s.kind == Mapping
    ensures MergeNode(d, s, path) == d.(kids := MergePairs(d.kids, s.kids, path))
  {
  }

  /** No mapping of the tree has a key twice. */
  ghost predicate UniqueThroughout(t: Tree)
    decreases t
  {
    (t.kind == Mapping ==> UniqueKeys(t.kids)) && forall i :: 0 <= i < |t.kids| ==> UniqueThroughout(t.kids[i])
  }

  // ---------- sequences ----------

  ghost predicate Avoids(plan: seq<int>, used: set<int>)
  {
    forall i :: 0 <= i < |plan| && plan[i] >= 0 ==> plan[i] !in used
  }

  /** No original is taken twice. */
  ghost predicate Injective(plan: seq<int>)
  {
    forall i, j :: 0 <= i < j < |plan| && plan[i] >= 0 ==> plan[i] != plan[j]
  }

  /** A plan uses each original at most once, and none that is already used. */
  lemma {:induction false} PlanInjective(original: seq<Tree>, used: set<int>, targets: seq<Tree>)
    ensures Avoids(Plan(original, used, targets), used) && Injective(Plan(original, used, targets))
    decreases |targets|
  {
    if targets != [] {
      var i := MatchElement(original, used, targets[0]);
      var used' := if i >= 0 then used + {i} else used;
      PlanInjective(original, used', targets[1..]);
      InjectiveCons(i, Plan(original, used', targets[1..]), used, used');
    }
  }

  lemma InjectiveCons(i: int, rest: seq<int>, used: set<int>, used': set<int>)
    requires Avoids(rest, used') && Injective(rest) && used' == (if i >= 0 then used + {i} else used)
    requires i >= 0 ==> i !in used
    ensures Avoids([i] + rest, used) && Injective([i] + rest)
  {
  }

  /** The originals taken by the targets before i. */
  function TakenBefore(plan: seq<int>, i: nat): set<int>
    requires i <= |plan|
  {
    set k | 0 <= k < i && plan[k] >= 0 :: plan[k]
  }

  ghost predicate FreeMatch(original: seq<Tree>, taken: set<int>, matches: Tree -> bool)
  {
    exists k :: 0 <= k < |original| && k !in taken && matches(original[k])
  }

  function ByName(target: Tree): Tree -> bool { (t: Tree) => NameMatch(t, target) }
  function ByShape(target: Tree): Tree -> bool { (t: Tree) => Alike(t, target) }

  /** What a target gets: a free original matching by identity or text if there is one, else a free one of the same
      shape. */
  ghost predicate WellPlaced(original: seq<Tree>, taken: set<int>, target: Tree, i: int)
  {
    if FreeMatch(original, taken, ByName(target)) then
      0 <= i < |original| && i !in taken && NameMatch(original[i], target)
    else if FreeMatch(original, taken, ByShape(target)) then
      0 <= i < |original| && i !in taken && Alike(original[i], target)
    else i == -1
  }

  lemma MatchPlaces(original: seq<Tree>, used: set<int>, target: Tree)
    ensures WellPlaced(original, used, target, MatchElement(original, used, target))
  {
    hide NameMatch, Alike;
    if FreeMatch(original, used, ByName(target)) {
      var k :| 0 <= k < |original| && k !in used && NameMatch(original[k], target);
    }
    if FreeMatch(original, used, ByShape(target)) {
      var k :| 0 <= k < |original| && k !in used && Alike(original[k], target);
    }
  }

  lemma TakenShift(first: int, rest: seq<int>, used: set<int>, i: nat)
    requires 0 < i <= |rest| + 1
    ensures used + TakenBefore([first] + rest, i)
      == (if first >= 0 then used + {first} else used) + TakenBefore(rest, i - 1)
  {
    var plan := [first] + rest;
    forall x
      ensures x in TakenBefore(plan, i) <==> (first >= 0 && x == first) || x in TakenBefore(rest, i - 1)
    {
      if k :| 0 <= k < i && plan[k] >= 0 && plan[k] == x {
        if k > 0 { assert rest[k - 1] == x; }
      }
      if k :| 0 <= k < i - 1 && rest[k] >= 0 && rest[k] == x {
        assert plan[k + 1] == x;
      }
      if first >= 0 && x == first { assert plan[0] == x; }
    }
  }

  lemma {:induction false} PlanPlaces(original: seq<Tree>, used: set<int>, targets: seq<Tree>, i: nat)
    requires i < |targets|
    ensures WellPlaced(original, used + TakenBefore(Plan(original, used, targets), i), targets[i],
      Plan(original, used, targets)[i])
    decreases |targets|
  {
    hide WellPlaced, MatchElement, TakenBefore;
    var first := MatchElement(original, used, targets[0]);
    var used' := if first >= 0 then used + {first} else used;
    if i == 0 {
      MatchPlaces(original, used, targets[0]);
      NoneTaken(Plan(original, used, targets), used);
    } else {
      PlanPlaces(original, used', targets[1..], i - 1);
      TakenShift(first, Plan(original, used', targets[1..]), used, i);
    }
  }

  lemma NoneTaken(plan: seq<int>, used: set<int>)
    ensures used + TakenBefore(plan, 0) == used
  {
  }

  lemma {:induction false} PruneMissingOnly(kids: seq<Tree>, src: seq<Tree>)
    requires |kids| % 2 == 0
    ensures |PruneMissing(kids, src)| % 2 == 0
    ensures forall j :: 0 <= j < |PruneMissing(kids, src)| && j % 2 == 0 ==>
      Keeps(src, PruneMissing(kids, src)[j].value)
    decreases |kids|
  {
    hide Keeps;
    if |kids| >= 2 {
      PruneMissingOnly(kids[2..], src);
      var r, rest := PruneMissing(kids, src), PruneMissing(kids[2..], src);
      forall j | 0 <= j < |r| && j % 2 == 0
        ensures Keeps(src, r[j].value)
      {
        if !Keeps(src, kids[0].value) { assert r == rest; } else if j > 0 { assert r[j] == rest[j - 2]; }
      }
    }
  }

  /** The element merged in place i keeps its note and, as a mapping, has no key its source element lacks. */
  lemma ElementMerged(d: Tree, s: Tree, path: seq<string>)
    requires Paired(d) && UniqueThroughout(s)
    ensures MergeElement(d, s, path).note == d.note
    ensures d.kind == Mapping && s.kind == Mapping ==>
      MergeElement(d, s, path).kind == Mapping &&
      forall j :: 0 <= j < |MergeElement(d, s, path).kids| && j % 2 == 0 ==>
        Keeps(s.kids, MergeElement(d, s, path).kids[j].value)
  {
    hide MergeNode, NotesKept, MergePairs, PruneMissing;
    MergeNodePreserves(d, s, path);
    NoteKept(d, MergeNode(d, s, path), s);
    if d.kind == Mapping && s.kind == Mapping {
      MergeNodeOfMappings(d, s, path);
      KeysKeepOrder(d.kids, s.kids, path);
      PruneMissingOnly(MergePairs(d.kids, s.kids, path), s.kids);
    }
  }

  lemma NoteKept(d: Tree, d': Tree, s: Tree)
    requires NotesKept(d, d', s)
    ensures d'.note == d.note
  {
  }

  /** A merged sequence: as long as its source, each original used at most once and for the best free match, the rest
      copied. */
  lemma SequenceMerged(d: Tree, s: Tree, path: seq<string>) returns (plan: seq<int>)
    requires d.kind == Sequence && s.kind == Sequence && Paired(d) && UniqueThroughout(s)
    ensures MergeNode(d, s, path).kind == Sequence && |MergeNode(d, s, path).kids| == |s.kids| == |plan|
    ensures forall i :: 0 <= i < |plan| ==> -1 <= plan[i] < |d.kids|
    ensures Injective(plan)
    ensures forall i :: 0 <= i < |plan| ==> WellPlaced(d.kids, TakenBefore(plan, i), s.kids[i], plan[i])
    ensures forall i :: 0 <= i < |plan| ==>
      var r := MergeNode(d, s, path).kids[i];
      if plan[i] < 0 then r == s.kids[i]
      else r == MergeElement(d.kids[plan[i]], s.kids[i], path) && r.note == d.kids[plan[i]].note
  {
    hide MergeElement, WellPlaced, MatchElement, Plan, TakenBefore;
    plan := Plan(d.kids, {}, s.kids);
    PlanInjective(d.kids, {}, s.kids);
    forall i | 0 <= i < |plan|
      ensures WellPlaced(d.kids, TakenBefore(plan, i), s.kids[i], plan[i])
      ensures var r := MergeElements(d.kids, plan, s.kids, path)[i];
        if plan[i] < 0 then r == s.kids[i]
        else r == MergeElement(d.kids[plan[i]], s.kids[i], path) && r.note == d.kids[plan[i]].note
    {
      PlanPlaces(d.kids, {}, s.kids, i);
      assert {} + TakenBefore(plan, i) == TakenBefore(plan, i);
      MergeElementsAt(d.kids, plan, s.kids, path, i);
      if plan[i] >= 0 {
        ElementMerged(d.kids[plan[i]], s.kids[i], path);
      }
    }
  }

  // ---------- where the promise ends ----------

  /** A blank key of a sequence element is lost: the pass that prunes foreign keys never keeps it. */
  lemma BlankKeyIsLost()
    ensures var key := Tree(Scalar, "!!str", "", "", []);
      var element := Tree(Mapping, "!!map", "", "", [key, Tree(Scalar, "!!str", "x", "", [])]);
      var list := Tree(Sequence, "!!seq", "", "", [element]);
      MergeNode(list, list, []).kids[0].kids == []
  {
    var key := Tree(Scalar, "!!str", "", "", []);
    var element := Tree(Mapping, "!!map", "", "", [key, Tree(Scalar, "!!str", "x", "", [])]);
    var list := Tree(Sequence, "!!seq", "", "", [element]);
    assert TrimSpace("") == "";
    assert !Keeps(element.kids, "");
    AlikeSelf(element);
    PlanPlaces(list.kids, {}, list.kids, 0);
    var plan := Plan(list.kids, {}, list.kids);
    assert Alike(list.kids[0], element);
    assert plan[0] == 0;
    MergeElementsAt(list.kids, plan, list.kids, [], 0);
    var merged := MergeNode(element, element, []);
    MergeNodeOfMappings(element, element, []);
    assert |merged.kids| == 2 && merged.kids[0].value == "" by {
      KeysKeepOrder(element.kids, element.kids, []);
      MergePairPrefix(element.kids, element.kids, []);
    }
    PruneMissingOnly(merged.kids, element.kids);
  }

  lemma {:induction false} AlikeSelf(t: Tree)
    ensures Alike(t, t)
    decreases t
  {
    forall i | 0 <= i < |t.kids| ensures Alike(t.kids[i], t.kids[i]) { AlikeSelf(t.kids[i]); }
  }
}
