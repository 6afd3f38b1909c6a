/** When what is read of a merged YAML tree is what is read of its source. */
module YamlReadback {
  import opened Strings
  import opened YamlMerge
  import opened YamlCoverage
  import opened YamlReading

  /** Nothing that is read of s changes when it is merged into d. What can change is a key that is not added or is
      pruned away although its absence says something else, and an empty list over a null whose absence does. */
  ghost predicate Faithful(optional: Optional, d: Tree, s: Tree, path: seq<string>, at: seq<string>)
    decreases s, 1
  {
    match s.kind
    case Mapping => PairsFaithful(optional, if d.kind == Mapping then d.kids else s.kids, s.kids, path, at, false)
    case Sequence =>
      if d.kind == Scalar && d.tag == "!!null" && s.kids == [] then !optional(at)
      else
        var original := if d.kind == Sequence then d.kids else [];
        var plan := Plan(original, {}, s.kids);
        forall i :: 0 <= i < |s.kids| && plan[i] >= 0 ==>
          ElementFaithful(optional, original[plan[i]], s.kids[i], path, at + [ELEMENT])
    case _ => true
  }

  ghost predicate ElementFaithful(optional: Optional, d: Tree, s: Tree, path: seq<string>, at: seq<string>)
    decreases s, 2
  {
    if s.kind == Mapping then
      PairsFaithful(optional, if d.kind == Mapping then d.kids else s.kids, s.kids, path, at, true)
    else Faithful(optional, d, s, path, at)
  }

  ghost predicate PairsFaithful(optional: Optional, kids: seq<Tree>, src: seq<Tree>, path: seq<string>,
                                at: seq<string>, pruned: bool)
    decreases src, 0
  {
    forall j :: 0 <= j && j % 2 == 0 && j + 1 < |src| ==> PairFaithful(optional, kids, src, j, path, at, pruned)
  }

  ghost predicate PairFaithful(optional: Optional, kids: seq<Tree>, src: seq<Tree>, j: nat, path: seq<string>,
                               at: seq<string>, pruned: bool)
    requires j + 1 < |src|
    decreases src, 0, 0
  {
    var key, v := src[j].value, src[j + 1];
    var found, child, here := Lookup(kids, key), path + [key], at + [key];
    if pruned && TrimSpace(key) == "" then Silent(optional, v, here)
    else if found.Some? then Faithful(optional, found.value, v, child, here)
    else if NotAdded(child, v) then Silent(optional, v, here)
    else PruneSafe(optional, child, here, v)
  }

  lemma {:induction false} PairReads(optional: Optional, kids: seq<Tree>, src: seq<Tree>, path: seq<string>,
                                     at: seq<string>, j: nat)
    requires |kids| % 2 == 0 && AllPaired(kids)
    requires UniqueKeys(src) && forall i :: 0 <= i < |src| ==> WellFormed(src[i])
    requires j % 2 == 0 && j + 1 < |src|
    ensures SamePair(optional, MergePairs(kids, src, path), src, src, at, j) <==>
      PairFaithful(optional, kids, src, j, path, at, false)
    decreases src, 0
  {
    hide Load, Paired, WellFormed, MergeNode, Prune, IsKnownDefault, Faithful, NotAdded, Silent, PruneSafe;
    var key, v, child, here := src[j].value, src[j + 1], path + [src[j].value], at + [src[j].value];
    MergedLookup(kids, src, path, key);
    LookupAt(src, j);
    LookupPaired(kids, key);
    if Lookup(kids, key).Some? {
      MergeReadsIff(optional, Lookup(kids, key).value, v, child, here);
    } else {
      NotAddedIff(child, v);
      SilentReads(optional, v, here);
      PruneReads(optional, child, here, v);
    }
  }

  lemma {:induction false} PrunedPairReads(optional: Optional, kids: seq<Tree>, src: seq<Tree>, path: seq<string>,
                                           at: seq<string>, j: nat)
    requires |kids| % 2 == 0 && AllPaired(kids)
    requires UniqueKeys(src) && forall i :: 0 <= i < |src| ==> WellFormed(src[i])
    requires j % 2 == 0 && j + 1 < |src|
    ensures SamePair(optional, PruneMissing(MergePairs(kids, src, path), src), src, src, at, j) <==>
      PairFaithful(optional, kids, src, j, path, at, true)
    decreases src, 1
  {
    hide Load, Paired, WellFormed, MergePairs, Prune, Faithful, PruneMissing, NotAdded, Silent, PruneSafe;
    var key := src[j].value;
    LookupAt(src, j);
    if TrimSpace(key) == "" {
      PruneMissingLoses(MergePairs(kids, src, path), src, key);
      SilentReads(optional, src[j + 1], at + [key]);
    } else {
      assert Keeps(src, key);
      PruneMissingLookup(MergePairs(kids, src, path), src, key);
      PairReads(optional, kids, src, path, at, j);
    }
  }

  /** Pair by pair is all pairs together. */
  lemma FieldByField(optional: Optional, merged: seq<Tree>, kids: seq<Tree>, src: seq<Tree>, path: seq<string>,
                     at: seq<string>, pruned: bool)
    requires forall j :: 0 <= j && j % 2 == 0 && j + 1 < |src| ==>
      (SamePair(optional, merged, src, src, at, j) <==> PairFaithful(optional, kids, src, j, path, at, pruned))
    ensures LoadPairs(optional, merged, src, at) == LoadPairs(optional, src, src, at) <==>
      PairsFaithful(optional, kids, src, path, at, pruned)
  {
    hide SamePair, PairFaithful;
    SamePairs(optional, merged, src, src, at);
    if PairsFaithful(optional, kids, src, path, at, pruned) {
      forall j | 0 <= j && j % 2 == 0 && j + 1 < |src| ensures SamePair(optional, merged, src, src, at, j) {
        assert PairFaithful(optional, kids, src, j, path, at, pruned);
      }
    }
    if LoadPairs(optional, merged, src, at) == LoadPairs(optional, src, src, at) {
      forall j | 0 <= j && j % 2 == 0 && j + 1 < |src|
        ensures PairFaithful(optional, kids, src, j, path, at, pruned)
      {
        assert SamePair(optional, merged, src, src, at, j);
      }
    }
  }

  /** Mappings read as their fields. */
  lemma LoadMapping(optional: Optional, t: Tree, form: Tree, at: seq<string>)
    requires t.kind == Mapping && form.kind == Mapping
    ensures Load(optional, Some(t), form, at) == Fields(LoadPairs(optional, t.kids, form.kids, at))
  {
  }

  lemma {:induction false} MergeElementReads(optional: Optional, d: Tree, s: Tree, path: seq<string>,
                                             at: seq<string>)
    requires WellFormed(s) && Paired(d)
    ensures Load(optional, Some(MergeElement(d, s, path)), s, at) == Load(optional, Some(s), s, at) <==>
      ElementFaithful(optional, d, s, path, at)
    decreases s, 2
  {
    if s.kind == Mapping {
      hide MergePairs, MergeNode, PruneMissing, SamePair, PairFaithful, Load, LoadPairs;
      var kids := if d.kind == Mapping then d.kids else s.kids;
      WellFormedPaired(s);
      MergeNodeAsMapping(d, s, path);
      var merged := PruneMissing(MergePairs(kids, s.kids, path), s.kids);
      assert MergeElement(d, s, path).kids == merged;
      forall j | 0 <= j && j % 2 == 0 && j + 1 < |s.kids|
        ensures SamePair(optional, merged, s.kids, s.kids, at, j) <==>
          PairFaithful(optional, kids, s.kids, j, path, at, true)
      {
        PrunedPairReads(optional, kids, s.kids, path, at, j);
      }
      FieldByField(optional, merged, kids, s.kids, path, at, true);
      LoadMapping(optional, MergeElement(d, s, path), s, at);
      LoadMapping(optional, s, s, at);
    } else {
      hide Load, MergeNode, Faithful;
      MergeReadsIff(optional, d, s, path, at);
    }
  }

  /** For every source with unique keys, every destination and every choice of optional fields: what is read of the
      merged tree is what is read of the source exactly when nothing is left out that says more than its absence. */
  lemma {:induction false} MergeReadsIff(optional: Optional, d: Tree, s: Tree, path: seq<string>, at: seq<string>)
    requires WellFormed(s) && Paired(d)
    ensures Load(optional, Some(MergeNode(d, s, path)), s, at) == Load(optional, Some(s), s, at) <==>
      Faithful(optional, d, s, path, at)
    decreases s, 1
  {
    match s.kind
    case Mapping =>
      hide MergePairs, MergeNode, SamePair, PairFaithful, Load, LoadPairs;
      var kids := if d.kind == Mapping then d.kids else s.kids;
      WellFormedPaired(s);
      MergeNodeAsMapping(d, s, path);
      forall j | 0 <= j && j % 2 == 0 && j + 1 < |s.kids|
        ensures SamePair(optional, MergePairs(kids, s.kids, path), s.kids, s.kids, at, j) <==>
          PairFaithful(optional, kids, s.kids, j, path, at, false)
      {
        PairReads(optional, kids, s.kids, path, at, j);
      }
      FieldByField(optional, MergePairs(kids, s.kids, path), kids, s.kids, path, at, false);
      LoadMapping(optional, MergeNode(d, s, path), s, at);
      LoadMapping(optional, s, s, at);
    case Sequence =>
      if !(d.kind == Scalar && d.tag == "!!null" && s.kids == []) { ListReads(optional, d, s, path, at); }
    case _ =>
  }

  lemma {:induction false} ListReads(optional: Optional, d: Tree, s: Tree, path: seq<string>, at: seq<string>)
    requires WellFormed(s) && Paired(d) && s.kind == Sequence
    requires !(d.kind == Scalar && d.tag == "!!null" && s.kids == [])
    ensures Load(optional, Some(MergeNode(d, s, path)), s, at) == Load(optional, Some(s), s, at) <==>
      Faithful(optional, d, s, path, at)
    decreases s, 0
  {
    hide Plan, ElementFaithful, MergeElement;
    var original := if d.kind == Sequence then d.kids else [];
    var plan := Plan(original, {}, s.kids);
    var merged := MergeElements(original, plan, s.kids, path);
    assert MergeNode(d, s, path).kids == merged;
    SameAll(optional, merged, s.kids, at);
    forall i | 0 <= i < |s.kids|
      ensures SameElement(optional, merged, s.kids, at, i) <==>
        (plan[i] >= 0 ==> ElementFaithful(optional, original[plan[i]], s.kids[i], path, at + [ELEMENT]))
    {
      MergeElementsAt(original, plan, s.kids, path, i);
      if plan[i] >= 0 {
        MergeElementReads(optional, original[plan[i]], s.kids[i], path, at + [ELEMENT]);
      }
    }
  }

  /** The merge at the root, where a destination that is no mapping is replaced by the source. */
  lemma MergeMappingReads(optional: Optional, d: Tree, s: Tree, path: seq<string>, at: seq<string>)
    requires WellFormed(s) && Paired(d) && s.kind == Mapping
    ensures Load(optional, Some(MergeMapping(d, s, path)), s, at) == Load(optional, Some(s), s, at) <==>
      d.kind != Mapping || Faithful(optional, d, s, path, at)
  {
    hide Faithful, MergePairs;
    if d.kind == Mapping {
      MergeReadsIff(optional, d, s, path, at);
      assert MergeNode(d, s, path) == MergeMapping(d, s, path);
    } else {
      LoadMapping(optional, MergeMapping(d, s, path), s, at);
      LoadMapping(optional, s, s, at);
    }
  }

  // ---------- what is lost ----------

  /** A scalar under a key of its own is lost exactly in three ways: where absence is a state of its own, as a zero
      over the default that is a number, and as a default under the dotted spelling of its path. */
  lemma ScalarLostIff(optional: Optional, path: seq<string>, v: Tree)
    requires v.kind == Scalar && v.tag != "!!null"
    ensures NotAdded(path, v) && !Silent(optional, v, path) <==>
      || (NotAdded(path, v) && optional(path))
      || (v.tag in {"!!int", "!!float"} && v.value in {"0", "0.0"} && path == ["error-logs-max-files"])
      || (OwnDefault(path, v) && |path| == 1 && v.tag == "!!str")
  {
    NamedTexts(path);
    hide TrimSpace;
    ZeroNumbers();
    LowerFalse();
  }

  lemma PanelTrimmed()
    ensures Trimmed(PANEL_REPOSITORY)
  {
    assert PANEL_REPOSITORY[0] == 'h';
  }

  lemma NamedTexts(path: seq<string>)
    ensures forall s :: s == "" ==> ReadText(s, path) == Text(DefaultText(path))
    ensures forall s :: DefaultText(path) == s ==> ReadText(s, path) == Text(s)
    ensures |path| == 1 ==> DefaultText(path) == "" && forall s :: ReadText(s, path) == Text(s)
  {
    assert Trimmed(PPROF_ADDR);
    PanelTrimmed();
    assert Trimmed("round-robin");
    assert Trimmed("");
  }

  lemma ZeroNumbers()
    ensures ReadNumber("0") == Number(0) && ReadNumber("0.0") == Number(0) && ReadNumber("10") == Number(10)
  {
    assert "0.0"[1..] == ".0" && "0.0"[..1] == "0" && "10"[..1] == "1";
    assert Digits("0") == Some(0) && Digits("1") == Some(1);
    assert "0.0"[..2][1] == '.';
    assert Digits("0.") == None;
  }

  lemma LowerFalse()
    ensures ToLower("false") != "true" && ToLower("true") == "true"
  {
    assert |ToLower("false")| == 5;
  }

  // ---------- sources that do not come back ----------

  const NOTHING := Tree(Mapping, "!!map", "", "", [])

  function OneKey(key: string, v: Tree): Tree
  {
    Tree(Mapping, "!!map", "", "", [Tree(Scalar, "!!str", key, "", []), v])
  }

  lemma NotWritten(key: string, v: Tree)
    requires IsKnownDefault([key], Prune([key], v))
    ensures MergeMapping(NOTHING, OneKey(key, v), []) == NOTHING
  {
    hide IsKnownDefault, Prune;
    var src := OneKey(key, v).kids;
    assert FindKey([], key) == -1 && [] + [key] == [key];
    assert src[2..] == [];
    assert MergePairs(MergePair([], src, []), [], []) == [];
  }

  lemma ReadOneKey(optional: Optional, t: Tree, key: string, v: Tree)
    requires t.kind == Mapping
    ensures Load(optional, Some(t), OneKey(key, v), []) == Fields([Load(optional, Lookup(t.kids, key), v, [key])])
  {
    hide Lookup;
    assert OneKey(key, v).kids[2..] == [] && [] + [key] == [key];
    assert LoadPairs(optional, t.kids, [], []) == [];
  }

  /** Keeping all error logs is written as 0, the zero of its type; the file then reads 10. */
  lemma ZeroFilesAreLost(optional: Optional)
    requires !optional(["error-logs-max-files"])
    ensures var s := OneKey("error-logs-max-files", Tree(Scalar, "!!int", "0", "", []));
      && MergeMapping(NOTHING, s, []) == NOTHING
      && Load(optional, Some(s), s, []) == Fields([Number(0)])
      && Load(optional, Some(NOTHING), s, []) == Fields([Number(10)])
  {
    var zero := Tree(Scalar, "!!int", "0", "", []);
    NotWritten("error-logs-max-files", zero);
    ReadOneKey(optional, OneKey("error-logs-max-files", zero), "error-logs-max-files", zero);
    ReadOneKey(optional, NOTHING, "error-logs-max-files", zero);
    ZeroNumbers();
  }

  /** Switching off a flag that is on when absent is written as false; the file then reads as not set. */
  lemma FalseFlagIsLost(optional: Optional)
    requires optional(["antigravity-signature-cache-enabled"])
    ensures var s := OneKey("antigravity-signature-cache-enabled", Tree(Scalar, "!!bool", "false", "", []));
      && MergeMapping(NOTHING, s, []) == NOTHING
      && Load(optional, Some(s), s, []) == Fields([Bool(false)])
      && Load(optional, Some(NOTHING), s, []) == Fields([Unset])
  {
    var off := Tree(Scalar, "!!bool", "false", "", []);
    NotWritten("antigravity-signature-cache-enabled", off);
    ReadOneKey(optional, OneKey("antigravity-signature-cache-enabled", off), "antigravity-signature-cache-enabled",
      off);
    ReadOneKey(optional, NOTHING, "antigravity-signature-cache-enabled", off);
    LowerFalse();
  }

  /** A list of zeros reads as no list. */
  lemma ZeroListIsLost(optional: Optional, key: string)
    requires !optional([key])
    ensures var s := OneKey(key, Tree(Sequence, "!!seq", "", "", [Tree(Scalar, "!!int", "0", "", [])]));
      && MergeMapping(NOTHING, s, []) == NOTHING
      && Load(optional, Some(s), s, []) == Fields([Items([Number(0)])])
      && Load(optional, Some(NOTHING), s, []) == Fields([Items([])])
  {
    var zero := Tree(Scalar, "!!int", "0", "", []);
    var zeros := Tree(Sequence, "!!seq", "", "", [zero]);
    assert zeros.kids[0] == zero && SpelledZero(zero);
    assert Vacant(Some([key]), zeros) by { assert Vacant(Some([key]), zero); }
    NotAddedIff([key], zeros);
    NotWritten(key, zeros);
    ReadOneKey(optional, OneKey(key, zeros), key, zeros);
    ReadOneKey(optional, NOTHING, key, zeros);
    ZeroNumbers();
    LoadAllAt(optional, [zero], [zero], [key], 0);
    assert LoadAll(optional, [zero], [zero], [key]) == [Number(0)];
  }
}
