/** A list whose elements a second merge reorders. */
module YamlReorder {
  import opened Strings
  import opened YamlMerge
  import opened YamlCoverage
  import opened YamlPreservation
  import opened YamlRemerge

  /** No key short of two characters is one that identifies an element. */
  lemma {:induction false} ShortKeysDoNotName(kids: seq<Tree>, names: seq<string>)
    requires forall j :: 0 <= j < |kids| && j % 2 == 0 ==> |TrimSpace(kids[j].value)| < 2
    requires forall i :: 0 <= i < |names| ==> |names[i]| >= 2
    ensures FirstNamed(kids, names) == ""
  {
    if names != [] {
      ShortKeyIsAnother(kids, names[0]);
      ShortKeysDoNotName(kids, names[1..]);
    }
  }

  lemma {:induction false} ShortKeyIsAnother(kids: seq<Tree>, name: string)
    requires forall j :: 0 <= j < |kids| && j % 2 == 0 ==> |TrimSpace(kids[j].value)| < 2
    requires |name| >= 2
    ensures ScalarUnder(kids, name) == ""
    decreases |kids|
  {
    if |kids| >= 2 {
      assert |ToLower(TrimSpace(kids[0].value))| < 2 <= |ToLower(name)|;
      ShortKeyIsAnother(kids[2..], name);
    }
  }

  function Text(s: string): Tree { Tree(Scalar, "!!str", s, "", []) }
  function Pairs(k: string, v: Tree, l: string, w: Tree): Tree
  {
    Tree(Mapping, "!!map", "", "", [Text(k), v, Text(l), w])
  }

  function List(t: Tree): Tree { Tree(Sequence, "!!seq", "", "", [t]) }

  lemma IdentityOfPairs(k: string, v: Tree, l: string, w: Tree)
    requires |TrimSpace(k)| < 2 && |TrimSpace(l)| < 2
    ensures Identity(Pairs(k, v, l, w)) == FirstScalar([Text(k), v] + [Text(l), w])
  {
    hide FirstScalar, FirstNamed, TrimSpace;
    var kids := [Text(k), v, Text(l), w];
    assert kids == [Text(k), v] + [Text(l), w];
    forall j | 0 <= j < |kids| && j % 2 == 0 ensures |TrimSpace(kids[j].value)| < 2 {
      assert j == 0 || j == 2;
    }
    ShortKeysDoNotName(kids, IDENTITY_KEYS);
  }

  lemma FirstScalarStep(k: string, v: Tree, rest: seq<Tree>)
    ensures FirstScalar([Text(k), v] + rest) ==
      if v.kind == Scalar && TrimSpace(v.value) != "" then ToLower(TrimSpace(k)) + "=" + TrimSpace(v.value)
      else FirstScalar(rest)
  {
    assert ([Text(k), v] + rest)[2..] == rest;
  }

  lemma Letters()
    ensures TrimSpace("p") == "p" && TrimSpace("q") == "q" && TrimSpace("1") == "1" && TrimSpace("2") == "2"
    ensures ToLower("p") == "p" && ToLower("q") == "q"
  {
  }

  lemma OldIdentity()
    ensures Identity(Pairs("q", Text(""), "p", Text("1"))) == "p=1"
  {
    hide TrimSpace, ToLower, Identity, FirstScalar;
    Letters();
    IdentityOfPairs("q", Text(""), "p", Text("1"));
    FirstScalarStep("q", Text(""), [Text("p"), Text("1")]);
    FirstScalarStep("p", Text("1"), []);
    assert [Text("p"), Text("1")] + [] == [Text("p"), Text("1")];
  }

  lemma SourceIdentity()
    ensures Identity(Pairs("p", Text("1"), "q", Text("2"))) == "p=1"
  {
    hide TrimSpace, ToLower, Identity, FirstScalar;
    Letters();
    IdentityOfPairs("p", Text("1"), "q", Text("2"));
    FirstScalarStep("p", Text("1"), [Text("q"), Text("2")]);
  }

  lemma NewIdentity()
    ensures Identity(Pairs("q", Text("2"), "p", Text("1"))) == "q=2"
  {
    hide TrimSpace, ToLower, Identity, FirstScalar;
    Letters();
    IdentityOfPairs("q", Text("2"), "p", Text("1"));
    FirstScalarStep("q", Text("2"), [Text("p"), Text("1")]);
  }

  /** The first merge takes over the element with the identity p=1 and fills in its q. */
  lemma FirstMerge()
    ensures MergeNode(List(Pairs("q", Text(""), "p", Text("1"))), List(Pairs("p", Text("1"), "q", Text("2"))), [])
            == List(Pairs("q", Text("2"), "p", Text("1")))
  {
    var d, s := Pairs("q", Text(""), "p", Text("1")), Pairs("p", Text("1"), "q", Text("2"));
    hide Plan, MergeElement;
    TakesOver(d, s);
    MergeElementsAt([d], [0], [s], [], 0);
    ElementOnce(d, s);
  }

  lemma TakesOver(d: Tree, s: Tree)
    requires d == Pairs("q", Text(""), "p", Text("1")) && s == Pairs("p", Text("1"), "q", Text("2"))
    ensures Plan([d], {}, [s]) == [0]
  {
    hide Identity, Alike, Plan;
    OldIdentity();
    SourceIdentity();
    PlanPlaces([d], {}, [s], 0);
    assert NameMatch([d][0], s);
    assert FreeMatch([d], {} + TakenBefore(Plan([d], {}, [s]), 0), ByName(s));
  }

  lemma ElementOnce(d: Tree, s: Tree)
    requires d == Pairs("q", Text(""), "p", Text("1")) && s == Pairs("p", Text("1"), "q", Text("2"))
    ensures MergeElement(d, s, []) == Pairs("q", Text("2"), "p", Text("1"))
  {
    var tail, two := [Text("q"), Text("2")], [Text("q"), Text("2"), Text("p"), Text("1")];
    assert s.kids[2..] == tail;
    FirstPairOnce(d.kids, s.kids);
    SecondPairOnce(d.kids, tail);
    hide MergePair, MergeNode;
    assert MergePairs(two, [], []) == two && tail[2..] == [];
    assert MergePairs(d.kids, tail, []) == two;
    assert MergePairs(d.kids, s.kids, []) == two;
    hide MergePairs;
    MergeNodeOfMappings(d, s, []);
    BothKept(s.kids);
  }

  lemma FirstPairOnce(kids: seq<Tree>, src: seq<Tree>)
    requires kids == [Text("q"), Text(""), Text("p"), Text("1")] && src == [Text("p"), Text("1"), Text("q"), Text("2")]
    ensures MergePair(kids, src, []) == kids
  {
    assert kids[0].value != "p" && kids[2].value == "p" && FindKey(kids, "p") == 2;
    assert MergeNode(Text("1"), Text("1"), [] + ["p"]) == Text("1");
    assert kids[3 := Text("1")] == kids;
  }

  lemma SecondPairOnce(kids: seq<Tree>, src: seq<Tree>)
    requires kids == [Text("q"), Text(""), Text("p"), Text("1")] && src == [Text("q"), Text("2")]
    ensures MergePair(kids, src, []) == [Text("q"), Text("2"), Text("p"), Text("1")]
  {
    assert kids[0].value == "q" && FindKey(kids, "q") == 0;
    assert MergeNode(Text(""), Text("2"), [] + ["q"]) == Text("2");
    assert kids[1 := Text("2")] == [Text("q"), Text("2"), Text("p"), Text("1")];
  }

  lemma BothKept(src: seq<Tree>)
    requires src == [Text("p"), Text("1"), Text("q"), Text("2")]
    ensures var kids := [Text("q"), Text("2"), Text("p"), Text("1")]; PruneMissing(kids, src) == kids
  {
    assert TrimSpace("p") == "p" && TrimSpace("q") == "q";
    assert Keeps(src, "p") by { assert TrimSpace(src[0].value) == "p"; }
    assert Keeps(src, "q") by { assert TrimSpace(src[2].value) == "q"; }
    hide Keeps;
    var kids := [Text("q"), Text("2"), Text("p"), Text("1")];
    assert kids[2..] == [Text("p"), Text("1")] && kids[2..][2..] == [];
    assert PruneMissing(kids[2..], src) == kids[2..];
  }

  /** By its new first scalar the element is another, so the second merge copies the source's, keys in its order. */
  lemma SecondMerge()
    ensures MergeNode(List(Pairs("q", Text("2"), "p", Text("1"))), List(Pairs("p", Text("1"), "q", Text("2"))), [])
            == List(Pairs("p", Text("1"), "q", Text("2")))
  {
    var d, s := Pairs("q", Text("2"), "p", Text("1")), Pairs("p", Text("1"), "q", Text("2"));
    Unlike(d, s);
    PlanPlaces([d], {}, [s], 0);
    hide Alike, NameMatch, MergeElement, TakenBefore;
    var plan := Plan([d], {}, [s]);
    assert plan == [-1];
    MergeElementsAt([d], plan, [s], [], 0);
  }

  lemma Unlike(d: Tree, s: Tree)
    requires d == Pairs("q", Text("2"), "p", Text("1")) && s == Pairs("p", Text("1"), "q", Text("2"))
    ensures !Alike(d, s) && !NameMatch(d, s)
  {
    hide Identity, TrimSpace;
    SourceIdentity();
    NewIdentity();
    Letters();
    assert !Alike(d.kids[0], s.kids[0]);
  }

  /** In general merging is not idempotent: a second merge can reorder the keys of an element. */
  lemma SecondMergeReorders()
    ensures var d, s := List(Pairs("q", Text(""), "p", Text("1"))), List(Pairs("p", Text("1"), "q", Text("2")));
      var once := MergeNode(d, s, []);
      var twice := MergeNode(once, s, []);
      once == List(Pairs("q", Text("2"), "p", Text("1"))) && twice == s && twice != once
  {
    FirstMerge();
    SecondMerge();
    hide MergeNode;
  }

  lemma Blank()
    ensures TrimSpace("") == ""
  {
  }

  lemma UnlikeCopy(d: Tree, s: Tree)
    requires d == Pairs("q", Text("2"), "p", Text("1")) && s == Pairs("q", Text(""), "p", Text("1"))
    ensures !Alike(d, s) && !NameMatch(d, s)
  {
    hide Identity, TrimSpace;
    OldIdentity();
    NewIdentity();
    Letters();
    Blank();
    assert !Alike(d.kids[1], s.kids[1]);
  }

  lemma SameIdentity(d: Tree, s: Tree)
    requires d == Pairs("q", Text(""), "p", Text("1")) && s == Pairs("p", Text("1"), "q", Text("2"))
    ensures NameMatch(d, s)
  {
    hide Identity;
    OldIdentity();
    SourceIdentity();
  }

  /** Two elements that changed places in the plan: the second stands in for the first and comes out as it was. */
  lemma DisplacedPlan(filled: Tree, empty: Tree, target: Tree)
    requires filled == Pairs("q", Text("2"), "p", Text("1")) && empty == Pairs("q", Text(""), "p", Text("1"))
    requires target == Pairs("p", Text("1"), "q", Text("2"))
    ensures Plan([filled, empty], {}, [target, empty]) == [1, -1]
  {
    hide Identity, Plan;
    var kids, src := [filled, empty], [target, empty];
    var plan := Plan(kids, {}, src);
    Unlike(filled, target);
    UnlikeCopy(filled, empty);
    hide Alike, NameMatch;
    assert NameMatch(kids[1], target) by { SameIdentity(empty, target); }
    PlanPlaces(kids, {}, src, 0);
    assert FreeMatch(kids, {} + TakenBefore(plan, 0), ByName(target));
    assert plan[0] == 1;
    SecondTaken(kids, src, plan);
  }

  lemma SecondTaken(kids: seq<Tree>, src: seq<Tree>, plan: seq<int>)
    requires |kids| == |src| == 2 && plan == Plan(kids, {}, src) && plan[0] == 1
    requires !NameMatch(kids[0], src[1]) && !Alike(kids[0], src[1])
    ensures plan == [1, -1]
  {
    hide Plan, NameMatch, Alike;
    PlanPlaces(kids, {}, src, 1);
    assert 1 in {} + TakenBefore(plan, 1);
  }

  /** A merge can leave a list alone although its elements do not keep their places. */
  lemma DisplacedIsStable()
    ensures var filled, empty := Pairs("q", Text("2"), "p", Text("1")), Pairs("q", Text(""), "p", Text("1"));
      var t := Tree(Sequence, "!!seq", "", "", [filled, empty]);
      var s := Tree(Sequence, "!!seq", "", "", [Pairs("p", Text("1"), "q", Text("2")), empty]);
      MergeNode(t, s, []) == t && Plan(t.kids, {}, s.kids) == [1, -1]
  {
    var filled, empty := Pairs("q", Text("2"), "p", Text("1")), Pairs("q", Text(""), "p", Text("1"));
    var target := Pairs("p", Text("1"), "q", Text("2"));
    var kids, src := [filled, empty], [target, empty];
    hide Plan, MergeElement;
    DisplacedPlan(filled, empty, target);
    MergeElementsAt(kids, [1, -1], src, [], 0);
    MergeElementsAt(kids, [1, -1], src, [], 1);
    ElementOnce(empty, target);
  }
}
