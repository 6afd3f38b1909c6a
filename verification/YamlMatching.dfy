/** Which node of a sequence an element of the new sequence takes over, read off the nodes. */
module YamlMatching {
  import opened Strings
  import opened YamlMerge
  import opened YamlNode

  method FindMapKeyIndex(n: Node, key: string) returns (i: int)
    requires n.Valid()
    ensures i == if n.kind == Mapping then FindKey(n.tree.kids, key) else -1
  {
    if n.kind != Mapping { return -1; }
    i := 0;
    while i + 1 < |n.content|
      invariant 0 <= i && i % 2 == 0
      invariant forall j :: 0 <= j < i && j % 2 == 0 && j + 1 < |n.content| ==> n.tree.kids[j].value != key
    {
      Child(n, i);
      if n.content[i].value == key { return; }
      i := i + 2;
    }
    return -1;
  }

  method MappingScalarValue(n: Node, key: string) returns (text: string)
    requires n.Valid()
    ensures text == if n.kind == Mapping then ScalarUnder(n.tree.kids, key) else ""
  {
    if n.kind != Mapping { return ""; }
    var lowerKey, i := ToLower(key), 0;
    ghost var kids := n.tree.kids;
    while i + 1 < |n.content|
      invariant 0 <= i <= |kids| && ScalarUnder(kids[i..], key) == ScalarUnder(kids, key)
    {
      Child(n, i);
      Child(n, i + 1);
      assert kids[i..][2..] == kids[i + 2..];
      if n.content[i + 1].kind == Scalar && ToLower(TrimSpace(n.content[i].value)) == lowerKey {
        return TrimSpace(n.content[i + 1].value);
      }
      i := i + 2;
    }
    return "";
  }

  method SequenceElementIdentity(n: Node) returns (id: string)
    requires n.Valid()
    ensures id == Identity(n.tree)
  {
    if n.kind != Mapping { return ""; }
    for i := 0 to |IDENTITY_KEYS|
      invariant FirstNamed(n.tree.kids, IDENTITY_KEYS[i..]) == FirstNamed(n.tree.kids, IDENTITY_KEYS)
    {
      var v := MappingScalarValue(n, IDENTITY_KEYS[i]);
      assert IDENTITY_KEYS[i..][1..] == IDENTITY_KEYS[i + 1..];
      if v != "" { return IDENTITY_KEYS[i] + "=" + v; }
    }
    id := FirstScalarOf(n);
  }

  method FirstScalarOf(n: Node) returns (id: string)
    requires n.Valid() && n.kind == Mapping
    ensures id == FirstScalar(n.tree.kids)
  {
    var i := 0;
    ghost var kids := n.tree.kids;
    while i + 1 < |n.content|
      invariant 0 <= i <= |kids| && FirstScalar(kids[i..]) == FirstScalar(kids)
    {
      Child(n, i);
      Child(n, i + 1);
      assert kids[i..][2..] == kids[i + 2..];
      if n.content[i + 1].kind == Scalar {
        var v := TrimSpace(n.content[i + 1].value);
        if v != "" { return ToLower(TrimSpace(n.content[i].value)) + "=" + v; }
      }
      i := i + 2;
    }
    return "";
  }

  method NodesStructurallyEqual(a: Node, b: Node) returns (same: bool)
    requires a.Valid() && b.Valid()
    ensures same == Alike(a.tree, b.tree)
    decreases a.repr
  {
    if a.kind != b.kind { return false; }
    if a.kind == Mapping || a.kind == Sequence {
      if |a.content| != |b.content| { return false; }
      var n := if a.kind == Mapping then |a.content| / 2 * 2 else |a.content|;
      for i := 0 to n
        invariant forall j :: 0 <= j < i ==> Alike(a.tree.kids[j], b.tree.kids[j])
      {
        var eq := NodesStructurallyEqual(a.content[i], b.content[i]);
        if !eq { return false; }
      }
      return true;
    }
    return TrimSpace(a.value) == TrimSpace(b.value);
  }

  // ---------- matching ----------

  lemma MatchIs(original: seq<Tree>, used: set<int>, target: Tree, i: int)
    requires -1 <= i < |original| && (i >= 0 ==> i !in used && Alike(original[i], target))
    requires forall j :: 0 <= j < |original| ==> j in used || !NameMatch(original[j], target)
    requires forall j :: 0 <= j < (if i < 0 then |original| else i) ==> j in used || !Alike(original[j], target)
    ensures MatchElement(original, used, target) == i
  {
  }

  lemma MatchIsByName(original: seq<Tree>, used: set<int>, target: Tree, i: nat)
    requires i < |original| && i !in used && NameMatch(original[i], target)
    requires forall j :: 0 <= j < i ==> j in used || !NameMatch(original[j], target)
    ensures MatchElement(original, used, target) == i
  {
  }

  ghost function Taken(used: array<bool>): set<int>
    reads used
  {
    set k | 0 <= k < used.Length && used[k]
  }

  ghost predicate Skipped(original: seq<Node>, used: array<bool>, target: Node, until: nat)
    reads original, used, target
  {
    forall j :: 0 <= j < until && j < |original| ==> j in Taken(used) || !NameMatch(original[j].tree, target.tree)
  }

  method MatchById(original: seq<Node>, used: array<bool>, target: Node, ghost below: set<Node>) returns (at: int)
    requires Forest(original, below) && target.Valid() && used.Length == |original| && target.kind == Mapping
    ensures -1 <= at < |original| && Skipped(original, used, target, if at < 0 then |original| else at)
    ensures at >= 0 ==> at !in Taken(used) && NameMatch(original[at].tree, target.tree)
  {
    hide Identity;
    var id := SequenceElementIdentity(target);
    if id != "" {
      for i := 0 to |original|
        invariant Skipped(original, used, target, i)
      {
        if !used[i] && original[i].kind == Mapping {
          var own := SequenceElementIdentity(original[i]);
          if own == id { return i; }
        }
      }
    }
    return -1;
  }

  method MatchByText(original: seq<Node>, used: array<bool>, target: Node, ghost below: set<Node>) returns (at: int)
    requires Forest(original, below) && target.Valid() && used.Length == |original| && target.kind == Scalar
    ensures -1 <= at < |original| && Skipped(original, used, target, if at < 0 then |original| else at)
    ensures at >= 0 ==> at !in Taken(used) && NameMatch(original[at].tree, target.tree)
  {
    hide TrimSpace;
    var text := TrimSpace(target.value);
    if text != "" {
      for i := 0 to |original|
        invariant Skipped(original, used, target, i)
      {
        if !used[i] && original[i].kind == Scalar && TrimSpace(original[i].value) == text { return i; }
      }
    }
    return -1;
  }

  method MatchSequenceElement(original: seq<Node>, used: array<bool>, target: Node, ghost below: set<Node>)
    returns (at: int)
    requires Forest(original, below) && target.Valid() && used.Length == |original|
    ensures at == MatchElement(Trees(original), Taken(used), target.tree)
  {
    at := -1;
    if target.kind == Mapping {
      at := MatchById(original, used, target, below);
    } else if target.kind == Scalar {
      at := MatchByText(original, used, target, below);
    }
    if at >= 0 {
      MatchIsByName(Trees(original), Taken(used), target.tree, at);
      return;
    }
    for i := 0 to |original|
      invariant forall j :: 0 <= j < i ==> j in Taken(used) || !Alike(original[j].tree, target.tree)
    {
      if !used[i] {
        var same := NodesStructurallyEqual(original[i], target);
        if same {
          MatchIs(Trees(original), Taken(used), target.tree, i);
          return i;
        }
      }
    }
    MatchIs(Trees(original), Taken(used), target.tree, -1);
    return -1;
  }

  /** One more target is planned. */
  lemma PlanNext(original: seq<Tree>, used: set<int>, to: seq<Tree>, plan: seq<int>, i: nat, used': set<int>)
    requires i < |to|
    requires used' == (var at := MatchElement(original, used, to[i]); if at >= 0 then used + {at} else used)
    ensures plan + [MatchElement(original, used, to[i])] + Plan(original, used', to[i + 1..])
      == plan + Plan(original, used, to[i..])
  {
    assert to[i..][1..] == to[i + 1..];
  }

  lemma PlanEnd(original: seq<Tree>, used: set<int>)
    ensures Plan(original, used, []) == []
  {
  }

  method Take(original: seq<Node>, used: array<bool>, at: int) returns (node: Node?)
    requires -1 <= at < |original| == used.Length
    modifies used
    ensures node == if at < 0 then null else original[at]
    ensures Taken(used) == if at < 0 then old(Taken(used)) else old(Taken(used)) + {at}
  {
    if at < 0 { return null; }
    used[at] := true;
    return original[at];
  }

  /** The nodes that the elements of `targets` take over, in their order; null where there is none. */
  method ReorderSequenceForMerge(original: seq<Node>, targets: seq<Node>, ghost below: set<Node>,
                                 ghost below': set<Node>)
    returns (ordered: seq<Node?>, ghost plan: seq<int>)
    requires Forest(original, below) && Forest(targets, below')
    ensures plan == Plan(Trees(original), {}, Trees(targets)) && |ordered| == |targets|
    ensures forall i :: 0 <= i < |targets| ==> ordered[i] == if plan[i] < 0 then null else original[plan[i]]
  {
    hide Forest, Plan, MatchElement;
    var used := new bool[|original|](_ => false);
    ordered, plan := [], [];
    ghost var from, to := Trees(original), Trees(targets);
    assert Taken(used) == {} && to[0..] == to;
    for i := 0 to |targets|
      invariant |plan| == |ordered| == i
      invariant unchanged(below) && unchanged(below')
      invariant plan + Plan(from, Taken(used), to[i..]) == Plan(from, {}, to)
      invariant forall j :: 0 <= j < i ==>
        -1 <= plan[j] < |original| && ordered[j] == if plan[j] < 0 then null else original[plan[j]]
    {
      Member(targets, below', i);
      var at := MatchSequenceElement(original, used, targets[i], below);
      ghost var taken := Taken(used);
      var node := Take(original, used, at);
      PlanNext(from, taken, to, plan, i, Taken(used));
      ordered, plan := ordered + [node], plan + [at];
    }
    assert to[|to|..] == [];
    PlanEnd(from, Taken(used));
  }
}
