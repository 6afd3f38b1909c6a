/** The merge as the program does it: in place on the nodes of the destination. */
module YamlHeap {
  import opened Strings
  import opened YamlMerge
  import opened YamlNode
  import opened YamlMatching
  import P = YamlPreservation

  // ---------- pruning the keys that went ----------

  method KeptKeys(src: Node) returns (keep: set<string>)
    requires src.Valid() && src.kind == Mapping
    ensures forall key: string :: TrimSpace(key) in keep <==> Keeps(src.tree.kids, key)
  {
    keep := {};
    ghost var kids := src.tree.kids;
    var i := 0;
    while i + 1 < |src.content|
      invariant 0 <= i && i % 2 == 0
      invariant forall key :: key in keep <==>
        key != "" && exists j :: 0 <= j < i && j % 2 == 0 && j + 1 < |kids| && TrimSpace(kids[j].value) == key
    {
      Child(src, i);
      var key := TrimSpace(src.content[i].value);
      if key != "" { keep := keep + {key}; }
      i := i + 2;
    }
  }

  method PruneMissingMapKeys(dst: Node, src: Node)
    requires dst.Valid() && src.Valid() && dst.repr !! src.repr
    modifies dst
    ensures dst.Valid() && dst.repr == old(dst.repr)
    ensures dst.tree == if old(dst.kind) != Mapping || src.kind != Mapping then old(dst.tree)
                        else old(dst.tree).(kids := PruneMissing(old(dst.tree.kids), src.tree.kids))
  {
    hide PruneMissing, Keeps;
    if dst.kind != Mapping || src.kind != Mapping { return; }
    var keep := KeptKeys(src);
    ghost var kids, theirs := dst.tree.kids, src.tree.kids;
    var i := 0;
    while i + 1 < |dst.content|
      invariant 0 <= i <= |dst.content|
      invariant dst.Valid() && dst.repr == old(dst.repr) && dst.tree == old(dst.tree).(kids := dst.tree.kids)
      invariant dst.tree.kids[..i] + PruneMissing(dst.tree.kids[i..], theirs) == PruneMissing(kids, theirs)
      decreases |dst.content| - i
    {
      Child(dst, i);
      if TrimSpace(dst.content[i].value) !in keep {
        PruneMissingGoes(dst.tree.kids, i, theirs);
        RemovePair(dst, i);
      } else {
        PruneMissingStays(dst.tree.kids, i, theirs);
        i := i + 2;
      }
    }
    PruneMissingEnd(dst.tree.kids, i, theirs);
  }

  lemma PruneMissingGoes(kids: seq<Tree>, i: nat, theirs: seq<Tree>)
    requires i + 1 < |kids| && !Keeps(theirs, kids[i].value)
    ensures var less := kids[..i] + kids[i + 2..];
      kids[..i] + PruneMissing(kids[i..], theirs) == less[..i] + PruneMissing(less[i..], theirs)
  {
    hide Keeps;
    assert kids[i..][2..] == (kids[..i] + kids[i + 2..])[i..];
  }

  lemma PruneMissingStays(kids: seq<Tree>, i: nat, theirs: seq<Tree>)
    requires i + 1 < |kids| && Keeps(theirs, kids[i].value)
    ensures kids[..i] + PruneMissing(kids[i..], theirs) == kids[..i + 2] + PruneMissing(kids[i + 2..], theirs)
  {
    hide Keeps;
    assert kids[i..][2..] == kids[i + 2..];
  }

  lemma PruneMissingEnd(kids: seq<Tree>, i: nat, theirs: seq<Tree>)
    requires i <= |kids| <= i + 1
    ensures kids[..i] + PruneMissing(kids[i..], theirs) == kids
  {
  }

  method RemovePair(n: Node, i: nat)
    requires n.Valid() && i + 1 < |n.content|
    modifies n`content, n`tree, n`repr
    ensures n.Valid() && n.repr == old(n.repr)
    ensures n.tree == old(n.tree).(kids := old(n.tree.kids)[..i] + old(n.tree.kids)[i + 2..])
  {
    ghost var below := n.repr - {n};
    n.content := n.content[..i] + n.content[i + 2..];
    n.Settle(below);
  }

  // ---------- merging ----------

  method MergeMappingPreserve(dst: Node, src: Node, path: seq<string>)
    requires dst.Valid() && src.Valid() && dst.repr !! src.repr
    modifies dst.repr
    ensures dst.Valid() && fresh(dst.repr - old(dst.repr)) && dst.repr !! src.repr
    ensures dst.tree == MergeMapping(old(dst.tree), src.tree, path)
    ensures old(dst.kind) == src.kind == Mapping ==> old(dst.content) <= dst.content
    decreases src.repr, 1
  {
    hide MergePair, IsKnownDefault, Prune;
    if dst.kind != Mapping || src.kind != Mapping {
      CopyNodeShallow(dst, src);
      return;
    }
    ghost var kids, theirs := dst.tree.kids, src.tree.kids;
    var i := 0;
    while i + 1 < |src.content|
      invariant 0 <= i <= |theirs|
      invariant dst.Valid() && fresh(dst.repr - old(dst.repr)) && dst.kind == Mapping && old(dst.content) <= dst.content
      invariant dst.tree == old(dst.tree).(kids := dst.tree.kids)
      invariant MergePairs(dst.tree.kids, theirs[i..], path) == MergePairs(kids, theirs, path)
    {
      MergePairPreserve(dst, src, i, path);
      assert theirs[i..][2..] == theirs[i + 2..];
      i := i + 2;
    }
  }

  /** One pair of src: merged under its key, or copied, pruned and added unless it is a known default. */
  method MergePairPreserve(dst: Node, src: Node, i: nat, path: seq<string>)
    requires dst.Valid() && src.Valid() && dst.repr !! src.repr && dst.kind == src.kind == Mapping
      && i + 1 < |src.content|
    modifies dst.repr
    ensures dst.Valid() && fresh(dst.repr - old(dst.repr)) && old(dst.content) <= dst.content
    ensures dst.tree == old(dst.tree).(kids := MergePair(old(dst.tree.kids), src.tree.kids[i..], path))
    decreases src.repr, 0
  {
    hide IsKnownDefault, Prune, MergeNode;
    Child(src, i);
    Child(src, i + 1);
    var sk, sv := src.content[i], src.content[i + 1];
    var idx := FindMapKeyIndex(dst, sk.value);
    var childPath := path + [sk.value];
    if idx >= 0 {
      MergeInto(dst, idx + 1, sv, childPath);
    } else {
      AddPair(dst, sk, sv, childPath);
    }
  }

  method MergeInto(dst: Node, at: nat, src: Node, path: seq<string>)
    requires dst.Valid() && src.Valid() && dst.repr !! src.repr && at < |dst.content|
    modifies dst.repr
    ensures dst.Valid() && fresh(dst.repr - old(dst.repr)) && dst.content == old(dst.content)
    ensures dst.tree
      == old(dst.tree).(kids := old(dst.tree.kids)[at := MergeNode(old(dst.tree.kids[at]), src.tree, path)])
    decreases src.repr, 5
  {
    hide MergeNode;
    ghost var below, kids := dst.repr - {dst}, dst.tree.kids;
    Member(dst.content, below, at);
    below := MergeAt(dst.content, below, at, src, path);
    dst.Settle(below);
    assert dst.tree.kids == kids[at := MergeNode(kids[at], src.tree, path)];
  }

  method AddPair(dst: Node, sk: Node, sv: Node, path: seq<string>)
    requires dst.Valid() && sk.Valid() && sv.Valid() && dst.repr !! sk.repr && dst.repr !! sv.repr
    modifies dst
    ensures dst.Valid() && fresh(dst.repr - old(dst.repr)) && old(dst.content) <= dst.content
    ensures
      var candidate := Prune(path, sv.tree);
      dst.tree == if IsKnownDefault(path, candidate) then old(dst.tree)
        else old(dst.tree).(kids := old(dst.tree.kids) + [sk.tree, candidate])
  {
    hide IsKnownDefault, Prune;
    var candidate := PrunedCopy(path, sv);
    var known := IsKnownDefaultValue(path, candidate);
    if known { return; }
    var key := DeepCopyNode(sk);
    Append(dst, key, candidate);
  }

  method PrunedCopy(path: seq<string>, n: Node) returns (c: Node)
    requires n.Valid()
    ensures c.Valid() && fresh(c.repr) && c.tree == Prune(path, n.tree)
  {
    hide Prune;
    c := DeepCopyNode(n);
    PruneKnownDefaultsInNewNode(path, c);
  }

  method Append(dst: Node, key: Node, value: Node)
    requires dst.Valid() && key.Valid() && value.Valid()
    requires dst.repr !! key.repr && dst.repr !! value.repr && key.repr !! value.repr
    modifies dst
    ensures dst.Valid() && dst.repr == old(dst.repr) + key.repr + value.repr
      && dst.content == old(dst.content) + [key, value]
    ensures dst.tree == old(dst.tree).(kids := old(dst.tree.kids) + [key.tree, value.tree])
  {
    ghost var below := dst.repr - {dst};
    ForestGrows(dst.content, below, key);
    ForestGrows(dst.content + [key], below + key.repr, value);
    assert dst.content + [key] + [value] == dst.content + [key, value];
    ghost var kids := dst.tree.kids;
    dst.Refill(dst.content + [key, value], below + key.repr + value.repr);
    assert dst.tree.kids == kids + [key.tree, value.tree];
  }

  /** Merges into one tree of a forest; the others stay. */
  method MergeAt(s: seq<Node>, ghost below: set<Node>, at: nat, src: Node, path: seq<string>)
    returns (ghost below': set<Node>)
    requires Forest(s, below) && at < |s| && src.Valid() && below !! src.repr
    modifies s[at].repr
    ensures Forest(s, below') && below <= below' && fresh(below' - below)
    ensures s[at].tree == MergeNode(old(s[at].tree), src.tree, path)
    ensures forall i :: 0 <= i < |s| && i != at ==> s[i].tree == old(s[i].tree)
    decreases src.repr, 4
  {
    hide MergeNode;
    MergeNodePreserve(s[at], src, path);
    below' := below + s[at].repr;
    forall i | 0 <= i < |s| && i != at
      ensures s[i].repr == old(s[i].repr) && s[i].tree == old(s[i].tree) && s[i].Valid()
    {
      assert s[i] in old(s[i].repr) && old(s[i].repr) !! old(s[at].repr);
    }
  }

  method MergeNodePreserve(dst: Node, src: Node, path: seq<string>)
    requires dst.Valid() && src.Valid() && dst.repr !! src.repr
    modifies dst.repr
    ensures dst.Valid() && fresh(dst.repr - old(dst.repr))
    ensures dst.tree == MergeNode(old(dst.tree), src.tree, path)
    decreases src.repr, 3
  {
    hide MergeMapping, MergeElements, Plan;
    match src.kind
    case Mapping =>
      if dst.kind != Mapping {
        CopyNodeShallow(dst, src);
      }
      MergeMappingPreserve(dst, src, path);
    case Sequence =>
      if dst.kind == Scalar && dst.tag == "!!null" && |src.content| == 0 { return; }
      if dst.kind != Sequence {
        dst.kind, dst.tag := Sequence, "!!seq";
        dst.Refill([], {});
      }
      MergeSequence(dst, src, path);
    case Scalar =>
      ghost var below := dst.repr - {dst};
      dst.kind, dst.tag, dst.value := src.kind, src.tag, src.value;
      dst.Settle(below);
    case Unknown =>
    case Document =>
      CopyNodeShallow(dst, src);
  }

  method MergeSequence(dst: Node, src: Node, path: seq<string>)
    requires dst.Valid() && src.Valid() && dst.repr !! src.repr && dst.kind == src.kind == Sequence
    modifies dst.repr
    ensures dst.Valid() && fresh(dst.repr - old(dst.repr))
    ensures dst.tree == old(dst.tree).(kids :=
      MergeElements(old(dst.tree.kids), Plan(old(dst.tree.kids), {}, src.tree.kids), src.tree.kids, path))
    ensures
      var plan := Plan(old(dst.tree.kids), {}, src.tree.kids);
      |dst.content| == |plan| && forall i :: 0 <= i < |plan| && plan[i] >= 0 ==>
        dst.content[i] == old(dst.content)[plan[i]]
    decreases src.repr, 2
  {
    var items, below := MergeAll(dst.content, src.content, dst.repr - {dst}, src.repr - {src}, path);
    dst.Refill(items, below);
  }

  /** An element that is taken over: merged, then rid of the keys that went. */
  method MergeElementPreserve(dst: Node, src: Node, path: seq<string>)
    requires dst.Valid() && src.Valid() && dst.repr !! src.repr
    modifies dst.repr
    ensures dst.Valid() && fresh(dst.repr - old(dst.repr))
    ensures dst.tree == MergeElement(old(dst.tree), src.tree, path)
    decreases src.repr, 4
  {
    hide MergeNode, PruneMissing;
    MergeNodePreserve(dst, src, path);
    if dst.kind == Mapping && src.kind == Mapping {
      PruneMissingMapKeys(dst, src);
    }
  }

  /** Fills the slot of one element of src: the node it takes over, merged, or else a copy. */
  method FillSlot(slot: Node?, src: Node, items: seq<Node>, ghost below: set<Node>, path: seq<string>)
    returns (node: Node)
    requires src.Valid() && Forest(items, below) && below !! src.repr
    requires slot != null ==> slot.Valid() && slot.repr !! src.repr && slot.repr !! below
    modifies if slot == null then {} else slot.repr
    ensures Forest(items + [node], below + node.repr)
    ensures Trees(items + [node]) ==
      old(Trees(items)) + [if slot == null then src.tree else MergeElement(old(slot.tree), src.tree, path)]
    ensures if slot == null then fresh(node.repr) else node == slot && fresh(node.repr - old(slot.repr))
    decreases src.repr, 5
  {
    hide MergeElement;
    if slot == null {
      node := DeepCopyNode(src);
    } else {
      node := slot;
      MergeElementPreserve(node, src, path);
    }
    ForestGrows(items, below, node);
  }

  /** The nodes that no element has taken over yet are as they were, apart from all that has been built. */
  ghost predicate Waiting(original: seq<Node>, b: set<Node>, from: seq<Tree>, reprs: seq<set<Node>>, taken: seq<int>,
                          below: set<Node>)
    requires |original| == |from| == |reprs|
    reads b
  {
    forall k :: 0 <= k < |original| && k !in taken ==>
      && original[k] in b && original[k].repr == reprs[k] <= b && reprs[k] !! below
      && original[k].tree == from[k] && original[k].Valid()
  }

  method FillNext(original: seq<Node>, slot: Node?, src: Node, items: seq<Node>, path: seq<string>,
      ghost b: set<Node>, ghost from: seq<Tree>, ghost reprs: seq<set<Node>>, ghost taken: seq<int>, ghost at: int,
        ghost below: set<Node>)
    returns (node: Node)
    requires |original| == |from| == |reprs| && Waiting(original, b, from, reprs, taken, below)
    requires forall i, j :: 0 <= i < j < |reprs| ==> reprs[i] !! reprs[j]
    requires -1 <= at < |original| && (at >= 0 ==> at !in taken)
    requires slot == if at < 0 then null else original[at]
    requires src.Valid() && Forest(items, below) && below !! src.repr && b !! src.repr
    modifies b
    ensures Waiting(original, b, from, reprs, taken + [at], below + node.repr)
    ensures Forest(items + [node], below + node.repr)
    ensures Trees(items + [node]) ==
      old(Trees(items)) + [if at < 0 then src.tree else MergeElement(from[at], src.tree, path)]
    ensures fresh(node.repr - b) && (at >= 0 ==> node == original[at])
    decreases src.repr, 6
  {
    hide MergeElement;
    node := FillSlot(slot, src, items, below, path);
    forall k | 0 <= k < |original| && k !in taken + [at]
      ensures original[k] in b && original[k].repr == reprs[k] <= b && reprs[k] !! below + node.repr
      ensures original[k].tree == from[k] && original[k].Valid()
    {
      assert k !in taken && original[k] in reprs[k] && (at >= 0 ==> reprs[k] !! reprs[at]);
    }
  }

  /** One node for each target: the one it takes over, merged in place, or else a copy. */
  method MergeAll(original: seq<Node>, targets: seq<Node>, ghost b: set<Node>, ghost b': set<Node>, path: seq<string>)
    returns (items: seq<Node>, ghost below: set<Node>)
    requires Forest(original, b) && Forest(targets, b') && b !! b'
    modifies b
    ensures Forest(items, below) && fresh(below - b) && |items| == |targets|
    ensures
      var from := old(Trees(original));
      var plan := Plan(from, {}, old(Trees(targets)));
      && Trees(items) == MergeElements(from, plan, old(Trees(targets)), path)
      && forall i :: 0 <= i < |plan| && plan[i] >= 0 ==> items[i] == original[plan[i]]
    decreases b', 7
  {
    hide Forest, Plan, MergeElements, MergeElement, Waiting, P.Injective, P.Avoids;
    ghost var plan: seq<int>;
    var ordered: seq<Node?>;
    ordered, plan := ReorderSequenceForMerge(original, targets, b, b');
    ghost var from, to := Trees(original), Trees(targets);
    ghost var reprs := seq(|original|, k requires 0 <= k < |original| reads original => original[k].repr);
    items, below := [], {};
    P.PlanInjective(from, {}, to);
    StartWaiting(original, b, from, reprs, plan[..0], below);
    for i := 0 to |targets|
      invariant |items| == i && |plan| == |targets|
      invariant Forest(items, below) && fresh(below - b) && below !! b'
      invariant Waiting(original, b, from, reprs, plan[..i], below)
      invariant Trees(items) + MergeElements(from, plan[i..], to[i..], path) == MergeElements(from, plan, to, path)
      invariant forall j :: 0 <= j < i && plan[j] >= 0 ==> items[j] == original[plan[j]]
    {
      Member(targets, b', i);
      MergeElementsStep(from, plan, to, path, i);
      NotTakenBefore(plan, i);
      var node := FillNext(original, ordered[i], targets[i], items, path, b, from, reprs, plan[..i], plan[i], below);
      items, below := items + [node], below + node.repr;
    }
    assert plan[|to|..] == [] && to[|to|..] == [];
    MergeElementsEnd(from, path);
  }

  lemma StartWaiting(original: seq<Node>, b: set<Node>, from: seq<Tree>, reprs: seq<set<Node>>, taken: seq<int>,
                     below: set<Node>)
    requires Forest(original, b) && from == Trees(original) && below == {} && taken == [] && |reprs| == |original|
    requires forall k :: 0 <= k < |original| ==> reprs[k] == original[k].repr
    ensures Forest([], below) && Waiting(original, b, from, reprs, taken, below)
    ensures forall i, j :: 0 <= i < j < |reprs| ==> reprs[i] !! reprs[j]
  {
  }

  lemma NotTakenBefore(plan: seq<int>, i: nat)
    requires P.Injective(plan) && i < |plan|
    ensures plan[i] >= 0 ==> plan[i] !in plan[..i]
    ensures plan[..i + 1] == plan[..i] + [plan[i]]
  {
  }

  lemma MergeElementsStep(from: seq<Tree>, plan: seq<int>, to: seq<Tree>, path: seq<string>, i: nat)
    requires i < |plan| == |to| && forall j :: 0 <= j < |plan| ==> -1 <= plan[j] < |from|
    ensures MergeElements(from, plan[i..], to[i..], path) ==
      [if plan[i] < 0 then to[i] else MergeElement(from[plan[i]], to[i], path)]
        + MergeElements(from, plan[i + 1..], to[i + 1..], path)
  {
    hide MergeElement;
    assert plan[i..][1..] == plan[i + 1..] && to[i..][1..] == to[i + 1..];
  }

  lemma MergeElementsEnd(from: seq<Tree>, path: seq<string>)
    ensures MergeElements(from, [], [], path) == []
  {
  }
}
