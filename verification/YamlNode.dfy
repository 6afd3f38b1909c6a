/** YAML nodes as the program holds them: objects that own their content, each standing for a tree. */
module YamlNode {
  import opened Strings
  import opened YamlMerge
  import YamlReading

  class Node {
    var kind: Kind
    var tag: string
    var value: string
    const note: string
    var content: seq<Node>
    ghost var repr: set<Node>
    ghost var tree: Tree

    /** The nodes below form a finite tree: no node is reached twice. */
    ghost predicate Valid()
      reads this, repr
      decreases repr, 0
    {
      && this in repr
      && Forest(content, repr - {this})
      && tree == Tree(kind, tag, value, note, Trees(content))
    }

    constructor (kind: Kind, tag: string, value: string, note: string, content: seq<Node>, ghost below: set<Node>)
      requires Forest(content, below)
      ensures Valid() && repr == {this} + below && fresh(this)
      ensures tree == Tree(kind, tag, value, note, Trees(content))
    {
      this.kind, this.tag, this.value, this.note, this.content := kind, tag, value, note, content;
      repr, tree := {this} + below, Tree(kind, tag, value, note, Trees(content));
      new;
      assert repr - {this} == below;
    }

    method Refill(kids: seq<Node>, ghost below: set<Node>)
      requires Forest(kids, below) && this !in below
      modifies this`content, this`repr, this`tree
      ensures Valid() && repr == {this} + below && content == kids
      ensures tree == Tree(kind, tag, value, note, Trees(kids))
    {
      content := kids;
      Settle(below);
    }

    /** Brings the ghost fields in line with the real ones. */
    ghost method Settle(below: set<Node>)
      requires Forest(content, below) && this !in below
      modifies this`repr, this`tree
      ensures Valid() && repr == {this} + below
      ensures tree == Tree(kind, tag, value, note, Trees(content))
    {
      repr := {this} + below;
      tree := Tree(kind, tag, value, note, Trees(content));
      assert repr - {this} == below;
    }
  }

  ghost function Trees(s: seq<Node>): (r: seq<Tree>)
    reads s
    ensures |r| == |s| && forall i :: 0 <= i < |s| ==> r[i] == s[i].tree
  {
    seq(|s|, i requires 0 <= i < |s| reads s => s[i].tree)
  }

  /** Trees within a set of nodes that share none of them. */
  ghost predicate Forest(s: seq<Node>, below: set<Node>)
    reads below
    decreases below, 1
  {
    && (forall i :: 0 <= i < |s| ==> s[i] in below && s[i].repr <= below && s[i].Valid())
    && (forall i, j :: 0 <= i < j < |s| ==> s[i].repr !! s[j].repr)
  }

  /** What a node's content holds at an index. */
  lemma Child(n: Node, i: nat)
    requires n.Valid() && i < |n.content|
    ensures var c := n.content[i];
      && c.Valid() && c in n.repr && c.repr < n.repr && n !in c.repr
      && c.tree == n.tree.kids[i] == Tree(c.kind, c.tag, c.value, c.note, c.tree.kids)
  {
  }

  lemma Member(s: seq<Node>, below: set<Node>, i: nat)
    requires Forest(s, below) && i < |s|
    ensures s[i] in below && s[i].repr <= below && s[i].Valid() && s[i] in s[i].repr
  {
  }

  /** `picked` takes nodes of s in order, those at the indices `picks`, all below a bound. */
  ghost predicate IsPick(s: seq<Node>, picked: seq<Node>, picks: seq<int>, bound: int) {
    && |picks| == |picked|
    && (forall j :: 0 <= j < |picks| ==> 0 <= picks[j] < bound && picks[j] < |s| && picked[j] == s[picks[j]])
    && (forall j, k :: 0 <= j < k < |picks| ==> picks[j] < picks[k])
  }

  lemma PickIsForest(s: seq<Node>, below: set<Node>, picked: seq<Node>, picks: seq<int>, bound: int)
    requires Forest(s, below) && IsPick(s, picked, picks, bound)
    ensures Forest(picked, below)
  {
  }

  lemma ForestGrows(s: seq<Node>, below: set<Node>, n: Node)
    requires Forest(s, below) && n.Valid() && below !! n.repr
    ensures Forest(s + [n], below + n.repr)
  {
  }

  // ---------- copies ----------

  method DeepCopyNode(n: Node) returns (c: Node)
    requires n.Valid()
    ensures c.Valid() && fresh(c.repr) && c.tree == n.tree
    decreases n.repr, 0
  {
    var kids, below := DeepCopyAll(n.content, n.repr - {n});
    c := new Node(n.kind, n.tag, n.value, n.note, kids, below);
  }

  method DeepCopyAll(s: seq<Node>, ghost r: set<Node>) returns (kids: seq<Node>, ghost below: set<Node>)
    requires Forest(s, r)
    ensures Forest(kids, below) && fresh(below) && Trees(kids) == Trees(s)
    decreases r, 1
  {
    hide Forest;
    kids, below := [], {};
    NoTrees();
    for i := 0 to |s|
      invariant Forest(kids, below) && fresh(below) && Trees(kids) == Trees(s[..i])
    {
      Member(s, r, i);
      var c := DeepCopyNode(s[i]);
      ForestGrows(kids, below, c);
      kids, below := kids + [c], below + c.repr;
    }
    assert s[..|s|] == s;
  }

  lemma NoTrees()
    ensures Forest([], {})
  {
  }

  /** Replaces all but the note. */
  method CopyNodeShallow(dst: Node, src: Node)
    requires dst.Valid() && src.Valid() && dst.repr !! src.repr
    modifies dst
    ensures dst.Valid() && fresh(dst.repr - {dst})
    ensures dst.tree == CopyShallow(old(dst.tree), src.tree)
  {
    hide Forest;
    ghost var copied := src.tree;
    var kids, below := DeepCopyAll(src.content, src.repr - {src});
    dst.kind, dst.tag, dst.value, dst.content := src.kind, src.tag, src.value, kids;
    assert Trees(dst.content) == copied.kids;
    dst.Settle(below);
  }

  // ---------- known defaults ----------

  method IsZeroValueNode(n: Node) returns (zero: bool)
    requires n.Valid()
    ensures zero == IsZero(n.tree) && (zero <==> YamlReading.Vacant(None, n.tree))
    decreases n.repr
  {
    YamlReading.ZeroIsVacant(n.tree);
    if n.kind == Scalar {
      if n.tag == "!!bool" { return n.value == "false"; }
      if n.tag == "!!int" || n.tag == "!!float" { return n.value == "0" || n.value == "0.0"; }
      if n.tag == "!!str" { return n.value == ""; }
      return n.tag == "!!null";
    }
    if n.kind != Sequence && n.kind != Mapping { return false; }
    var step, i := if n.kind == Sequence then 1 else 2, if n.kind == Sequence then 0 else 1;
    while i < |n.content|
      invariant i >= 0
      invariant AllZero(n.tree.kids, step, i) == IsZero(n.tree)
    {
      var z := IsZeroValueNode(n.content[i]);
      if !z { return false; }
      i := i + step;
    }
    return true;
  }

  method IsKnownDefaultValue(path: seq<string>, n: Node) returns (known: bool)
    requires n.Valid()
    ensures known == IsKnownDefault(path, n.tree)
  {
    var zero := IsZeroValueNode(n);
    if zero { return true; }
    if path == [] { return false; }
    var full := JoinPath(path);
    if n.kind == Scalar && n.tag == "!!str" {
      if full == "pprof.addr" { return n.value == PPROF_ADDR; }
      if full == "remote-management.panel-github-repository" { return n.value == PANEL_REPOSITORY; }
      if full == "routing.strategy" { return n.value == "round-robin"; }
    }
    if n.kind == Scalar && n.tag == "!!int" {
      if full == "error-logs-max-files" { return n.value == "10"; }
    }
    return false;
  }

  method PruneKnownDefaultsInNewNode(path: seq<string>, n: Node)
    requires n.Valid()
    modifies n.repr
    ensures n.Valid() && n.repr == old(n.repr)
    ensures n.tree == Prune(path, old(n.tree))
    decreases n.repr, 1
  {
    if n.kind == Mapping {
      PruneMapping(path, n);
    } else if n.kind == Sequence {
      PruneSequence(path, n);
    }
  }

  /** Prunes one tree of a forest; the others stay. */
  method PruneAt(path: seq<string>, s: seq<Node>, ghost below: set<Node>, at: nat)
    requires Forest(s, below) && at < |s|
    modifies s[at].repr
    ensures Forest(s, below) && s[at].repr == old(s[at].repr)
    ensures s[at].tree == Prune(path, old(s[at].tree))
    ensures forall i :: 0 <= i < |s| && i != at ==> s[i].tree == old(s[i].tree)
    decreases s[at].repr, 2
  {
    PruneKnownDefaultsInNewNode(path, s[at]);
    forall i | 0 <= i < |s| && i != at
      ensures s[i].repr == old(s[i].repr) && s[i].tree == old(s[i].tree) && s[i].Valid()
    {
      assert s[i] in old(s[i].repr) && old(s[i].repr) !! old(s[at].repr);
    }
  }

  lemma PairsStep(path: seq<string>, kids: seq<Tree>, i: nat)
    ensures i < |kids| < i + 2 ==> PrunePairs(path, kids[i..]) == []
    ensures i == |kids| ==> PrunePairs(path, kids[i..]) == []
    ensures i + 1 < |kids| ==>
      var child := path + [kids[i].value];
      PrunePairs(path, kids[i..]) ==
        (if Dropped(child, kids[i + 1]) then [] else [kids[i], Prune(child, kids[i + 1])])
          + PrunePairs(path, kids[i + 2..])
  {
    if i + 1 < |kids| { assert kids[i..][2..] == kids[i + 2..]; }
  }

  /** Prunes the value at an index, or finds that its pair goes. */
  method PruneValue(path: seq<string>, s: seq<Node>, ghost below: set<Node>, at: nat) returns (drop: bool)
    requires Forest(s, below) && at < |s|
    modifies s[at].repr
    ensures Forest(s, below) && s[at].repr == old(s[at].repr)
    ensures drop == Dropped(path, old(s[at].tree))
    ensures !drop ==> s[at].tree == Prune(path, old(s[at].tree))
    ensures forall i :: 0 <= i < |s| && i != at ==> s[i].tree == old(s[i].tree)
    decreases s[at].repr, 3
  {
    hide IsKnownDefault, Prune;
    var known := IsKnownDefaultValue(path, s[at]);
    if known { return true; }
    PruneAt(path, s, below, at);
    assert s[at].Valid();
    return (s[at].kind == Mapping || s[at].kind == Sequence) && |s[at].content| == 0;
  }

  method PruneMapping(path: seq<string>, n: Node)
    requires n.Valid() && n.kind == Mapping
    modifies n.repr
    ensures n.Valid() && n.repr == old(n.repr)
    ensures n.tree == Prune(path, old(n.tree))
    decreases n.repr, 0
  {
    hide PrunePairs;
    var filtered := FilterPairs(path, n.content, n.repr - {n});
    n.Refill(filtered, n.repr - {n});
  }

  /** The keys and pruned values that stay. */
  method FilterPairs(path: seq<string>, s: seq<Node>, ghost below: set<Node>) returns (filtered: seq<Node>)
    requires Forest(s, below)
    modifies below
    ensures Forest(filtered, below) && Trees(filtered) == PrunePairs(path, old(Trees(s)))
    decreases below, 4
  {
    hide Forest, PrunePairs, Dropped, Prune;
    ghost var kids := Trees(s);
    filtered := [];
    ghost var picks: seq<int> := [];
    var i := 0;
    while i + 1 < |s|
      invariant 0 <= i <= |s| && Forest(s, below)
      invariant forall k :: i <= k < |s| ==> s[k].tree == kids[k]
      invariant IsPick(s, filtered, picks, i)
      invariant Trees(filtered) + PrunePairs(path, kids[i..]) == PrunePairs(path, kids)
    {
      Member(s, below, i);
      Member(s, below, i + 1);
      PairsStep(path, kids, i);
      ghost var done := Trees(filtered);
      var drop := PruneValue(path + [s[i].value], s, below, i + 1);
      assert Trees(filtered) == done;
      if !drop {
        filtered, picks := filtered + [s[i], s[i + 1]], picks + [i, i + 1];
        assert Trees(filtered) == done + [kids[i], Prune(path + [kids[i].value], kids[i + 1])];
      }
      i := i + 2;
    }
    PairsStep(path, kids, i);
    PickIsForest(s, below, filtered, picks, i);
  }

  method PruneSequence(path: seq<string>, n: Node)
    requires n.Valid() && n.kind == Sequence
    modifies n.repr
    ensures n.Valid() && n.repr == old(n.repr)
    ensures n.tree == Prune(path, old(n.tree))
    decreases n.repr, 0
  {
    hide PruneAll;
    PruneEach(path, n.content, n.repr - {n});
    n.Settle(n.repr - {n});
  }

  method PruneEach(path: seq<string>, s: seq<Node>, ghost below: set<Node>)
    requires Forest(s, below)
    modifies below
    ensures Forest(s, below) && Trees(s) == PruneAll(path, old(Trees(s)))
    decreases below, 4
  {
    hide Forest, Prune, PruneAll;
    ghost var kids := Trees(s);
    for i := 0 to |s|
      invariant Forest(s, below)
      invariant forall k :: i <= k < |s| ==> s[k].tree == kids[k]
      invariant Trees(s)[..i] + PruneAll(path, kids[i..]) == PruneAll(path, kids)
    {
      ghost var done := Trees(s)[..i];
      Member(s, below, i);
      PruneAllStep(path, kids, i);
      PruneAt(path, s, below, i);
      assert Trees(s)[..i + 1] == done + [Prune(path, kids[i])];
    }
    PruneAllStep(path, kids, |s|);
  }

  lemma PruneAllStep(path: seq<string>, kids: seq<Tree>, i: nat)
    requires i <= |kids|
    ensures PruneAll(path, kids[i..]) == if i == |kids| then []
      else [Prune(path, kids[i])] + PruneAll(path, kids[i + 1..])
  {
    hide Prune;
    if i < |kids| { assert kids[i..][1..] == kids[i + 1..]; }
  }
}
