/** The comment-preserving merge of one YAML tree into another, as a function of the two trees. */
module YamlMerge {
  import opened Strings

  datatype Kind = Unknown | Document | Sequence | Mapping | Scalar

  /** A node by value. `note` stands for style, position, anchor and comments, which a merge leaves where they are.
      A mapping's kids are its keys and values by turns. */
  datatype Tree = Tree(kind: Kind, tag: string, value: string, note: string, kids: seq<Tree>)

  const PPROF_ADDR := "127.0.0.1:8316"
  const PANEL_REPOSITORY := "https://github.com/" + "router-for-me/Cli-Proxy-API-Management-Center"

  // ---------- keys of a mapping ----------

  /** The index of the first key with that text, or -1. */
  function FindKey(kids: seq<Tree>, key: string): (i: int)
    ensures -1 <= i && (i >= 0 ==> i % 2 == 0 && i + 1 < |kids| && kids[i].value == key)
    ensures forall j :: 0 <= j && j % 2 == 0 && j + 1 < |kids| && (i < 0 || j < i) ==> kids[j].value != key
  {
    FindKeyFrom(kids, key, 0)
  }

  function FindKeyFrom(kids: seq<Tree>, key: string, from: nat): (i: int)
    requires from % 2 == 0
    requires forall j :: 0 <= j < from && j % 2 == 0 && j + 1 < |kids| ==> kids[j].value != key
    ensures -1 <= i && (i >= 0 ==> i % 2 == 0 && i + 1 < |kids| && kids[i].value == key)
    ensures forall j :: 0 <= j && j % 2 == 0 && j + 1 < |kids| && (i < 0 || j < i) ==> kids[j].value != key
    decreases |kids| - from
  {
    if from + 1 >= |kids| then -1
    else if kids[from].value == key then from
    else FindKeyFrom(kids, key, from + 2)
  }

  // ---------- known defaults ----------

  predicate AllZero(kids: seq<Tree>, step: nat, from: nat)
    requires step > 0
    decreases kids, |kids| - from
  {
    from >= |kids| || (IsZero(kids[from]) && AllZero(kids, step, from + step))
  }

  predicate IsZero(t: Tree)
    decreases t
  {
    match t.kind
    case Scalar =>
      if t.tag == "!!bool" then t.value == "false"
      else if t.tag == "!!int" || t.tag == "!!float" then t.value == "0" || t.value == "0.0"
      else if t.tag == "!!str" then t.value == ""
      else t.tag == "!!null"
    case Sequence => AllZero(t.kids, 1, 0)
    case Mapping => AllZero(t.kids, 2, 1)
    case _ => false
  }

  function JoinPath(path: seq<string>): string
  {
    if path == [] then "" else if |path| == 1 then path[0] else path[0] + "." + JoinPath(path[1..])
  }

  /** The defaults that are not zero, each at its own path. */
  predicate IsNamedDefault(path: seq<string>, t: Tree)
  {
    var full := JoinPath(path);
    path != [] && t.kind == Scalar &&
    (if t.tag == "!!str" then
       if full == "pprof.addr" then t.value == PPROF_ADDR
       else if full == "remote-management.panel-github-repository" then t.value == PANEL_REPOSITORY
       else full == "routing.strategy" && t.value == "round-robin"
     else t.tag == "!!int" && full == "error-logs-max-files" && t.value == "10")
  }

  predicate IsKnownDefault(path: seq<string>, t: Tree)
  {
    IsZero(t) || IsNamedDefault(path, t)
  }

  predicate IsEmptyCollection(t: Tree)
  {
    (t.kind == Mapping || t.kind == Sequence) && t.kids == []
  }

  /** A tree without its default-valued descendants. */
  function Prune(path: seq<string>, t: Tree): Tree
    decreases t, 1
  {
    match t.kind
    case Mapping => t.(kids := PrunePairs(path, t.kids))
    case Sequence => t.(kids := PruneAll(path, t.kids))
    case _ => t
  }

  function PrunePairs(path: seq<string>, kids: seq<Tree>): seq<Tree>
    decreases kids, 0
  {
    if |kids| < 2 then []
    else
      var child := path + [kids[0].value];
      var rest := PrunePairs(path, kids[2..]);
      if Dropped(child, kids[1]) then rest
      else [kids[0], Prune(child, kids[1])] + rest
  }

  /** Is the value, with its key, left out of a pruned mapping? */
  predicate Dropped(path: seq<string>, t: Tree)
    decreases t, 2
  {
    IsKnownDefault(path, t) || IsEmptyCollection(Prune(path, t))
  }

  function PruneAll(path: seq<string>, kids: seq<Tree>): (r: seq<Tree>)
    ensures |r| == |kids|
    decreases kids, 0
  {
    if kids == [] then [] else [Prune(path, kids[0])] + PruneAll(path, kids[1..])
  }

  // ---------- sequence elements ----------

  /** The trimmed text of the scalar under a key, keys compared trimmed and in lower case. */
  function ScalarUnder(kids: seq<Tree>, key: string): string
  {
    if |kids| < 2 then ""
    else if kids[1].kind == Scalar && ToLower(TrimSpace(kids[0].value)) == ToLower(key) then TrimSpace(kids[1].value)
    else ScalarUnder(kids[2..], key)
  }

  function FirstNamed(kids: seq<Tree>, names: seq<string>): string
  {
    if names == [] then ""
    else if ScalarUnder(kids, names[0]) != "" then names[0] + "=" + ScalarUnder(kids, names[0])
    else FirstNamed(kids, names[1..])
  }

  function FirstScalar(kids: seq<Tree>): string
  {
    if |kids| < 2 then ""
    else if kids[1].kind == Scalar && TrimSpace(kids[1].value) != "" then
      ToLower(TrimSpace(kids[0].value)) + "=" + TrimSpace(kids[1].value)
    else FirstScalar(kids[2..])
  }

  const IDENTITY_KEYS: seq<string> :=
    ["id", "name", "alias", "api-key", "api_key", "apikey", "key", "provider", "model"]

  function Identity(t: Tree): string
  {
    if t.kind != Mapping then ""
    else if FirstNamed(t.kids, IDENTITY_KEYS) != "" then FirstNamed(t.kids, IDENTITY_KEYS)
    else FirstScalar(t.kids)
  }

  predicate Alike(a: Tree, b: Tree)
    decreases a
  {
    a.kind == b.kind &&
    (if a.kind == Mapping || a.kind == Sequence then
       |a.kids| == |b.kids| && forall i :: 0 <= i < |a.kids| && (a.kind == Mapping ==> i < |a.kids| / 2 * 2) ==>
         Alike(a.kids[i], b.kids[i])
     else TrimSpace(a.value) == TrimSpace(b.value))
  }

  /** The first choice of a target: by identity for a mapping, by text for a scalar. */
  predicate NameMatch(t: Tree, target: Tree)
  {
    || (target.kind == Mapping && t.kind == Mapping && Identity(target) != "" && Identity(t) == Identity(target))
    || (target.kind == Scalar && t.kind == Scalar && TrimSpace(target.value) != ""
      && TrimSpace(t.value) == TrimSpace(target.value))
  }

  function FirstFree(original: seq<Tree>, used: set<int>, matches: Tree -> bool, from: nat): (i: int)
    ensures -1 <= i < |original| && (i >= 0 ==> i !in used && matches(original[i]))
    ensures forall j :: from <= j < (if i < 0 then |original| else i) ==> j in used || !matches(original[j])
    decreases |original| - from
  {
    if from >= |original| then -1
    else if from !in used && matches(original[from]) then from
    else FirstFree(original, used, matches, from + 1)
  }

  function MatchElement(original: seq<Tree>, used: set<int>, target: Tree): (i: int)
    ensures -1 <= i < |original| && (i >= 0 ==> i !in used)
    ensures i >= 0 ==> NameMatch(original[i], target) || Alike(original[i], target)
  {
    var byName := FirstFree(original, used, t => NameMatch(t, target), 0);
    if byName >= 0 then byName else FirstFree(original, used, t => Alike(t, target), 0)
  }

  /** For each target in turn the index of the original it takes over, or -1. */
  function Plan(original: seq<Tree>, used: set<int>, targets: seq<Tree>): (r: seq<int>)
    ensures |r| == |targets|
    ensures forall i :: 0 <= i < |r| ==> -1 <= r[i] < |original|
    decreases |targets|
  {
    if targets == [] then []
    else
      var i := MatchElement(original, used, targets[0]);
      [i] + Plan(original, if i >= 0 then used + {i} else used, targets[1..])
  }

  predicate Keeps(kids: seq<Tree>, key: string)
  {
    exists j :: 0 <= j && j % 2 == 0 && j + 1 < |kids| && TrimSpace(kids[j].value) != ""
      && TrimSpace(kids[j].value) == TrimSpace(key)
  }

  /** Only the pairs whose key the other mapping has, compared trimmed; a blank key is never kept. */
  function PruneMissing(kids: seq<Tree>, src: seq<Tree>): seq<Tree>
  {
    if |kids| < 2 then kids
    else (if Keeps(src, kids[0].value) then [kids[0], kids[1]] else []) + PruneMissing(kids[2..], src)
  }

  // ---------- the merge ----------

  /** Kind, tag, value and content of src; the note stays. */
  function CopyShallow(dst: Tree, src: Tree): Tree
  {
    Tree(src.kind, src.tag, src.value, dst.note, src.kids)
  }

  function MergeMapping(dst: Tree, src: Tree, path: seq<string>): Tree
    decreases src, 1
  {
    if dst.kind != Mapping || src.kind != Mapping then CopyShallow(dst, src)
    else dst.(kids := MergePairs(dst.kids, src.kids, path))
  }

  function MergePairs(kids: seq<Tree>, src: seq<Tree>, path: seq<string>): seq<Tree>
    decreases src, 0
  {
    if |src| < 2 then kids else MergePairs(MergePair(kids, src, path), src[2..], path)
  }

  /** The first pair of src: merged under an existing key, or added unless it is a known default. */
  function MergePair(kids: seq<Tree>, src: seq<Tree>, path: seq<string>): seq<Tree>
    requires |src| >= 2
    decreases src, 0, 0
  {
    var i, child := FindKey(kids, src[0].value), path + [src[0].value];
    if i >= 0 then kids[i + 1 := MergeNode(kids[i + 1], src[1], child)]
    else
      var candidate := Prune(child, src[1]);
      if IsKnownDefault(child, candidate) then kids else kids + [src[0], candidate]
  }

  function MergeNode(dst: Tree, src: Tree, path: seq<string>): Tree
    decreases src, 2
  {
    match src.kind
    case Mapping => MergeMapping(if dst.kind != Mapping then CopyShallow(dst, src) else dst, src, path)
    case Sequence =>
      if dst.kind == Scalar && dst.tag == "!!null" && src.kids == [] then dst
      else
        var d := if dst.kind != Sequence then dst.(kind := Sequence, tag := "!!seq", kids := []) else dst;
        d.(kids := MergeElements(d.kids, Plan(d.kids, {}, src.kids), src.kids, path))
    case Scalar => dst.(kind := src.kind, tag := src.tag, value := src.value)
    case Unknown => dst
    case Document => CopyShallow(dst, src)
  }

  /** Each element of src: merged into the original it takes over, or copied. */
  function MergeElements(original: seq<Tree>, plan: seq<int>, src: seq<Tree>, path: seq<string>): (r: seq<Tree>)
    requires |plan| == |src| && forall i :: 0 <= i < |plan| ==> -1 <= plan[i] < |original|
    ensures |r| == |src|
    decreases src, 0
  {
    if src == [] then []
    else [if plan[0] < 0 then src[0] else MergeElement(original[plan[0]], src[0], path)]
         + MergeElements(original, plan[1..], src[1..], path)
  }

  function MergeElement(dst: Tree, src: Tree, path: seq<string>): Tree
    decreases src, 3
  {
    var d := MergeNode(dst, src, path);
    if d.kind == Mapping && src.kind == Mapping then d.(kids := PruneMissing(d.kids, src.kids)) else d
  }
}
