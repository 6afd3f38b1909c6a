/** By what the elements of two sequences are recognised: the name an element gives itself, and its shape. */
module YamlLikeness {
  import opened Strings
  import opened YamlMerge

  // ---------- shape ----------

  /** What is left of a tree without tags and notes, its scalars trimmed; a last key without a value does not count. */
  datatype Shape = Leaf(kind: Kind, text: string) | Branch(kind: Kind, size: nat, kids: seq<Shape>)

  function ShapeOf(t: Tree): Shape
    decreases t, 1
  {
    if t.kind == Mapping then Branch(Mapping, |t.kids|, ShapesOf(t.kids)[..|t.kids| / 2 * 2])
    else if t.kind == Sequence then Branch(Sequence, |t.kids|, ShapesOf(t.kids))
    else Leaf(t.kind, TrimSpace(t.value))
  }

  function ShapesOf(kids: seq<Tree>): (r: seq<Shape>)
    ensures |r| == |kids|
    decreases kids, 0
  {
    if kids == [] then [] else [ShapeOf(kids[0])] + ShapesOf(kids[1..])
  }

  lemma {:induction false} ShapesAt(kids: seq<Tree>, i: nat)
    requires i < |kids|
    ensures ShapesOf(kids)[i] == ShapeOf(kids[i])
    decreases i
  {
    if i > 0 { ShapesAt(kids[1..], i - 1); }
  }

  /** Two trees match by shape exactly when their shapes are equal; so matching is an equivalence. */
  lemma {:induction false} AlikeIsSameShape(a: Tree, b: Tree)
    ensures Alike(a, b) <==> ShapeOf(a) == ShapeOf(b)
    decreases a
  {
    if a.kind == b.kind && (a.kind == Mapping || a.kind == Sequence) && |a.kids| == |b.kids| {
      hide TrimSpace;
      var n := if a.kind == Mapping then |a.kids| / 2 * 2 else |a.kids|;
      var x, y := ShapesOf(a.kids)[..n], ShapesOf(b.kids)[..n];
      forall i | 0 <= i < n
        ensures x[i] == y[i] <==> Alike(a.kids[i], b.kids[i])
      {
        ShapesAt(a.kids, i);
        ShapesAt(b.kids, i);
        AlikeIsSameShape(a.kids[i], b.kids[i]);
      }
      assert x == y <==> forall i :: 0 <= i < n ==> x[i] == y[i];
      assert a.kind == Sequence ==> x == ShapesOf(a.kids) && y == ShapesOf(b.kids);
    }
  }

  // ---------- name ----------

  /** Pair j is the first with a scalar under that key, compared trimmed and without regard to case. */
  ghost predicate FirstUnder(kids: seq<Tree>, key: string, j: nat)
  {
    IsUnder(kids, key, j) && forall k: nat :: k < j ==> !IsUnder(kids, key, k)
  }

  predicate IsUnder(kids: seq<Tree>, key: string, j: nat)
  {
    j % 2 == 0 && j + 1 < |kids| && kids[j + 1].kind == Scalar && EqualFold(TrimSpace(kids[j].value), key)
  }

  lemma {:induction false} ScalarUnderIs(kids: seq<Tree>, key: string, j: nat)
    ensures FirstUnder(kids, key, j) ==> ScalarUnder(kids, key) == TrimSpace(kids[j + 1].value)
    ensures ScalarUnder(kids, key) != "" ==> exists k :: FirstUnder(kids, key, k)
    decreases |kids|
  {
    hide TrimSpace, ToLower;
    if |kids| >= 2 {
      if IsUnder(kids, key, 0) {
        assert FirstUnder(kids, key, 0);
      } else {
        var rest := kids[2..];
        forall k: nat ensures IsUnder(rest, key, k) <==> IsUnder(kids, key, k + 2) {
          if k + 1 < |rest| { assert rest[k] == kids[k + 2] && rest[k + 1] == kids[k + 3]; }
        }
        if FirstUnder(kids, key, j) {
          assert j >= 2;
          forall k: nat | k < j - 2 ensures !IsUnder(rest, key, k) { assert !IsUnder(kids, key, k + 2); }
          assert FirstUnder(rest, key, j - 2);
        }
        ScalarUnderIs(rest, key, if j >= 2 then j - 2 else 0);
        if ScalarUnder(kids, key) != "" {
          var k: nat :| FirstUnder(rest, key, k);
          forall x: nat | x < k + 2 ensures !IsUnder(kids, key, x) {
            if x >= 2 { assert !IsUnder(rest, key, x - 2); }
          }
          assert FirstUnder(kids, key, k + 2);
        }
      }
    }
  }

  lemma {:induction false} FirstNamedIs(kids: seq<Tree>, names: seq<string>, i: nat)
    requires i < |names| && ScalarUnder(kids, names[i]) != ""
    requires forall k :: 0 <= k < i ==> ScalarUnder(kids, names[k]) == ""
    ensures FirstNamed(kids, names) == names[i] + "=" + ScalarUnder(kids, names[i])
    decreases i
  {
    hide ScalarUnder;
    if i > 0 {
      assert forall k :: 0 <= k < i - 1 ==> names[1..][k] == names[k + 1];
      FirstNamedIs(kids, names[1..], i - 1);
    }
  }

  lemma {:induction false} NoneNamed(kids: seq<Tree>, names: seq<string>)
    requires forall k :: 0 <= k < |names| ==> ScalarUnder(kids, names[k]) == ""
    ensures FirstNamed(kids, names) == ""
  {
    hide ScalarUnder;
    if names != [] {
      assert forall k :: 0 <= k < |names| - 1 ==> names[1..][k] == names[k + 1];
      NoneNamed(kids, names[1..]);
    }
  }

  ghost predicate Nameless(kids: seq<Tree>)
  {
    forall k :: 0 <= k < |IDENTITY_KEYS| ==> ScalarUnder(kids, IDENTITY_KEYS[k]) == ""
  }

  /** The text under the most preferred identity key that has one names the element. */
  lemma IdentityByKey(t: Tree, i: nat)
    requires t.kind == Mapping && i < |IDENTITY_KEYS| && ScalarUnder(t.kids, IDENTITY_KEYS[i]) != ""
    requires forall k :: 0 <= k < i ==> ScalarUnder(t.kids, IDENTITY_KEYS[k]) == ""
    ensures Identity(t) == IDENTITY_KEYS[i] + "=" + ScalarUnder(t.kids, IDENTITY_KEYS[i])
  {
    hide ScalarUnder;
    FirstNamedIs(t.kids, IDENTITY_KEYS, i);
    assert |Identity(t)| >= 1;
  }

  predicate IsText(kids: seq<Tree>, j: nat)
  {
    j % 2 == 0 && j + 1 < |kids| && kids[j + 1].kind == Scalar && TrimSpace(kids[j + 1].value) != ""
  }

  lemma {:induction false} FirstScalarIs(kids: seq<Tree>, j: nat)
    requires forall k: nat :: k < j ==> !IsText(kids, k)
    ensures IsText(kids, j) ==>
      FirstScalar(kids) == ToLower(TrimSpace(kids[j].value)) + "=" + TrimSpace(kids[j + 1].value)
    ensures j >= |kids| ==> FirstScalar(kids) == ""
    decreases |kids|
  {
    hide TrimSpace, ToLower;
    if |kids| >= 2 && !IsText(kids, 0) && (IsText(kids, j) || j >= |kids|) {
      var rest := kids[2..];
      forall k: nat ensures IsText(rest, k) <==> IsText(kids, k + 2) {
        if k + 1 < |rest| { assert rest[k] == kids[k + 2] && rest[k + 1] == kids[k + 3]; }
      }
      assert j >= 2;
      forall k: nat | k < j - 2 ensures !IsText(rest, k) { assert !IsText(kids, k + 2); }
      FirstScalarIs(rest, j - 2);
    } else if |kids| >= 2 && IsText(kids, 0) {
      assert j == 0;
    }
  }

  /** An element without such a key is named by its first scalar that is not blank, with its key in lower case; and an
      element without one by nothing. */
  lemma IdentityByScalar(t: Tree, j: nat)
    requires t.kind == Mapping && Nameless(t.kids) && forall k: nat :: k < j ==> !IsText(t.kids, k)
    ensures IsText(t.kids, j) ==>
      Identity(t) == ToLower(TrimSpace(t.kids[j].value)) + "=" + TrimSpace(t.kids[j + 1].value)
    ensures j >= |t.kids| ==> Identity(t) == ""
  {
    hide TrimSpace, ToLower, ScalarUnder;
    NoneNamed(t.kids, IDENTITY_KEYS);
    FirstScalarIs(t.kids, j);
  }
}
