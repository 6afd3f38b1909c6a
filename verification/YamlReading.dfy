/** What a program reads from a YAML tree: typed fields, and what a field stands for that is not written. */
module YamlReading {
  import opened Strings
  import opened YamlMerge
  import opened YamlCoverage

  // ---------- reading ----------

  /** A whole number in its usual spellings is read as one; every other spelling stands for itself. */
  datatype Value = Unset | Bool(b: bool) | Number(n: int) | Spelled(spelling: string) | Text(s: string)
                 | Items(items: seq<Value>) | Fields(fields: seq<Value>)
                 | Whole(tag: string, value: string, kids: seq<Tree>) | Other(tag: string, value: string) | Mismatch

  /** The fields whose absence is a state of its own: pointers, and the entries of maps. */
  type Optional = seq<string> -> bool

  const ELEMENT := "[]"

  function Digits(s: string): Option<int>
  {
    if s == "" || !('0' <= s[|s| - 1] <= '9') then None
    else
      var digit := s[|s| - 1] as int - '0' as int;
      if |s| == 1 then Some(digit)
      else
        var front := Digits(s[..|s| - 1]);
        if front.None? then None else Some(10 * front.value + digit)
  }

  function ReadNumber(s: string): Value
  {
    if Digits(s).Some? then Number(Digits(s).value)
    else if |s| > 2 && s[|s| - 2..] == ".0" && Digits(s[..|s| - 2]).Some? then Number(Digits(s[..|s| - 2]).value)
    else Spelled(s)
  }

  /** The text a field has that is absent or blank. */
  function DefaultText(at: seq<string>): string
  {
    if at == ["pprof", "addr"] then PPROF_ADDR
    else if at == ["remote-management", "panel-github-repository"] then PANEL_REPOSITORY
    else if at == ["routing", "strategy"] then "round-robin"
    else ""
  }

  function DefaultNumber(at: seq<string>): int
  {
    if at == ["error-logs-max-files"] then 10 else 0
  }

  function ReadText(s: string, at: seq<string>): Value
  {
    Text(if DefaultText(at) == "" then s else if TrimSpace(s) == "" then DefaultText(at) else TrimSpace(s))
  }

  function ReadScalar(tag: string, value: string, at: seq<string>): Value
  {
    if tag == "!!bool" then Bool(ToLower(value) == "true")
    else if tag == "!!int" || tag == "!!float" then ReadNumber(value)
    else if tag == "!!str" then ReadText(value, at)
    else Other(tag, value)
  }

  /** What is read of a scalar field that is not there: the zero of its type, or the default at its path. */
  function AbsentScalar(tag: string, at: seq<string>): Value
  {
    if tag == "!!bool" then Bool(false)
    else if tag == "!!int" || tag == "!!float" then Number(DefaultNumber(at))
    else if tag == "!!str" then Text(DefaultText(at))
    else Unset
  }

  /** Null says as little as absence. */
  predicate Absent(t: Option<Tree>)
  {
    t.None? || (t.value.kind == Scalar && t.value.tag == "!!null")
  }

  /** What t says at a path about the fields, lists and scalars of which `form` is made. */
  function Load(optional: Optional, t: Option<Tree>, form: Tree, at: seq<string>): Value
    decreases form, 1
  {
    match form.kind
    case Unknown => Unset
    case Document =>
      if t.Some? && t.value.kind == Document then Whole(t.value.tag, t.value.value, t.value.kids) else Mismatch
    case Scalar =>
      if Absent(t) then (if optional(at) then Unset else AbsentScalar(form.tag, at))
      else if t.value.kind == Scalar then ReadScalar(t.value.tag, t.value.value, at) else Mismatch
    case Mapping =>
      if Absent(t) then (if optional(at) then Unset else Fields(LoadPairs(optional, [], form.kids, at)))
      else if t.value.kind == Mapping then Fields(LoadPairs(optional, t.value.kids, form.kids, at)) else Mismatch
    case Sequence =>
      if Absent(t) then (if optional(at) then Unset else Items([]))
      else if t.value.kind == Sequence then Items(LoadAll(optional, t.value.kids, form.kids, at)) else Mismatch
  }

  /** One value for each field of the form. */
  function LoadPairs(optional: Optional, kids: seq<Tree>, form: seq<Tree>, at: seq<string>): seq<Value>
    decreases form, 0
  {
    if |form| < 2 then []
    else [Load(optional, Lookup(kids, form[0].value), form[1], at + [form[0].value])]
         + LoadPairs(optional, kids, form[2..], at)
  }

  /** One value for each element of the list. */
  function LoadAll(optional: Optional, kids: seq<Tree>, form: seq<Tree>, at: seq<string>): (r: seq<Value>)
    ensures |r| == |kids|
    decreases form, 0, |kids|
  {
    if kids == [] then []
    else if form == [] then [Mismatch] + LoadAll(optional, kids[1..], form, at)
    else [Load(optional, Some(kids[0]), form[0], at + [ELEMENT])] + LoadAll(optional, kids[1..], form[1..], at)
  }

  /** The fields of a mapping are read alike exactly when each is. */
  lemma {:induction false} SamePairs(optional: Optional, a: seq<Tree>, b: seq<Tree>, form: seq<Tree>, at: seq<string>)
    ensures LoadPairs(optional, a, form, at) == LoadPairs(optional, b, form, at) <==>
      forall j :: 0 <= j && j % 2 == 0 && j + 1 < |form| ==> SamePair(optional, a, b, form, at, j)
    decreases |form|
  {
    hide Load;
    if |form| >= 2 {
      var rest := form[2..];
      SamePairs(optional, a, b, rest, at);
      var x, y := LoadPairs(optional, a, form, at), LoadPairs(optional, b, form, at);
      assert x[1..] == LoadPairs(optional, a, rest, at) && y[1..] == LoadPairs(optional, b, rest, at);
      assert x == y <==> x[0] == y[0] && x[1..] == y[1..] by { assert x == [x[0]] + x[1..] && y == [y[0]] + y[1..]; }
      assert x[0] == y[0] <==> SamePair(optional, a, b, form, at, 0);
      forall j | 0 <= j && j % 2 == 0 && j + 1 < |rest|
        ensures SamePair(optional, a, b, rest, at, j) <==> SamePair(optional, a, b, form, at, j + 2)
      {
        assert rest[j] == form[j + 2] && rest[j + 1] == form[j + 3];
      }
      if forall j :: 0 <= j && j % 2 == 0 && j + 1 < |form| ==> SamePair(optional, a, b, form, at, j) {
        forall j | 0 <= j && j % 2 == 0 && j + 1 < |rest| ensures SamePair(optional, a, b, rest, at, j) {
          assert SamePair(optional, a, b, form, at, j + 2);
        }
      }
      if x == y {
        forall j | 0 <= j && j % 2 == 0 && j + 1 < |form| ensures SamePair(optional, a, b, form, at, j) {
          if j > 0 { assert SamePair(optional, a, b, rest, at, j - 2); }
        }
      }
    }
  }

  ghost predicate SamePair(optional: Optional, a: seq<Tree>, b: seq<Tree>, form: seq<Tree>, at: seq<string>, j: nat)
    requires j + 1 < |form|
  {
    var key, v := form[j].value, form[j + 1];
    Load(optional, Lookup(a, key), v, at + [key]) == Load(optional, Lookup(b, key), v, at + [key])
  }

  lemma {:induction false} LoadAllAt(optional: Optional, kids: seq<Tree>, form: seq<Tree>, at: seq<string>, i: nat)
    requires |kids| == |form| && i < |form|
    ensures LoadAll(optional, kids, form, at)[i] == Load(optional, Some(kids[i]), form[i], at + [ELEMENT])
    decreases |form|
  {
    if i > 0 { LoadAllAt(optional, kids[1..], form[1..], at, i - 1); }
  }

  ghost predicate SameElement(optional: Optional, a: seq<Tree>, b: seq<Tree>, at: seq<string>, i: nat)
    requires i < |a| && i < |b|
  {
    Load(optional, Some(a[i]), b[i], at + [ELEMENT]) == Load(optional, Some(b[i]), b[i], at + [ELEMENT])
  }

  /** A list is read as the form itself exactly when each element is. */
  lemma SameAll(optional: Optional, a: seq<Tree>, form: seq<Tree>, at: seq<string>)
    requires |a| == |form|
    ensures LoadAll(optional, a, form, at) == LoadAll(optional, form, form, at) <==>
      forall i :: 0 <= i < |form| ==> SameElement(optional, a, form, at, i)
  {
    hide Load;
    var x, y := LoadAll(optional, a, form, at), LoadAll(optional, form, form, at);
    forall i | 0 <= i < |form|
      ensures x[i] == y[i] <==> SameElement(optional, a, form, at, i)
    {
      LoadAllAt(optional, a, form, at, i);
      LoadAllAt(optional, form, form, at, i);
    }
    if forall i :: 0 <= i < |form| ==> SameElement(optional, a, form, at, i) {
      assert forall i :: 0 <= i < |form| ==> x[i] == y[i];
      assert x == y;
    }
  }

  // ---------- what absence can say ----------

  /** The value reads the same when it is not there at all. */
  ghost predicate Silent(optional: Optional, t: Tree, at: seq<string>)
    decreases t
  {
    match t.kind
    case Unknown => true
    case Document => false
    case Scalar => t.tag == "!!null" || (!optional(at) && ReadScalar(t.tag, t.value, at) == AbsentScalar(t.tag, at))
    case Sequence => !optional(at) && t.kids == []
    case Mapping =>
      !optional(at) && forall j :: 0 <= j && j % 2 == 0 && j + 1 < |t.kids| ==>
        Silent(optional, t.kids[j + 1], at + [t.kids[j].value])
  }

  lemma {:induction false} SilentReads(optional: Optional, t: Tree, at: seq<string>)
    requires WellFormed(t)
    ensures Silent(optional, t, at) <==> Load(optional, None, t, at) == Load(optional, Some(t), t, at)
    decreases t
  {
    match t.kind
    case Mapping =>
      hide ReadScalar, AbsentScalar;
      SamePairs(optional, [], t.kids, t.kids, at);
      forall j | 0 <= j && j % 2 == 0 && j + 1 < |t.kids|
        ensures SamePair(optional, [], t.kids, t.kids, at, j) <==>
          Silent(optional, t.kids[j + 1], at + [t.kids[j].value])
      {
        LookupAt(t.kids, j);
        SilentReads(optional, t.kids[j + 1], at + [t.kids[j].value]);
      }
    case _ =>
  }

  // ---------- what is left out ----------

  /** A zero as the encoder spells it. */
  predicate SpelledZero(t: Tree)
  {
    || t.tag == "!!null"
    || (t.tag == "!!bool" && t.value == "false")
    || (t.tag in {"!!int", "!!float"} && t.value in {"0", "0.0"})
    || (t.tag == "!!str" && t.value == "")
  }

  /** The two ways to spell a path of two keys that a dotted comparison cannot tell apart. */
  predicate Dotted(path: seq<string>, a: string, b: string)
  {
    path == [a, b] || path == [a + "." + b]
  }

  predicate OwnDefault(path: seq<string>, t: Tree)
  {
    && t.kind == Scalar
    && (|| (t.tag == "!!str" && t.value == PPROF_ADDR && Dotted(path, "pprof", "addr"))
        || (t.tag == "!!str" && t.value == PANEL_REPOSITORY
            && Dotted(path, "remote-management", "panel-github-repository"))
        || (t.tag == "!!str" && t.value == "round-robin" && Dotted(path, "routing", "strategy"))
        || (t.tag == "!!int" && t.value == "10" && path == ["error-logs-max-files"]))
  }

  function Under(p: Option<seq<string>>, key: string): Option<seq<string>>
  {
    if p.None? then None else Some(p.value + [key])
  }

  /** Every leaf is a spelled zero or, where there is a path, the default at its own path. */
  ghost predicate Vacant(p: Option<seq<string>>, t: Tree)
    decreases t
  {
    match t.kind
    case Scalar => SpelledZero(t)
    case Sequence => forall i :: 0 <= i < |t.kids| ==> Vacant(p, t.kids[i])
    case Mapping => forall j :: 0 <= j && j % 2 == 0 && j + 1 < |t.kids| ==> VacantPair(p, t.kids, j)
    case _ => false
  }

  ghost predicate VacantPair(p: Option<seq<string>>, kids: seq<Tree>, j: nat)
    requires j + 1 < |kids|
    decreases kids, 0
  {
    var child := Under(p, kids[j].value);
    Vacant(child, kids[j + 1]) || (child.Some? && OwnDefault(child.value, kids[j + 1]))
  }

  /** The pairs a pruned mapping goes without: defaults, zeros, and mappings of nothing else. */
  ghost predicate LeftOut(path: seq<string>, t: Tree)
    decreases t
  {
    || OwnDefault(path, t)
    || (if t.kind == Mapping then
          forall j :: 0 <= j && j % 2 == 0 && j + 1 < |t.kids| ==> LeftOut(path + [t.kids[j].value], t.kids[j + 1])
        else Vacant(None, t))
  }

  /** The keys that are not added. */
  ghost predicate NotAdded(path: seq<string>, t: Tree)
  {
    Vacant(Some(path), t) || OwnDefault(path, t)
  }

  // ---------- it is what the code leaves out ----------

  lemma {:induction false} AllZeroIff(kids: seq<Tree>, step: nat, from: nat)
    requires 1 <= step <= 2
    ensures AllZero(kids, step, from) <==>
      forall i :: from <= i < |kids| && i % step == from % step ==> IsZero(kids[i])
    decreases |kids| - from
  {
    hide IsZero;
    if from < |kids| { AllZeroIff(kids, step, from + step); }
  }

  /** A tree is zero exactly when each of its leaves is spelled as the zero of its tag. */
  lemma {:induction false} ZeroIsVacant(t: Tree)
    ensures IsZero(t) <==> Vacant(None, t)
    decreases t
  {
    forall i | 0 <= i < |t.kids| ensures IsZero(t.kids[i]) <==> Vacant(None, t.kids[i]) { ZeroIsVacant(t.kids[i]); }
    if t.kind == Mapping {
      AllZeroIff(t.kids, 2, 1);
      if Vacant(None, t) {
        forall i | 1 <= i < |t.kids| && i % 2 == 1 ensures IsZero(t.kids[i]) { assert VacantPair(None, t.kids, i - 1); }
      }
      if IsZero(t) {
        forall j | 0 <= j && j % 2 == 0 && j + 1 < |t.kids| ensures VacantPair(None, t.kids, j) {
          assert IsZero(t.kids[j + 1]);
        }
      }
    } else if t.kind == Sequence {
      AllZeroIff(t.kids, 1, 0);
    }
  }

  lemma JoinHead(path: seq<string>)
    requires |path| >= 2
    ensures JoinPath(path) == path[0] + "." + JoinPath(path[1..]) && JoinPath(path)[|path[0]|] == '.'
  {
  }

  lemma JoinTwo(path: seq<string>, a: string, b: string)
    requires '.' !in a && '.' !in b
    ensures JoinPath(path) == a + "." + b <==> Dotted(path, a, b)
  {
    var w := a + "." + b;
    assert forall i :: 0 <= i < |w| && w[i] == '.' ==> i == |a|;
    if JoinPath(path) == w && |path| >= 2 {
      JoinHead(path);
      var tail := JoinPath(path[1..]);
      assert path[0] == w[..|a|] == a && tail == w[|a| + 1..] == b;
      if |path| >= 3 {
        JoinHead(path[1..]);
        assert false;
      }
      assert path == [path[0], path[1]];
    }
    if JoinPath(path) == w && |path| == 1 { assert path == [path[0]]; }
  }

  lemma JoinOne(path: seq<string>, a: string)
    requires '.' !in a && a != ""
    ensures JoinPath(path) == a <==> path == [a]
  {
    if |path| >= 2 { JoinHead(path); } else if |path| == 1 { assert path == [path[0]]; }
  }

  lemma PprofAddr()
    ensures "pprof" + "." + "addr" == "pprof.addr" && '.' !in "pprof" && '.' !in "addr"
  {
  }

  lemma PanelRepository()
    ensures "remote-management" + "." + "panel-github-repository" == "remote-management.panel-github-repository"
  {
  }

  lemma PanelKeys()
    ensures '.' !in "remote-management" && '.' !in "panel-github-repository"
  {
  }

  lemma RoutingStrategy()
    ensures "routing" + "." + "strategy" == "routing.strategy" && '.' !in "routing" && '.' !in "strategy"
  {
  }

  lemma DottedTexts(path: seq<string>)
    ensures JoinPath(path) == "pprof.addr" <==> Dotted(path, "pprof", "addr")
    ensures JoinPath(path) == "remote-management.panel-github-repository" <==>
      Dotted(path, "remote-management", "panel-github-repository")
    ensures JoinPath(path) == "routing.strategy" <==> Dotted(path, "routing", "strategy")
  {
    hide JoinPath, Dotted;
    PprofAddr();
    JoinTwo(path, "pprof", "addr");
    PanelRepository();
    PanelKeys();
    JoinTwo(path, "remote-management", "panel-github-repository");
    RoutingStrategy();
    JoinTwo(path, "routing", "strategy");
  }

  /** The comparisons of dotted paths name four paths, three of them in two spellings. */
  lemma NamedIsOwn(path: seq<string>, t: Tree)
    ensures IsNamedDefault(path, t) <==> OwnDefault(path, t)
  {
    DottedTexts(path);
    JoinOne(path, "error-logs-max-files");
    JoinNone(path);
    hide JoinPath, Dotted;
  }

  lemma JoinNone(path: seq<string>)
    ensures path == [] ==> JoinPath(path) == ""
  {
  }

  ghost predicate ZeroPair(path: seq<string>, kids: seq<Tree>, j: nat)
    requires j + 1 < |kids|
  {
    var child := path + [kids[j].value];
    Dropped(child, kids[j + 1]) || IsZero(Prune(child, kids[j + 1]))
  }

  lemma {:induction false} PrunedPairsZero(path: seq<string>, kids: seq<Tree>)
    ensures AllZero(PrunePairs(path, kids), 2, 1) <==>
      forall j :: 0 <= j && j % 2 == 0 && j + 1 < |kids| ==> ZeroPair(path, kids, j)
    decreases |kids|
  {
    hide IsZero, Dropped, Prune;
    if |kids| >= 2 {
      var child, tail := path + [kids[0].value], kids[2..];
      var rest := PrunePairs(path, tail);
      PrunedPairsZero(path, tail);
      if !Dropped(child, kids[1]) {
        var pair := [kids[0], Prune(child, kids[1])];
        AllZeroShift(pair + rest, 2, 3, 2);
        assert (pair + rest)[2..] == rest;
      }
      assert AllZero(PrunePairs(path, kids), 2, 1) <==> ZeroPair(path, kids, 0) && AllZero(rest, 2, 1);
      forall j | 0 <= j && j % 2 == 0 && j + 1 < |tail|
        ensures ZeroPair(path, tail, j) <==> ZeroPair(path, kids, j + 2)
      {
        assert tail[j] == kids[j + 2] && tail[j + 1] == kids[j + 3];
      }
      if forall j :: 0 <= j && j % 2 == 0 && j + 1 < |tail| ==> ZeroPair(path, tail, j) {
        forall j | 2 <= j && j % 2 == 0 && j + 1 < |kids| ensures ZeroPair(path, kids, j) {
          assert ZeroPair(path, tail, j - 2);
        }
      }
    }
  }

  lemma {:induction false} PrunedPairsEmpty(path: seq<string>, kids: seq<Tree>)
    ensures PrunePairs(path, kids) == [] <==>
      forall j :: 0 <= j && j % 2 == 0 && j + 1 < |kids| ==> DroppedPair(path, kids, j)
    decreases |kids|
  {
    hide Dropped, Prune;
    if |kids| >= 2 {
      var tail := kids[2..];
      PrunedPairsEmpty(path, tail);
      assert PrunePairs(path, kids) == [] <==> DroppedPair(path, kids, 0) && PrunePairs(path, tail) == [];
      forall j | 0 <= j && j % 2 == 0 && j + 1 < |tail|
        ensures DroppedPair(path, tail, j) <==> DroppedPair(path, kids, j + 2)
      {
        assert tail[j] == kids[j + 2] && tail[j + 1] == kids[j + 3];
      }
      if forall j :: 0 <= j && j % 2 == 0 && j + 1 < |tail| ==> DroppedPair(path, tail, j) {
        forall j | 2 <= j && j % 2 == 0 && j + 1 < |kids| ensures DroppedPair(path, kids, j) {
          assert DroppedPair(path, tail, j - 2);
        }
      }
    }
  }

  ghost predicate DroppedPair(path: seq<string>, kids: seq<Tree>, j: nat)
    requires j + 1 < |kids|
  {
    Dropped(path + [kids[j].value], kids[j + 1])
  }

  lemma {:induction false} VacantAnywhere(p: Option<seq<string>>, t: Tree)
    requires Vacant(None, t)
    ensures Vacant(p, t)
    decreases t
  {
    if t.kind == Mapping {
      forall j | 0 <= j && j % 2 == 0 && j + 1 < |t.kids| ensures VacantPair(p, t.kids, j) {
        assert VacantPair(None, t.kids, j);
        VacantAnywhere(Under(p, t.kids[j].value), t.kids[j + 1]);
      }
    } else if t.kind == Sequence {
      forall i | 0 <= i < |t.kids| ensures Vacant(p, t.kids[i]) { VacantAnywhere(p, t.kids[i]); }
    }
  }

  lemma {:induction false} LeftOutIsVacant(path: seq<string>, t: Tree)
    requires LeftOut(path, t)
    ensures NotAdded(path, t)
    decreases t
  {
    hide OwnDefault, SpelledZero;
    if !OwnDefault(path, t) {
      if t.kind == Mapping {
        forall j | 0 <= j && j % 2 == 0 && j + 1 < |t.kids| ensures VacantPair(Some(path), t.kids, j) {
          var child := path + [t.kids[j].value];
          assert Under(Some(path), t.kids[j].value) == Some(child) && LeftOut(child, t.kids[j + 1]);
          LeftOutIsVacant(child, t.kids[j + 1]);
        }
        assert Vacant(Some(path), t);
      } else {
        VacantAnywhere(Some(path), t);
      }
    }
  }

  /** Which pairs a pruned mapping goes without. */
  lemma {:induction false} DroppedIff(path: seq<string>, t: Tree)
    ensures Dropped(path, t) <==> LeftOut(path, t)
    decreases t
  {
    hide OwnDefault, IsNamedDefault, SpelledZero;
    NamedIsOwn(path, t);
    ZeroIsVacant(t);
    OwnIsScalar(path, t);
    if t.kind == Mapping {
      if IsZero(t) { ZeroPairsPruned(path, t.kids); }
      PrunedPairsEmpty(path, t.kids);
      forall j | 0 <= j && j % 2 == 0 && j + 1 < |t.kids|
        ensures DroppedPair(path, t.kids, j) <==> LeftOut(path + [t.kids[j].value], t.kids[j + 1])
      {
        DroppedIff(path + [t.kids[j].value], t.kids[j + 1]);
      }
    }
  }

  lemma OwnIsScalar(path: seq<string>, t: Tree)
    ensures OwnDefault(path, t) ==> t.kind == Scalar
  {
  }

  /** When nothing but zeros is left of a pruned tree. */
  lemma {:induction false} PrunedIsZero(path: seq<string>, t: Tree)
    ensures IsZero(Prune(path, t)) <==> Vacant(Some(path), t)
    decreases t
  {
    hide OwnDefault, SpelledZero;
    ZeroIsVacant(t);
    if t.kind == Mapping {
      PrunedPairsZero(path, t.kids);
      forall j | 0 <= j && j % 2 == 0 && j + 1 < |t.kids|
        ensures ZeroPair(path, t.kids, j) <==> VacantPair(Some(path), t.kids, j)
      {
        var child, v := path + [t.kids[j].value], t.kids[j + 1];
        DroppedIff(child, v);
        PrunedIsZero(child, v);
        if LeftOut(child, v) { LeftOutIsVacant(child, v); }
      }
    } else if t.kind == Sequence {
      AllZeroIff(PruneAll(path, t.kids), 1, 0);
      forall i | 0 <= i < |t.kids|
        ensures IsZero(PruneAll(path, t.kids)[i]) <==> Vacant(Some(path), t.kids[i])
      {
        PruneAllAt(path, t.kids, i);
        PrunedIsZero(path, t.kids[i]);
      }
    }
  }

  /** Which keys are not added. */
  lemma NotAddedIff(path: seq<string>, t: Tree)
    ensures IsKnownDefault(path, Prune(path, t)) <==> NotAdded(path, t)
  {
    hide IsNamedDefault, OwnDefault, IsZero, Vacant;
    PrunedIsZero(path, t);
    NamedIsOwn(path, Prune(path, t));
    OwnIsScalar(path, Prune(path, t));
    OwnIsScalar(path, t);
  }

  // ---------- pruning and reading ----------

  /** No pair that is left out says more than its absence does. */
  ghost predicate PruneSafe(optional: Optional, path: seq<string>, at: seq<string>, t: Tree)
    decreases t, 1
  {
    match t.kind
    case Mapping =>
      forall j :: 0 <= j && j % 2 == 0 && j + 1 < |t.kids| ==> PairSafe(optional, path, at, t.kids, j)
    case Sequence => forall i :: 0 <= i < |t.kids| ==> PruneSafe(optional, path, at + [ELEMENT], t.kids[i])
    case _ => true
  }

  ghost predicate PairSafe(optional: Optional, path: seq<string>, at: seq<string>, kids: seq<Tree>, j: nat)
    requires j + 1 < |kids|
    decreases kids, 0
  {
    var child, here, v := path + [kids[j].value], at + [kids[j].value], kids[j + 1];
    if LeftOut(child, v) then Silent(optional, v, here) else PruneSafe(optional, child, here, v)
  }

  /** A pruned tree reads as the original does exactly when no pair it goes without says more than absence. */
  lemma {:induction false} PruneReads(optional: Optional, path: seq<string>, at: seq<string>, t: Tree)
    requires WellFormed(t)
    ensures Load(optional, Some(Prune(path, t)), t, at) == Load(optional, Some(t), t, at) <==>
      PruneSafe(optional, path, at, t)
    decreases t
  {
    if t.kind == Mapping {
      hide Dropped, LeftOut, Silent;
      var pruned := PrunePairs(path, t.kids);
      SamePairs(optional, pruned, t.kids, t.kids, at);
      forall j | 0 <= j && j % 2 == 0 && j + 1 < |t.kids|
        ensures SamePair(optional, pruned, t.kids, t.kids, at, j) <==> PairSafe(optional, path, at, t.kids, j)
      {
        var key, v := t.kids[j].value, t.kids[j + 1];
        LookupAt(t.kids, j);
        LookupPruned(path, t.kids, key);
        DroppedIff(path + [key], v);
        SilentReads(optional, v, at + [key]);
        PruneReads(optional, path + [key], at + [key], v);
      }
    } else if t.kind == Sequence {
      var pruned := PruneAll(path, t.kids);
      SameAll(optional, pruned, t.kids, at);
      forall i | 0 <= i < |t.kids|
        ensures SameElement(optional, pruned, t.kids, at, i) <==>
          PruneSafe(optional, path, at + [ELEMENT], t.kids[i])
      {
        PruneAllAt(path, t.kids, i);
        PruneReads(optional, path, at + [ELEMENT], t.kids[i]);
      }
    }
  }
}
