/** What the registry's operations promise together. */
module RegistryTheorems {
  import opened Strings
  import opened RegistryModel
  import opened RegistryListing
  import opened RegistrySettle

  /** In a consistent state a model is registered exactly when some client lists it. */
  lemma RegisteredIffListed(st: State, m: string)
    requires Consistent(st)
    ensures m in st.models <==> exists c :: c in st.clientModels && m in st.clientModels[c]
  {
    TotalPositive(st.clientModels, m);
  }

  // ---------- one outcome, whatever order the maps are walked in ----------

  /** Two consistent states over the same client tables register the same models with the same counters. */
  lemma SameTablesSameCounters(a: State, b: State)
    requires Consistent(a) && Consistent(b)
    requires a.clientModels == b.clientModels && a.clientProviders == b.clientProviders
    ensures a.models.Keys == b.models.Keys
    ensures forall m :: m in a.models ==>
      a.models[m].count == b.models[m].count && a.models[m].providers == b.models[m].providers
      && a.models[m].infoByProvider.Keys == b.models[m].infoByProvider.Keys
  {
    hide Total, ProviderTotal;
    forall m
      ensures m in a.models <==> m in b.models
    {
      assert m in a.models <==> Total(a.clientModels, m) > 0;
    }
    forall m | m in a.models
      ensures a.models[m].count == b.models[m].count && a.models[m].providers == b.models[m].providers
      ensures a.models[m].infoByProvider.Keys == b.models[m].infoByProvider.Keys
    {
      assert Accurate(a.models[m], a.clientModels, a.clientProviders, m);
      assert Accurate(b.models[m], b.clientModels, b.clientProviders, m);
      AtDetermines(a.models[m].providers, b.models[m].providers);
    }
  }

  lemma InfosDetermined(pre: State, a: State, b: State, p: string, infos: map<string, ModelInfo>, m: string)
    requires m in a.models && m in b.models && InfoAfter(pre, a, p, infos, m) && InfoAfter(pre, b, p, infos, m)
    requires a.models[m].infoByProvider.Keys == b.models[m].infoByProvider.Keys
    ensures a.models[m].info == b.models[m].info && a.models[m].infoByProvider == b.models[m].infoByProvider
  {
    var x, y := a.models[m].infoByProvider, b.models[m].infoByProvider;
    forall q | q in x
      ensures x[q] == y[q]
    {
      assert q in x.Keys;
      assert q in y;
    }
  }

  /** The promise of RegisterClient admits a single outcome. */
  lemma RegisterDeterministic(pre: State, c: string, p: string, list: seq<Option<ModelInfo>>, a: State, b: State)
    requires Registered(pre, c, p, list, a) && Registered(pre, c, p, list, b)
    ensures a == b
  {
    hide Consistent, RawIds, FirstInfos;
    SameTablesSameCounters(a, b);
    forall m | m in a.models
      ensures a.models[m] == b.models[m]
    {
      hide InfoAfter;
      assert m in b.models.Keys;
      assert InfoAfter(pre, a, p, FirstInfos(list), m) && InfoAfter(pre, b, p, FirstInfos(list), m);
      InfosDetermined(pre, a, b, p, FirstInfos(list), m);
      assert MarkAfter(pre, a, c, RawIds(list), m) && MarkAfter(pre, b, c, RawIds(list), m);
    }
    assert a.models == b.models;
  }

  /** So does that of UnregisterClient. */
  lemma UnregisterDeterministic(pre: State, c: string, a: State, b: State)
    requires Unregistered(pre, c, a) && Unregistered(pre, c, b)
    ensures a == b
  {
    hide Consistent;
    SameTablesSameCounters(a, b);
    forall m | m in a.models
      ensures a.models[m] == b.models[m]
    {
      hide InfoAfter;
      assert m in b.models.Keys;
      assert InfoAfter(pre, a, "", map[], m) && InfoAfter(pre, b, "", map[], m);
      InfosDetermined(pre, a, b, "", map[], m);
      assert MarkAfter(pre, a, c, [], m) && MarkAfter(pre, b, c, [], m);
    }
    assert a.models == b.models;
  }

  // ---------- reconciling is as good as rebuilding ----------

  /** A state without its transient marks. */
  function Unmarked(st: State): State
  {
    st.(models := map m | m in st.models :: st.models[m].(quota := map[], suspended := map[]))
  }

  lemma RebuiltInfo(pre: State, gone: State, rebuilt: State, p: string, infos: map<string, ModelInfo>, m: string)
    requires InfosAfter(pre, gone, "", map[])
    requires m in rebuilt.models && InfoAfter(gone, rebuilt, p, infos, m)
    ensures InfoAfter(pre, rebuilt, p, infos, m)
  {
    if m in gone.models {
      assert InfoAfter(pre, gone, "", map[], m);
    }
  }

  lemma SameModels(pre: State, a: State, b: State, p: string, infos: map<string, ModelInfo>)
    requires Consistent(a) && Consistent(b)
    requires a.clientModels == b.clientModels && a.clientProviders == b.clientProviders
    requires InfosAfter(pre, a, p, infos) && InfosAfter(pre, b, p, infos)
    ensures Unmarked(a).models == Unmarked(b).models
  {
    hide Consistent;
    SameTablesSameCounters(a, b);
    forall m | m in a.models
      ensures m in b.models
      ensures a.models[m].(quota := map[], suspended := map[]) == b.models[m].(quota := map[], suspended := map[])
    {
      hide InfoAfter;
      assert m in b.models.Keys;
      InfosDetermined(pre, a, b, p, infos, m);
    }
    assert Unmarked(a).models.Keys == Unmarked(b).models.Keys;
  }

  /** Registering over an existing client leaves what unregistering it and registering it afresh leaves. */
  lemma ReconcileRefinesRebuild(pre: State, c: string, p: string, list: seq<Option<ModelInfo>>,
                                reconciled: State, gone: State, rebuilt: State)
    requires RawIds(list) != []
    requires Registered(pre, c, p, list, reconciled)
    requires Unregistered(pre, c, gone) && Registered(gone, c, p, list, rebuilt)
    ensures Unmarked(reconciled) == Unmarked(rebuilt)
  {
    hide Consistent, RawIds, FirstInfos, MarksAfter, InfoAfter, Unmarked;
    forall m | m in rebuilt.models
      ensures InfoAfter(pre, rebuilt, p, FirstInfos(list), m)
    {
      RebuiltInfo(pre, gone, rebuilt, p, FirstInfos(list), m);
    }
    assert reconciled.clientModels == rebuilt.clientModels;
    assert reconciled.clientInfos == rebuilt.clientInfos;
    assert reconciled.clientProviders == rebuilt.clientProviders;
    SameModels(pre, reconciled, rebuilt, p, FirstInfos(list));
    UnmarkedSplits(reconciled, rebuilt);
  }

  lemma UnmarkedSplits(a: State, b: State)
    requires Unmarked(a).models == Unmarked(b).models && a.(models := b.models) == b
    ensures Unmarked(a) == Unmarked(b)
  {
  }

  // ---------- transient marks do not outlive their binding ----------

  /** Every client marked on a model lists that model. */
  ghost predicate MarksBound(st: State)
  {
    forall m, c :: m in st.models && (c in st.models[m].quota || c in st.models[m].suspended) ==>
      c in st.clientModels && m in st.clientModels[c]
  }

  /** One call, by what it does to the tables and to each model; that the counters stay right is to be shown. */
  ghost predicate Next(pre: State, post: State)
  {
    || (exists c, p, list :: RegisterStep(pre, c, p, list, post))
    || (exists c :: UnregisterStep(pre, c, post))
    || MarksChanged(pre, post)
  }

  /** Where marks are bound, not even they tell a reconciled registration from a rebuilt one. */
  lemma ReconcileIsRebuild(pre: State, c: string, p: string, list: seq<Option<ModelInfo>>,
                           reconciled: State, gone: State, rebuilt: State)
    requires Consistent(pre) && MarksBound(pre) && c in pre.clientModels && RawIds(list) != []
    requires Registered(pre, c, p, list, reconciled)
    requires Unregistered(pre, c, gone) && Registered(gone, c, p, list, rebuilt)
    ensures reconciled == rebuilt
  {
    hide Consistent, RawIds, FirstInfos, InfosAfter;
    ReconcileRefinesRebuild(pre, c, p, list, reconciled, gone, rebuilt);
    assert reconciled.models.Keys == Unmarked(reconciled).models.Keys == Unmarked(rebuilt).models.Keys
      == rebuilt.models.Keys;
    forall m | m in reconciled.models
      ensures reconciled.models[m] == rebuilt.models[m]
    {
      assert Unmarked(reconciled).models[m] == Unmarked(rebuilt).models[m];
      SameMarks(pre, c, p, list, reconciled, gone, rebuilt, m);
    }
    assert reconciled.models == rebuilt.models;
  }

  lemma SameMarks(pre: State, c: string, p: string, list: seq<Option<ModelInfo>>,
                  reconciled: State, gone: State, rebuilt: State, m: string)
    requires Consistent(pre) && MarksBound(pre) && c in pre.clientModels && RawIds(list) != []
    requires Registered(pre, c, p, list, reconciled)
    requires Unregistered(pre, c, gone) && Registered(gone, c, p, list, rebuilt)
    requires m in reconciled.models && m in rebuilt.models
    ensures reconciled.models[m].quota == rebuilt.models[m].quota
    ensures reconciled.models[m].suspended == rebuilt.models[m].suspended
  {
    hide InfosAfter, FirstInfos, RawIds, Consistent, MarksBound;
    assert MarkAfter(pre, reconciled, c, RawIds(list), m) && MarkAfter(gone, rebuilt, c, RawIds(list), m);
    if m in gone.models {
      assert MarkAfter(pre, gone, c, [], m);
    }
    MarksWithout(pre, c, gone, m);
  }

  /** Who is marked on a model before c leaves, seen from after. */
  lemma MarksWithout(pre: State, c: string, gone: State, m: string)
    requires Consistent(pre) && Consistent(gone) && MarksBound(pre) && c in pre.clientModels
    requires gone.clientModels == pre.clientModels - {c}
    ensures m in gone.models ==> m in pre.models
    ensures m in pre.models && m !in gone.models ==>
      pre.models[m].quota - {c} == map[] && pre.models[m].suspended - {c} == map[]
    ensures m in pre.models && m !in pre.clientModels[c] ==>
      m in gone.models && c !in pre.models[m].quota && c !in pre.models[m].suspended
  {
    hide Consistent;
    RegisteredIffListed(gone, m);
    RegisteredIffListed(pre, m);
    forall d | d in pre.clientModels && d != c && m in pre.clientModels[d]
      ensures m in gone.models
    {
      assert d in gone.clientModels && m in gone.clientModels[d];
    }
    if m in pre.models && m !in gone.models {
      forall d | d in pre.models[m].quota || d in pre.models[m].suspended ensures d == c {
        assert d in pre.clientModels && m in pre.clientModels[d];
      }
    }
  }

  /** Re-registering a client clears its own marks on every model it listed or lists now. */
  lemma ReregisterClears(pre: State, c: string, p: string, list: seq<Option<ModelInfo>>, post: State, m: string)
    requires Registered(pre, c, p, list, post) && c in pre.clientModels && m in post.models
    requires m in RawIds(list) || m in pre.clientModels[c]
    ensures c !in post.models[m].quota && c !in post.models[m].suspended
  {
    assert MarkAfter(pre, post, c, RawIds(list), m);
  }

  lemma UnregisterClears(pre: State, c: string, post: State, m: string)
    requires Unregistered(pre, c, post) && c in pre.clientModels && m in pre.clientModels[c] && m in post.models
    ensures c !in post.models[m].quota && c !in post.models[m].suspended
  {
    assert MarkAfter(pre, post, c, [], m);
  }

  lemma RegisterKeepsMarksBound(pre: State, c: string, p: string, list: seq<Option<ModelInfo>>, post: State)
    requires MarksBound(pre) && Registered(pre, c, p, list, post)
    ensures Consistent(post) && MarksBound(post)
  {
    hide Consistent;
    forall m, d | m in post.models && (d in post.models[m].quota || d in post.models[m].suspended)
      ensures d in post.clientModels && m in post.clientModels[d]
    {
      assert MarkAfter(pre, post, c, RawIds(list), m);
    }
  }

  lemma UnregisterKeepsMarksBound(pre: State, c: string, post: State)
    requires MarksBound(pre) && Unregistered(pre, c, post)
    ensures Consistent(post) && MarksBound(post)
  {
    hide Consistent;
    forall m, d | m in post.models && (d in post.models[m].quota || d in post.models[m].suspended)
      ensures d in post.clientModels && m in post.clientModels[d]
    {
      assert MarkAfter(pre, post, c, [], m);
    }
  }

  lemma MarkStepKeeps(pre: State, post: State)
    requires Consistent(pre) && MarksBound(pre) && MarksChanged(pre, post)
    ensures Consistent(post) && MarksBound(post)
  {
    hide Accurate, Total;
    MarkedConsistent(pre, post);
  }

  /** One step of a run keeps the counters accurate and the marks bound. */
  lemma NextKeeps(pre: State, post: State)
    requires Consistent(pre) && MarksBound(pre) && Next(pre, post)
    ensures Consistent(post) && MarksBound(post)
  {
    hide Registered, Unregistered, RegisterStep, UnregisterStep, Consistent, MarksBound, MarksChanged;
    if c, p, list :| RegisterStep(pre, c, p, list, post) {
      RegisterStepSettles(pre, c, p, list, post);
      RegisterKeepsMarksBound(pre, c, p, list, post);
    } else if c :| UnregisterStep(pre, c, post) {
      UnregisterStepSettles(pre, c, post);
      UnregisterKeepsMarksBound(pre, c, post);
    } else {
      MarkStepKeeps(pre, post);
    }
  }

  /** In every state of every run from the empty registry. */
  lemma {:induction false} EveryReachableState(run: seq<State>, i: nat)
    requires i < |run| && run[0] == EMPTY_STATE
    requires forall j :: 0 <= j < |run| - 1 ==> Next(run[j], run[j + 1])
    ensures Consistent(run[i]) && MarksBound(run[i])
  {
    if i == 0 {
      EmptyConsistent();
    } else {
      EveryReachableState(run, i - 1);
      NextKeeps(run[i - 1], run[i - 1 + 1]);
    }
  }
}
