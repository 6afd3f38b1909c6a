/** The data of the model registry and the ground truth its counters are measured against. */
module RegistryModel {
  import opened Strings
  import opened Sums

  /** `rest` stands for the metadata fields the registry copies but never inspects. */
  datatype ModelInfo = ModelInfo(id: string, created: int, rest: string)

  datatype Registration = Registration(
    info: ModelInfo,
    infoByProvider: map<string, ModelInfo>,
    count: int,
    quota: map<string, int>,
    providers: map<string, int>,
    suspended: map<string, string>)

  datatype State = State(
    models: map<string, Registration>,
    clientModels: map<string, seq<string>>,
    clientInfos: map<string, map<string, ModelInfo>>,
    clientProviders: map<string, string>)

  const EMPTY_STATE := State(map[], map[], map[], map[])

  /** A counter table read as Go reads it: a missing key counts zero. */
  function At(counts: map<string, int>, key: string): int
  {
    if key in counts then counts[key] else 0
  }

  predicate AllPositive(counts: map<string, int>)
  {
    forall key :: key in counts ==> counts[key] > 0
  }

  /** counts holds the multiplicity of each listed identifier and nothing else. */
  ghost predicate CountsOf(counts: map<string, int>, ids: seq<string>)
  {
    AllPositive(counts) && forall id :: At(counts, id) == multiset(ids)[id]
  }

  lemma AtDetermines(a: map<string, int>, b: map<string, int>)
    requires AllPositive(a) && AllPositive(b)
    requires forall key :: At(a, key) == At(b, key)
    ensures a == b
  {
    forall key
      ensures key in a <==> key in b
      ensures key in a ==> a[key] == b[key]
    {
      assert At(a, key) == At(b, key);
    }
  }

  // ---------- ground truth: what the clients list ----------

  ghost function Mult(cm: map<string, seq<string>>, c: string, m: string): nat
  {
    if c in cm then multiset(cm[c])[m] else 0
  }

  ghost function MultBy(cm: map<string, seq<string>>, m: string): string -> int
  {
    c => Mult(cm, c, m)
  }

  /** How often model m is listed over all clients. */
  ghost function Total(cm: map<string, seq<string>>, m: string): int
  {
    Sum(cm.Keys, MultBy(cm, m))
  }

  ghost function ProviderMult(cm: map<string, seq<string>>, cp: map<string, string>, c: string, m: string,
                              p: string): nat
  {
    if c in cp && cp[c] == p then Mult(cm, c, m) else 0
  }

  ghost function ProviderMultBy(cm: map<string, seq<string>>, cp: map<string, string>, m: string,
                                p: string): string -> int
  {
    c => ProviderMult(cm, cp, c, m, p)
  }

  /** How often model m is listed over the clients of provider p. */
  ghost function ProviderTotal(cm: map<string, seq<string>>, cp: map<string, string>, m: string, p: string): int
  {
    Sum(cm.Keys, ProviderMultBy(cm, cp, m, p))
  }

  /** Replacing (or adding) one client's list and provider moves both totals by that client's share. */
  lemma TotalsAfterSet(cm: map<string, seq<string>>, cp: map<string, string>, c: string, list: seq<string>,
                       cp': map<string, string>, m: string, p: string)
    requires forall d :: d != c ==> (d in cp <==> d in cp') && (d in cp ==> cp[d] == cp'[d])
    ensures Total(cm[c := list], m) == Total(cm, m) - Mult(cm, c, m) + multiset(list)[m]
    ensures ProviderTotal(cm[c := list], cp', m, p) ==
            ProviderTotal(cm, cp, m, p) - ProviderMult(cm, cp, c, m, p)
            + (if c in cp' && cp'[c] == p then multiset(list)[m] else 0)
  {
    var cm' := cm[c := list];
    SumMove(cm.Keys, cm'.Keys, c, MultBy(cm, m), MultBy(cm', m));
    SumMove(cm.Keys, cm'.Keys, c, ProviderMultBy(cm, cp, m, p), ProviderMultBy(cm', cp', m, p));
  }

  lemma TotalsAfterRemove(cm: map<string, seq<string>>, cp: map<string, string>, c: string, m: string, p: string)
    ensures Total(cm - {c}, m) == Total(cm, m) - Mult(cm, c, m)
    ensures ProviderTotal(cm - {c}, cp - {c}, m, p) == ProviderTotal(cm, cp, m, p) - ProviderMult(cm, cp, c, m, p)
  {
    var cm', cp' := cm - {c}, cp - {c};
    SumMove(cm.Keys, cm'.Keys, c, MultBy(cm, m), MultBy(cm', m));
    SumMove(cm.Keys, cm'.Keys, c, ProviderMultBy(cm, cp, m, p), ProviderMultBy(cm', cp', m, p));
  }

  /** Two sums over sets that differ at most at x, of functions that differ at most at x and vanish off their set. */
  lemma SumMove(s: set<string>, s': set<string>, x: string, f: string -> int, g: string -> int)
    requires s - {x} == s' - {x}
    requires x !in s ==> f(x) == 0
    requires x !in s' ==> g(x) == 0
    requires forall y :: y != x ==> f(y) == g(y)
    ensures Sum(s', g) == Sum(s, f) - f(x) + g(x)
  {
    var rest := s - {x};
    SumSame(rest, f, g);
    if x in s { SumPick(s, x, f); } else { assert rest == s; }
    if x in s' { SumPick(s', x, g); } else { assert rest == s'; }
  }

  lemma TotalsBound(cm: map<string, seq<string>>, cp: map<string, string>, c: string, m: string, p: string)
    ensures Total(cm, m) >= Mult(cm, c, m)
    ensures ProviderTotal(cm, cp, m, p) >= ProviderMult(cm, cp, c, m, p)
    ensures Total(cm, m) >= 0 && ProviderTotal(cm, cp, m, p) >= 0
  {
    SumNonNegative(cm.Keys, MultBy(cm, m));
    SumNonNegative(cm.Keys, ProviderMultBy(cm, cp, m, p));
    if c in cm {
      SumAtLeast(cm.Keys, c, MultBy(cm, m));
      SumAtLeast(cm.Keys, c, ProviderMultBy(cm, cp, m, p));
    }
  }

  /** A model has a positive total exactly when some client lists it. */
  lemma TotalPositive(cm: map<string, seq<string>>, m: string)
    ensures Total(cm, m) > 0 <==> exists c :: c in cm && m in cm[c]
  {
    if c :| c in cm && m in cm[c] {
      SumNonNegative(cm.Keys, MultBy(cm, m));
      SumAtLeast(cm.Keys, c, MultBy(cm, m));
      assert MultBy(cm, m)(c) == multiset(cm[c])[m] > 0;
    } else {
      SumZero(cm.Keys, MultBy(cm, m));
    }
  }

  // ---------- the invariant ----------

  /** reg says exactly what the client tables say about model m. */
  ghost predicate Accurate(reg: Registration, cm: map<string, seq<string>>, cp: map<string, string>, m: string)
  {
    && reg.info.id == m
    && reg.count == Total(cm, m)
    && AllPositive(reg.providers)
    && (forall p :: At(reg.providers, p) == ProviderTotal(cm, cp, m, p))
    && reg.infoByProvider.Keys == reg.providers.Keys
  }

  ghost predicate TablesOk(st: State)
  {
    && (forall c :: c in st.clientModels ==> st.clientModels[c] != [] && "" !in st.clientModels[c])
    && st.clientInfos.Keys == st.clientModels.Keys
    && st.clientProviders.Keys <= st.clientModels.Keys
    && (forall c :: c in st.clientProviders ==> st.clientProviders[c] != "")
  }

  ghost predicate Consistent(st: State)
  {
    && TablesOk(st)
    && (forall m :: m in st.models <==> Total(st.clientModels, m) > 0)
    && (forall m :: m in st.models ==> Accurate(st.models[m], st.clientModels, st.clientProviders, m))
  }

  lemma EmptyConsistent()
    ensures Consistent(EMPTY_STATE)
  {
    forall m ensures Total(map[], m) == 0 {
      var none: map<string, seq<string>> := map[];
      SumZero(none.Keys, MultBy(none, m));
    }
  }

  // ---------- the lists that clients submit ----------

  /** The identifiers a registration counts: entries that are not null and have one, in order, repeats kept. */
  function RawIds(models: seq<Option<ModelInfo>>): seq<string>
  {
    if models == [] then []
    else (if models[0].Some? && models[0].value.id != "" then [models[0].value.id] else []) + RawIds(models[1..])
  }

  /** The first entry carrying each identifier wins. */
  function FirstInfos(models: seq<Option<ModelInfo>>): map<string, ModelInfo>
  {
    if models == [] then map[]
    else
      var rest := FirstInfos(models[1..]);
      if models[0].Some? && models[0].value.id != "" then rest[models[0].value.id := models[0].value] else rest
  }

  lemma {:induction false} FirstInfosKeys(models: seq<Option<ModelInfo>>)
    ensures forall id :: id in FirstInfos(models) <==> id in RawIds(models)
    ensures forall id :: id in FirstInfos(models) ==> FirstInfos(models)[id].id == id && id != ""
  {
    if models != [] {
      FirstInfosKeys(models[1..]);
    }
  }

  predicate Carries(entry: Option<ModelInfo>, id: string)
  {
    entry.Some? && entry.value.id == id
  }

  ghost predicate FirstWith(models: seq<Option<ModelInfo>>, id: string, i: nat)
  {
    i < |models| && Carries(models[i], id) && forall j :: 0 <= j < i ==> !Carries(models[j], id)
  }

  /** The metadata under an identifier is that of the first entry that carries it. */
  lemma {:induction false} FirstEntryWins(models: seq<Option<ModelInfo>>, id: string, i: nat)
    requires id != "" && FirstWith(models, id, i)
    ensures id in FirstInfos(models) && models[i] == Some(FirstInfos(models)[id])
    decreases i
  {
    if i > 0 {
      assert !Carries(models[0], id);
      assert forall j :: 0 <= j < i - 1 ==> models[1..][j] == models[j + 1];
      FirstEntryWins(models[1..], id, i - 1);
    }
  }

  predicate Counts(entry: Option<ModelInfo>)
  {
    entry.Some? && entry.value.id != ""
  }

  /** picks are the indices of the entries that have an identifier, in order, and ids their identifiers. */
  ghost predicate Picked(models: seq<Option<ModelInfo>>, ids: seq<string>, picks: seq<nat>)
  {
    && |picks| == |ids|
    && (forall k :: 0 <= k < |picks| ==>
          picks[k] < |models| && Counts(models[picks[k]]) && Carries(models[picks[k]], ids[k]))
    && (forall k, l :: 0 <= k < l < |picks| ==> picks[k] < picks[l])
    && (forall i :: 0 <= i < |models| && Counts(models[i]) ==> i in picks)
  }

  /** The counted identifiers are those of the entries that have one, each entry once, in the order given. */
  lemma {:induction false} RawIdsPick(models: seq<Option<ModelInfo>>) returns (picks: seq<nat>)
    ensures Picked(models, RawIds(models), picks)
    decreases |models|
  {
    if models == [] {
      picks := [];
    } else {
      var n := |models| - 1;
      picks := RawIdsPick(models[..n]);
      RawIdsLast(models[..n], models[n]);
      assert models == models[..n] + [models[n]];
      PickedOneMore(models, n, RawIds(models[..n]), picks);
      if Counts(models[n]) { picks := picks + [n]; }
    }
  }

  lemma {:induction false} RawIdsLast(models: seq<Option<ModelInfo>>, entry: Option<ModelInfo>)
    ensures RawIds(models + [entry]) == RawIds(models) + if Counts(entry) then [entry.value.id] else []
    decreases |models|
  {
    if models == [] {
      assert [] + [entry] == [entry];
    } else {
      assert (models + [entry])[1..] == models[1..] + [entry];
      RawIdsLast(models[1..], entry);
    }
  }

  lemma PickedOneMore(models: seq<Option<ModelInfo>>, n: nat, ids: seq<string>, picks: seq<nat>)
    requires n + 1 == |models| && Picked(models[..n], ids, picks)
    ensures if Counts(models[n]) then Picked(models, ids + [models[n].value.id], picks + [n])
      else Picked(models, ids, picks)
  {
    assert forall i :: 0 <= i < n ==> models[..n][i] == models[i];
    var more := picks + [n];
    assert forall i :: i in picks ==> i in more;
    assert more[|picks|] == n;
  }

  // ---------- what the two client operations promise ----------

  function WithProvider(cp: map<string, string>, c: string, p: string): map<string, string>
  {
    if p == "" then cp - {c} else cp[c := p]
  }

  /** Was model m bound to client c before? Then the operation starts a fresh binding. */
  ghost predicate Rebound(pre: State, c: string, raw: seq<string>, m: string)
  {
    c in pre.clientModels && (m in raw || m in pre.clientModels[c])
  }

  /** Transient marks of model m: only c's own marks go, and only where the binding is a new one. */
  ghost predicate MarkAfter(pre: State, post: State, c: string, raw: seq<string>, m: string)
    requires m in post.models
  {
    if m !in pre.models then post.models[m].quota == map[] && post.models[m].suspended == map[]
    else if Rebound(pre, c, raw, m) then
      post.models[m].quota == pre.models[m].quota - {c} && post.models[m].suspended == pre.models[m].suspended - {c}
    else post.models[m].quota == pre.models[m].quota && post.models[m].suspended == pre.models[m].suspended
  }

  ghost predicate MarksAfter(pre: State, post: State, c: string, raw: seq<string>)
  {
    forall m :: m in post.models ==> MarkAfter(pre, post, c, raw, m)
  }

  /** Metadata of model m after a client of provider p submitted infos: submitted models take it, all else is kept. */
  ghost predicate InfoAfter(pre: State, post: State, p: string, infos: map<string, ModelInfo>, m: string)
    requires m in post.models
  {
    && (if m in infos then post.models[m].info == infos[m]
        else m in pre.models && post.models[m].info == pre.models[m].info)
    && forall q :: q in post.models[m].infoByProvider ==>
         if m in infos && q == p then post.models[m].infoByProvider[q] == infos[m]
         else m in pre.models && q in pre.models[m].infoByProvider
              && post.models[m].infoByProvider[q] == pre.models[m].infoByProvider[q]
  }

  ghost predicate InfosAfter(pre: State, post: State, p: string, infos: map<string, ModelInfo>)
  {
    forall m :: m in post.models ==> InfoAfter(pre, post, p, infos, m)
  }

  ghost predicate Registered(pre: State, c: string, p: string, models: seq<Option<ModelInfo>>, post: State)
  {
    var raw, infos := RawIds(models), FirstInfos(models);
    && post.clientModels == pre.clientModels[c := raw]
    && post.clientInfos == pre.clientInfos[c := infos]
    && post.clientProviders == WithProvider(pre.clientProviders, c, p)
    && Consistent(post)
    && InfosAfter(pre, post, p, infos)
    && MarksAfter(pre, post, c, raw)
  }

  ghost predicate Unregistered(pre: State, c: string, post: State)
  {
    && post.clientModels == pre.clientModels - {c}
    && post.clientInfos == pre.clientInfos - {c}
    && post.clientProviders == pre.clientProviders - {c}
    && Consistent(post)
    && InfosAfter(pre, post, "", map[])
    && MarksAfter(pre, post, c, [])
  }

  /** Marks changed on the models, each new mark for a client that lists the model at that moment. */
  ghost predicate MarksChanged(pre: State, post: State)
  {
    && post == pre.(models := post.models) && post.models.Keys == pre.models.Keys
    && (forall m :: m in pre.models ==>
          post.models[m] == pre.models[m].(quota := post.models[m].quota, suspended := post.models[m].suspended))
    && (forall m, c :: m in post.models && (c in post.models[m].quota || c in post.models[m].suspended) ==>
          c in pre.models[m].quota || c in pre.models[m].suspended
          || (c in pre.clientModels && m in pre.clientModels[c]))
  }
}
