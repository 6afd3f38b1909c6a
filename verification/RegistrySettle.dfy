/** From what happened to each model to the promise of a whole client operation. */
module RegistrySettle {
  import opened Strings
  import opened RegistryModel
  import opened RegistrySteps

  function ProviderOf(cp: map<string, string>, c: string): string
  {
    if c in cp then cp[c] else ""
  }

  /** What the client tables say after c replaced its list by raw, or left when raw is empty. */
  ghost predicate TablesAfter(pre: State, post: State, c: string, p: string, raw: seq<string>,
                              infos: map<string, ModelInfo>)
  {
    && TablesOk(post)
    && post.clientModels == (if raw == [] then pre.clientModels - {c} else pre.clientModels[c := raw])
    && post.clientInfos == (if raw == [] then pre.clientInfos - {c} else pre.clientInfos[c := infos])
    && post.clientProviders == WithProvider(pre.clientProviders, c, p)
    && (forall id :: id in infos <==> id in raw)
    && (forall id :: id in infos ==> infos[id].id == id)
    && (raw == [] ==> p == "")
  }

  /** What happened to model id when c exchanged its a old bindings for b new ones. */
  ghost predicate ModelAfter(pre: State, post: State, c: string, p: string, raw: seq<string>,
                             infos: map<string, ModelInfo>, id: string)
    requires forall i :: i in raw ==> i in infos
  {
    var a, b, o := Mult(pre.clientModels, c, id), multiset(raw)[id], Lookup(pre.models, id);
    if a == 0 && b == 0 then Lookup(post.models, id) == o
    else if OrEmpty(o).count - a + b <= 0 then id !in post.models
    else
      && id in post.models
      && post.models[id].count == OrEmpty(o).count - a + b
      && Exchanged(OrEmpty(o), post.models[id], ProviderOf(pre.clientProviders, c), a, p, b,
                   if b > 0 then Some(infos[id]) else None)
      && (if c in pre.clientModels then MarksCleared(OrEmpty(o), post.models[id], c)
          else MarksKept(OrEmpty(o), post.models[id]))
  }

  lemma ModelCounted(pre: State, post: State, c: string, p: string, raw: seq<string>, infos: map<string, ModelInfo>,
                     id: string)
    requires Consistent(pre) && TablesAfter(pre, post, c, p, raw, infos)
    requires ModelAfter(pre, post, c, p, raw, infos, id)
    ensures id in post.models <==> Total(post.clientModels, id) > 0
    ensures id in post.models ==> post.models[id].count == Total(post.clientModels, id) && post.models[id].info.id == id
    ensures id in post.models ==> Tidy(post.models[id])
  {
    hide Total, Exchanged;
    var o := Lookup(pre.models, id);
    TotalsMove(pre, post, c, p, raw, infos, id, "");
    TotalsBound(pre.clientModels, pre.clientProviders, c, id, "");
    assert OrEmpty(o).count == Total(pre.clientModels, id);
    if id in post.models && o != Some(post.models[id]) {
      ExchangedMeans(OrEmpty(o), post.models[id], ProviderOf(pre.clientProviders, c), Mult(pre.clientModels, c, id), p,
                     multiset(raw)[id], if multiset(raw)[id] > 0 then Some(infos[id]) else None);
    }
  }

  lemma ExchangedMeans(r: Registration, r': Registration, p: string, a: int, p': string, b: int,
                       newInfo: Option<ModelInfo>)
    requires Exchanged(r, r', p, a, p', b, newInfo)
    ensures Tidy(r') && r'.info == (if newInfo.Some? then newInfo.value else r.info)
  {
  }

  lemma ModelProvided(pre: State, post: State, c: string, p: string, raw: seq<string>, infos: map<string, ModelInfo>,
                      id: string, q: string)
    requires Consistent(pre) && TablesAfter(pre, post, c, p, raw, infos)
    requires ModelAfter(pre, post, c, p, raw, infos, id) && id in post.models
    ensures At(post.models[id].providers, q) == ProviderTotal(post.clientModels, post.clientProviders, id, q)
  {
    hide ProviderTotal, Total, Consistent, TablesAfter;
    TotalsMove(pre, post, c, p, raw, infos, id, q);
    ProvidedBefore(pre, id, q);
  }

  lemma AbsentUnlisted(st: State, c: string, id: string)
    requires Consistent(st) && id !in st.models
    ensures Mult(st.clientModels, c, id) == 0
  {
    TotalsBound(st.clientModels, st.clientProviders, c, id, "");
  }

  lemma ModelMarksKept(pre: State, post: State, c: string, p: string, raw: seq<string>, infos: map<string, ModelInfo>,
                       id: string)
    requires Consistent(pre) && TablesAfter(pre, post, c, p, raw, infos)
    requires ModelAfter(pre, post, c, p, raw, infos, id) && id in post.models
    ensures MarkAfter(pre, post, c, raw, id)
  {
    hide Consistent, TablesAfter, Exchanged;
    if id !in pre.models { AbsentUnlisted(pre, c, id); }
    assert id in raw <==> multiset(raw)[id] > 0;
  }

  lemma ModelInfoKept(pre: State, post: State, c: string, p: string, raw: seq<string>, infos: map<string, ModelInfo>,
                      id: string)
    requires Consistent(pre) && Consistent(post) && TablesAfter(pre, post, c, p, raw, infos)
    requires ModelAfter(pre, post, c, p, raw, infos, id) && id in post.models
    ensures InfoAfter(pre, post, p, infos, id)
  {
    hide Consistent, TablesOk, Tidy;
    if id !in pre.models { AbsentUnlisted(pre, c, id); }
    NoEmptyProvider(post, id);
    assert id in raw <==> multiset(raw)[id] > 0;
  }

  lemma ProvidedBefore(pre: State, id: string, q: string)
    requires Consistent(pre)
    ensures At(OrEmpty(Lookup(pre.models, id)).providers, q)
      == ProviderTotal(pre.clientModels, pre.clientProviders, id, q)
  {
    if id !in pre.models {
      forall c | c in pre.clientModels
        ensures Mult(pre.clientModels, c, id) == 0
      {
        TotalsBound(pre.clientModels, pre.clientProviders, c, id, q);
      }
      Sums.SumZero(pre.clientModels.Keys, ProviderMultBy(pre.clientModels, pre.clientProviders, id, q));
    }
  }

  lemma TotalsMove(pre: State, post: State, c: string, p: string, raw: seq<string>, infos: map<string, ModelInfo>,
                   id: string, q: string)
    requires Consistent(pre) && TablesAfter(pre, post, c, p, raw, infos)
    ensures Total(post.clientModels, id)
      == Total(pre.clientModels, id) - Mult(pre.clientModels, c, id) + multiset(raw)[id]
    ensures ProviderTotal(post.clientModels, post.clientProviders, id, q) ==
            ProviderTotal(pre.clientModels, pre.clientProviders, id, q)
            - (if q == ProviderOf(pre.clientProviders, c) && q != "" then Mult(pre.clientModels, c, id) else 0)
            + (if q == p && p != "" then multiset(raw)[id] else 0)
  {
    if raw == [] {
      TotalsAfterRemove(pre.clientModels, pre.clientProviders, c, id, q);
    } else {
      TotalsAfterSet(pre.clientModels, pre.clientProviders, c, raw, post.clientProviders, id, q);
    }
  }

  lemma AllSettle(pre: State, post: State, c: string, p: string, raw: seq<string>, infos: map<string, ModelInfo>)
    requires Consistent(pre) && TablesAfter(pre, post, c, p, raw, infos)
    requires forall id :: ModelAfter(pre, post, c, p, raw, infos, id)
    ensures Consistent(post)
    ensures InfosAfter(pre, post, p, infos)
    ensures MarksAfter(pre, post, c, raw)
  {
    hide ModelAfter, Total, ProviderTotal, InfoAfter, MarkAfter;
    forall id
      ensures id in post.models <==> Total(post.clientModels, id) > 0
      ensures id in post.models ==> Accurate(post.models[id], post.clientModels, post.clientProviders, id)
    {
      ModelCounted(pre, post, c, p, raw, infos, id);
      if id in post.models {
        forall q
          ensures At(post.models[id].providers, q) == ProviderTotal(post.clientModels, post.clientProviders, id, q)
        {
          ModelProvided(pre, post, c, p, raw, infos, id, q);
        }
      }
    }
    forall id | id in post.models
      ensures InfoAfter(pre, post, p, infos, id) && MarkAfter(pre, post, c, raw, id)
    {
      ModelInfoKept(pre, post, c, p, raw, infos, id);
      ModelMarksKept(pre, post, c, p, raw, infos, id);
    }
  }

  /** Nothing is ever counted under the empty provider name. */
  lemma NoEmptyProvider(st: State, id: string)
    requires Consistent(st)
    ensures id in st.models ==> "" !in st.models[id].providers && "" !in st.models[id].infoByProvider
  {
    if id in st.models {
      Sums.SumZero(st.clientModels.Keys, ProviderMultBy(st.clientModels, st.clientProviders, id, ""));
      assert At(st.models[id].providers, "") == 0;
    }
  }

  /** What a client's own share bounds from below. */
  lemma ShareBound(pre: State, c: string, id: string)
    requires Consistent(pre)
    ensures Mult(pre.clientModels, c, id) > 0 ==>
      id in pre.models && pre.models[id].count >= Mult(pre.clientModels, c, id)
    ensures Tidy(OrEmpty(Lookup(pre.models, id)))
    ensures var p := ProviderOf(pre.clientProviders, c);
            Mult(pre.clientModels, c, id) > 0 && p != "" ==>
              At(pre.models[id].providers, p) >= Mult(pre.clientModels, c, id)
  {
    TotalsBound(pre.clientModels, pre.clientProviders, c, id, ProviderOf(pre.clientProviders, c));
  }

  lemma FirstInfosStep(list: seq<Option<ModelInfo>>, i: nat, sofar: map<string, ModelInfo>)
    requires i < |list|
    ensures var o := list[i];
      FirstInfos(list[i..]) + sofar ==
      if o.None? || o.value.id == "" || o.value.id in sofar then FirstInfos(list[i + 1..]) + sofar
      else FirstInfos(list[i + 1..]) + sofar[o.value.id := o.value]
    ensures RawIds(list[i..]) ==
      (if list[i].None? || list[i].value.id == "" then [] else [list[i].value.id]) + RawIds(list[i + 1..])
  {
    assert list[i..][1..] == list[i + 1..];
  }

  lemma NothingLeft(list: seq<Option<ModelInfo>>)
    ensures RawIds(list[|list|..]) == [] && FirstInfos(list[|list|..]) == map[]
  {
  }

  lemma NothingCounted()
    ensures CountsOf(map[], [])
  {
  }

  /** While a client gives up its list one entry at a time, every model it still lists is registered. */
  lemma StillBound(pre: State, c: string, list: seq<string>, k: nat)
    requires Consistent(pre) && c in pre.clientModels && pre.clientModels[c] == list && k < |list|
    ensures list[k] in pre.models && Tidy(pre.models[list[k]])
    ensures pre.models[list[k]].count > multiset(list[..k])[list[k]]
  {
    var id := list[k];
    assert list == list[..k] + [id] + list[k + 1..];
    assert multiset(list) == multiset(list[..k]) + multiset{id} + multiset(list[k + 1..]);
    TotalsBound(pre.clientModels, pre.clientProviders, c, id, "");
  }

  ghost predicate DroppedModel(pre: State, models: map<string, Registration>, c: string, list: seq<string>, id: string)
  {
    Lookup(models, id)
    == AfterDrops(Lookup(pre.models, id), c, ProviderOf(pre.clientProviders, c), multiset(list)[id])
  }

  lemma DroppedModelAfter(pre: State, post: State, c: string, id: string)
    requires Consistent(pre) && c in pre.clientModels && DroppedModel(pre, post.models, c, pre.clientModels[c], id)
    ensures ModelAfter(pre, post, c, "", [], map[], id)
  {
    hide Drop, Exchanged, Consistent, Total;
    var a, p := Mult(pre.clientModels, c, id), ProviderOf(pre.clientProviders, c);
    ShareBound(pre, c, id);
    if a > 0 && pre.models[id].count > a {
      DropMeans(pre.models[id], c, p, a, "");
    }
  }

  lemma UnregisterSettles(pre: State, post: State, c: string)
    requires Consistent(pre) && c in pre.clientModels
    requires post.clientModels == pre.clientModels - {c}
    requires post.clientInfos == pre.clientInfos - {c}
    requires post.clientProviders == pre.clientProviders - {c}
    requires forall id :: DroppedModel(pre, post.models, c, pre.clientModels[c], id)
    ensures Unregistered(pre, c, post) && Consistent(post)
  {
    hide ModelAfter, DroppedModel, Accurate, Total;
    forall id
      ensures ModelAfter(pre, post, c, "", [], map[], id)
    {
      DroppedModelAfter(pre, post, c, id);
    }
    AllSettle(pre, post, c, "", [], map[]);
  }

  /** A client that is not registered leaves nothing behind to remove. */
  lemma UnregisterAbsent(pre: State, c: string)
    requires Consistent(pre) && c !in pre.clientModels
    ensures c !in pre.clientProviders && c !in pre.clientInfos
    ensures Unregistered(pre, c, pre)
  {
    hide Accurate, Total;
    assert pre.clientModels - {c} == pre.clientModels;
    assert pre.clientInfos - {c} == pre.clientInfos;
    assert pre.clientProviders - {c} == pre.clientProviders;
  }

  lemma UnregisteredGone(pre: State, c: string, post: State)
    requires Unregistered(pre, c, post)
    ensures Consistent(post)
    ensures c !in post.clientModels && c !in post.clientInfos && c !in post.clientProviders
  {
  }

  ghost predicate ClientTablesSet(pre: State, post: State, c: string, p: string, list: seq<Option<ModelInfo>>)
  {
    && post.clientModels == pre.clientModels[c := RawIds(list)]
    && post.clientInfos == pre.clientInfos[c := FirstInfos(list)]
    && post.clientProviders == WithProvider(pre.clientProviders, c, p)
  }

  lemma TablesSettle(pre: State, post: State, c: string, p: string, list: seq<Option<ModelInfo>>)
    requires Consistent(pre) && RawIds(list) != [] && ClientTablesSet(pre, post, c, p, list)
    ensures TablesAfter(pre, post, c, p, RawIds(list), FirstInfos(list))
  {
    hide Total, ProviderTotal, RawIds, FirstInfos, Accurate;
    FirstInfosKeys(list);
  }

  ghost predicate FreshModel(pre: State, models: map<string, Registration>, p: string, list: seq<Option<ModelInfo>>,
                             id: string)
  {
    Lookup(models, id)
    == MissingPass(Lookup(pre.models, id), p, 0, multiset(RawIds(list))[id], InfoFor(FirstInfos(list), id))
  }

  lemma FreshModelAfter(pre: State, post: State, c: string, p: string, list: seq<Option<ModelInfo>>, id: string)
    requires Consistent(pre) && c !in pre.clientModels && FreshModel(pre, post.models, p, list, id)
    requires forall i :: i in RawIds(list) ==> i in FirstInfos(list)
    ensures ModelAfter(pre, post, c, p, RawIds(list), FirstInfos(list), id)
  {
    hide Grow, Exchanged, Consistent, RawIds, FirstInfos;
    var o, b := Lookup(pre.models, id), multiset(RawIds(list))[id];
    ShareBound(pre, c, id);
    CountNonNegative(pre, id);
    if b > 0 {
      assert id in RawIds(list);
      GrowMeans(o, ProviderOf(pre.clientProviders, c), p, FirstInfos(list)[id], b);
    }
  }

  lemma FreshSettles(pre: State, post: State, c: string, p: string, list: seq<Option<ModelInfo>>)
    requires Consistent(pre) && c !in pre.clientModels && RawIds(list) != [] && ClientTablesSet(pre, post, c, p, list)
    requires forall id :: FreshModel(pre, post.models, p, list, id)
    ensures Registered(pre, c, p, list, post) && Consistent(post)
  {
    hide Consistent, TablesAfter, ModelAfter, FreshModel, RawIds, FirstInfos;
    TablesSettle(pre, post, c, p, list);
    FirstInfosKeys(list);
    forall id
      ensures ModelAfter(pre, post, c, p, RawIds(list), FirstInfos(list), id)
    {
      FreshModelAfter(pre, post, c, p, list, id);
    }
    AllSettle(pre, post, c, p, RawIds(list), FirstInfos(list));
  }

  ghost predicate ReconciledModel(pre: State, models: map<string, Registration>, c: string, p: string,
                                  list: seq<Option<ModelInfo>>, id: string)
  {
    Lookup(models, id)
    == Reconcile(Lookup(pre.models, id), c, ProviderOf(pre.clientProviders, c), Mult(pre.clientModels, c, id),
                 p, multiset(RawIds(list))[id], InfoFor(FirstInfos(list), id))
  }

  lemma ReconciledModelAfter(pre: State, post: State, c: string, p: string, list: seq<Option<ModelInfo>>, id: string)
    requires Consistent(pre) && c in pre.clientModels && ReconciledModel(pre, post.models, c, p, list, id)
    requires forall i :: i in RawIds(list) ==> i in FirstInfos(list)
    ensures ModelAfter(pre, post, c, p, RawIds(list), FirstInfos(list), id)
  {
    hide Reconcile, Exchanged, Consistent, RawIds, FirstInfos;
    var q, o := ProviderOf(pre.clientProviders, c), Lookup(pre.models, id);
    var a, b, info := Mult(pre.clientModels, c, id), multiset(RawIds(list))[id], InfoFor(FirstInfos(list), id);
    ShareBound(pre, c, id);
    CountNonNegative(pre, id);
    if b > 0 {
      assert id in RawIds(list);
      ReconcileExchanges(o, c, q, a, p, b, info);
    } else if a > 0 {
      ReconcileLeaves(o, c, q, a, p, info);
    } else {
      ReconcileIdle(o, c, q, p, info);
    }
  }

  lemma ReconcileSettles(pre: State, post: State, c: string, p: string, list: seq<Option<ModelInfo>>)
    requires Consistent(pre) && c in pre.clientModels && RawIds(list) != [] && ClientTablesSet(pre, post, c, p, list)
    requires forall id :: ReconciledModel(pre, post.models, c, p, list, id)
    ensures Registered(pre, c, p, list, post) && Consistent(post)
  {
    hide Consistent, TablesAfter, ModelAfter, ReconciledModel, RawIds, FirstInfos;
    TablesSettle(pre, post, c, p, list);
    FirstInfosKeys(list);
    forall id
      ensures ModelAfter(pre, post, c, p, RawIds(list), FirstInfos(list), id)
    {
      ReconciledModelAfter(pre, post, c, p, list, id);
    }
    AllSettle(pre, post, c, p, RawIds(list), FirstInfos(list));
  }

  /** What RegisterClient does with a list that names a model: the client tables are set, and every model is either
      added to or, for a client seen before, run through the passes. */
  ghost predicate RegisterStep(pre: State, c: string, p: string, list: seq<Option<ModelInfo>>, post: State)
  {
    && RawIds(list) != [] && ClientTablesSet(pre, post, c, p, list)
    && (c !in pre.clientModels ==> forall id :: FreshModel(pre, post.models, p, list, id))
    && (c in pre.clientModels ==> forall id :: ReconciledModel(pre, post.models, c, p, list, id))
  }

  lemma RegisterStepSettles(pre: State, c: string, p: string, list: seq<Option<ModelInfo>>, post: State)
    requires Consistent(pre) && RegisterStep(pre, c, p, list, post)
    ensures Registered(pre, c, p, list, post) && Consistent(post)
  {
    hide Consistent, ClientTablesSet, FreshModel, ReconciledModel, Registered, RawIds;
    if c in pre.clientModels {
      ReconcileSettles(pre, post, c, p, list);
    } else {
      FreshSettles(pre, post, c, p, list);
    }
  }

  /** What UnregisterClient does: every binding of the client is dropped, one entry of its list at a time. */
  ghost predicate UnregisterStep(pre: State, c: string, post: State)
  {
    if c !in pre.clientModels then post == pre
    else
      && post.clientModels == pre.clientModels - {c}
      && post.clientInfos == pre.clientInfos - {c}
      && post.clientProviders == pre.clientProviders - {c}
      && forall id :: DroppedModel(pre, post.models, c, pre.clientModels[c], id)
  }

  lemma UnregisterStepSettles(pre: State, c: string, post: State)
    requires Consistent(pre) && UnregisterStep(pre, c, post)
    ensures Unregistered(pre, c, post)
  {
    hide Consistent, DroppedModel, Unregistered;
    if c in pre.clientModels {
      UnregisterSettles(pre, post, c);
    } else {
      UnregisterAbsent(pre, c);
    }
  }

  lemma ReconcileIdle(o: Option<Registration>, c: string, p: string, p': string, info: ModelInfo)
    ensures Reconcile(o, c, p, 0, p', 0, info) == o
  {
  }

  lemma CountNonNegative(pre: State, id: string)
    requires Consistent(pre)
    ensures OrEmpty(Lookup(pre.models, id)).count >= 0
  {
  }

  lemma BoundModels(pre: State, c: string, oldCounts: map<string, int>)
    requires Consistent(pre) && c in pre.clientModels && CountsOf(oldCounts, pre.clientModels[c])
    ensures Holds(pre.models, oldCounts)
  {
    forall id | id in oldCounts
      ensures HoldsOne(pre.models, id, oldCounts[id])
    {
      assert At(oldCounts, id) == Mult(pre.clientModels, c, id);
      ShareBound(pre, c, id);
    }
  }
}
