/** The model registry: reference counts kept incrementally, and a cache of listings that expires. */
module Registry {
  import opened Strings
  import opened RegistryModel
  import opened RegistryListing
  import opened RegistrySteps
  import opened RegistrySettle
  import opened Sorting

  class ModelRegistry {
    var models: map<string, Registration>
    var clientModels: map<string, seq<string>>
    var clientInfos: map<string, map<string, ModelInfo>>
    var clientProviders: map<string, string>
    var cache: map<string, CacheEntry>

    /** The latest time any call has read; the clock does not run backwards. */
    ghost var clock: int

    ghost function Tables(): State
      reads this
    {
      State(models, clientModels, clientInfos, clientProviders)
    }

    ghost predicate Valid()
      reads this
    {
      Consistent(Tables()) && CacheTrue(cache, models, clock)
    }

    constructor ()
      ensures Valid() && Tables() == EMPTY_STATE && cache == map[]
    {
      models, clientModels, clientInfos, clientProviders, cache := map[], map[], map[], map[], map[];
      clock := 0;
      new;
      EmptyConsistent();
    }

    // ---------- clients come and go ----------

    /** Afterwards the counters agree with the new client tables, whichever of the three paths was taken. */
    method RegisterClient(clientID: string, clientProvider: string, list: seq<Option<ModelInfo>>)
      requires Valid()
      modifies this
      ensures Valid() && clock == old(clock) && cache == map[]
      ensures RawIds(list) == [] ==> Unregistered(old(Tables()), clientID, Tables())
      ensures RawIds(list) == [] ==> UnregisterStep(old(Tables()), clientID, Tables())
      ensures RawIds(list) != [] ==> Registered(old(Tables()), clientID, ToLower(clientProvider), list, Tables())
      ensures RawIds(list) != [] ==> RegisterStep(old(Tables()), clientID, ToLower(clientProvider), list, Tables())
    {
      hide Consistent, CacheTrue, Registered, Unregistered, UnregisterStep, RawIds, FirstInfos, FreshModel,
        ReconciledModel;
      var provider := ToLower(clientProvider);
      var raw, newModels, newCounts := Collect(list);
      if raw == [] {
        RegisterNothing(clientID);
        return;
      }
      ghost var pre := Tables();
      UpdateModels(clientID, provider, list, raw, newModels, newCounts);
      clientModels := clientModels[clientID := raw];
      clientInfos := clientInfos[clientID := newModels];
      clientProviders := if provider != "" then clientProviders[clientID := provider] else clientProviders - {clientID};
      cache := map[];
      NothingCached(models, clock);
      RegisterStepSettles(pre, clientID, provider, list, Tables());
    }

    /** Every model, for a client seen for the first time or seen before. */
    method UpdateModels(clientID: string, provider: string, ghost list: seq<Option<ModelInfo>>, raw: seq<string>,
                        newModels: map<string, ModelInfo>, newCounts: map<string, int>)
      requires Consistent(Tables())
      requires raw == RawIds(list) && newModels == FirstInfos(list) && CountsOf(newCounts, raw)
      modifies this`models
      ensures clientID !in clientModels ==> forall id :: FreshModel(old(Tables()), models, provider, list, id)
      ensures clientID in clientModels ==>
        forall id :: ReconciledModel(old(Tables()), models, clientID, provider, list, id)
    {
      hide Consistent, FreshModel, ReconciledModel, RawIds, FirstInfos;
      if clientID !in clientModels {
        AddAll(list, raw, provider, newModels);
      } else {
        var oldCounts := CountIds(clientModels[clientID]);
        var oldProvider := if clientID in clientProviders then clientProviders[clientID] else "";
        ReconcileModels(clientID, oldCounts, oldProvider, list, newCounts, provider, newModels);
      }
    }

    /** A client without models is unregistered. */
    method RegisterNothing(clientID: string)
      requires Valid()
      modifies this
      ensures Valid() && clock == old(clock) && cache == map[]
      ensures Unregistered(old(Tables()), clientID, Tables()) && UnregisterStep(old(Tables()), clientID, Tables())
    {
      hide Consistent, CacheTrue, Unregistered, UnregisterStep;
      UnregisterInternal(clientID);
      UnregisteredGone(old(Tables()), clientID, Tables());
      ghost var gone := Tables();
      clientModels := clientModels - {clientID};
      clientInfos := clientInfos - {clientID};
      clientProviders := clientProviders - {clientID};
      assert Tables() == gone;
      cache := map[];
      NothingCached(models, clock);
    }

    method UnregisterClient(clientID: string)
      requires Valid()
      modifies this
      ensures Valid() && clock == old(clock) && cache == map[]
      ensures Unregistered(old(Tables()), clientID, Tables()) && UnregisterStep(old(Tables()), clientID, Tables())
    {
      UnregisterInternal(clientID);
      UnregisteredGone(old(Tables()), clientID, Tables());
      cache := map[];
      NothingCached(models, clock);
    }

    /** Give up every binding of the client, once for each time it listed the model. */
    method UnregisterInternal(clientID: string)
      requires Consistent(Tables())
      modifies this`models, this`clientModels, this`clientInfos, this`clientProviders
      ensures Unregistered(old(Tables()), clientID, Tables()) && UnregisterStep(old(Tables()), clientID, Tables())
    {
      hide Consistent, Unregistered;
      ghost var pre := Tables();
      if clientID !in clientModels {
        UnregisterAbsent(pre, clientID);
        return;
      }
      DropAll(clientID, clientModels[clientID], if clientID in clientProviders then clientProviders[clientID] else "");
      clientModels := clientModels - {clientID};
      clientInfos := clientInfos - {clientID};
      clientProviders := clientProviders - {clientID};
      UnregisterSettles(pre, Tables(), clientID);
    }

    method DropAll(clientID: string, list: seq<string>, provider: string)
      requires Consistent(Tables()) && clientID in clientModels && list == clientModels[clientID]
      requires provider == ProviderOf(clientProviders, clientID)
      modifies this`models
      ensures forall id :: DroppedModel(old(Tables()), models, clientID, list, id)
    {
      hide Consistent, Drop, AllPositive;
      ghost var pre := Tables();
      for k := 0 to |list|
        invariant forall id :: DroppedModel(pre, models, clientID, list[..k], id)
      {
        var id := list[k];
        assert list[..k + 1] == list[..k] + [id];
        StillBound(pre, clientID, list, k);
        assert DroppedModel(pre, models, clientID, list[..k], id);
        DropStep(pre.models[id], clientID, provider, multiset(list[..k])[id]);
        ghost var before := models;
        RemoveModelRegistration(clientID, id, provider);
        ghost var sofar := list[..k + 1];
        forall x
          ensures DroppedModel(pre, models, clientID, sofar, x)
        {
          assert DroppedModel(pre, before, clientID, list[..k], x);
        }
      }
      assert list[..|list|] == list;
    }

    // ---------- one model at a time ----------

    method AddModelRegistration(modelID: string, provider: string, info: ModelInfo)
      modifies this`models
      ensures models == if modelID == "" then old(models)
                        else old(models)[modelID := Grow(Lookup(old(models), modelID), provider, info, 1)]
    {
      if modelID == "" {
        return;
      }
      if modelID in models {
        var existing := models[modelID];
        existing := existing.(count := existing.count + 1, info := info);
        if provider != "" {
          existing := existing.(providers := existing.providers[provider := At(existing.providers, provider) + 1]);
          existing := existing.(infoByProvider := existing.infoByProvider[provider := info]);
        }
        models := models[modelID := existing];
        return;
      }
      var registration := Registration(info, map[], 1, map[], map[], map[]);
      if provider != "" {
        registration := registration.(providers := map[provider := 1], infoByProvider := map[provider := info]);
      }
      models := models[modelID := registration];
    }

    method RemoveModelRegistration(clientID: string, modelID: string, provider: string)
      requires modelID in models ==> AllPositive(models[modelID].providers)
      modifies this`models
      ensures models ==
        if modelID !in old(models) then old(models)
        else if old(models)[modelID].count <= 1 then old(models) - {modelID}
        else old(models)[modelID := Drop(old(models)[modelID], clientID, provider, 1)]
    {
      if modelID !in models {
        return;
      }
      var registration := models[modelID];
      registration := registration.(count := registration.count - 1);
      registration :=
        registration.(quota := registration.quota - {clientID}, suspended := registration.suspended - {clientID});
      if registration.count < 0 {
        registration := registration.(count := 0);
      }
      if provider != "" && provider in registration.providers {
        var count := registration.providers[provider];
        if count <= 1 {
          registration := registration.(providers := registration.providers - {provider});
          registration := registration.(infoByProvider := registration.infoByProvider - {provider});
        } else {
          registration := registration.(providers := registration.providers[provider := count - 1]);
        }
      }
      if registration.count <= 0 {
        models := models - {modelID};
      } else {
        models := models[modelID := registration];
      }
    }

    method RemoveTimes(clientID: string, id: string, provider: string, n: int)
      requires n >= 1 && id in models && models[id].count >= n && AllPositive(models[id].providers)
      modifies this`models
      ensures models == if old(models)[id].count == n then old(models) - {id}
                        else old(models)[id := Drop(old(models)[id], clientID, provider, n)]
    {
      ghost var before := models;
      var i := 0;
      while i < n
        invariant 0 <= i <= n
        invariant i == 0 ==> models == before
        invariant i > 0 ==> models == if before[id].count == i then before - {id}
                                      else before[id := Drop(before[id], clientID, provider, i)]
      {
        RemoveModelRegistration(clientID, id, provider);
        if i > 0 {
          DropAgain(before[id], clientID, provider, i);
        }
        i := i + 1;
      }
    }

    method AddTimes(id: string, provider: string, info: ModelInfo, n: int)
      requires n >= 1 && id != ""
      modifies this`models
      ensures models == old(models)[id := Grow(Lookup(old(models), id), provider, info, n)]
    {
      ghost var before := models;
      var i := 0;
      while i < n
        invariant 0 <= i <= n
        invariant i == 0 ==> models == before
        invariant i > 0 ==> models == before[id := Grow(Lookup(before, id), provider, info, i)]
      {
        AddModelRegistration(id, provider, info);
        if i > 0 {
          GrowAgain(Lookup(before, id), provider, info, i);
        }
        i := i + 1;
      }
    }

    // ---------- the passes of a registration ----------

    /** One walk over the submitted list: identifiers with repeats, first metadata, multiplicities. */
    method Collect(list: seq<Option<ModelInfo>>)
      returns (raw: seq<string>, newModels: map<string, ModelInfo>, newCounts: map<string, int>)
      ensures raw == RawIds(list) && newModels == FirstInfos(list)
      ensures CountsOf(newCounts, raw)
    {
      hide RawIds, FirstInfos, CountsOf;
      raw, newModels, newCounts := [], map[], map[];
      NothingCounted();
      assert list[0..] == list;
      for i := 0 to |list|
        invariant raw + RawIds(list[i..]) == RawIds(list)
        invariant FirstInfos(list[i..]) + newModels == FirstInfos(list)
        invariant CountsOf(newCounts, raw)
      {
        FirstInfosStep(list, i, newModels);
        var model := list[i];
        if model.None? || model.value.id == "" {
          continue;
        }
        var id := model.value.id;
        assert raw + ([id] + RawIds(list[i + 1..])) == (raw + [id]) + RawIds(list[i + 1..]);
        CountOneMore(newCounts, raw, id);
        raw := raw + [id];
        newCounts := newCounts[id := At(newCounts, id) + 1];
        if id in newModels {
          continue;
        }
        newModels := newModels[id := model.value];
      }
      NothingLeft(list);
    }

    method CountIds(ids: seq<string>) returns (counts: map<string, int>)
      ensures CountsOf(counts, ids)
    {
      counts := map[];
      for i := 0 to |ids|
        invariant CountsOf(counts, ids[..i])
      {
        assert ids[..i + 1] == ids[..i] + [ids[i]];
        CountOneMore(counts, ids[..i], ids[i]);
        counts := counts[ids[i] := At(counts, ids[i]) + 1];
      }
      assert ids[..|ids|] == ids;
    }

    /** A client seen for the first time: every entry is one addition. */
    method AddAll(ghost list: seq<Option<ModelInfo>>, raw: seq<string>, provider: string,
                  newModels: map<string, ModelInfo>)
      requires raw == RawIds(list) && newModels == FirstInfos(list)
      modifies this`models
      ensures forall id :: FreshModel(old(Tables()), models, provider, list, id)
    {
      hide RawIds, FirstInfos, Grow;
      FirstInfosKeys(list);
      ghost var before := models;
      for k := 0 to |raw|
        invariant forall id :: Lookup(models, id)
                            == MissingPass(Lookup(before, id), provider, 0, multiset(raw[..k])[id],
                              InfoFor(newModels, id))
      {
        var id := raw[k];
        assert raw[..k + 1] == raw[..k] + [id];
        ghost var n := multiset(raw[..k])[id];
        assert Lookup(models, id) == MissingPass(Lookup(before, id), provider, 0, n, newModels[id]);
        AddModelRegistration(id, provider, newModels[id]);
        if n > 0 {
          GrowAgain(Lookup(before, id), provider, newModels[id], n);
        }
      }
      assert raw[..|raw|] == raw;
    }

    /** A client seen before: the five passes, each in any order of its keys. */
    method ReconcileModels(clientID: string, oldCounts: map<string, int>, oldProvider: string,
                           ghost list: seq<Option<ModelInfo>>, newCounts: map<string, int>, provider: string,
                           newModels: map<string, ModelInfo>)
      requires Consistent(Tables()) && clientID in clientModels && CountsOf(oldCounts, clientModels[clientID])
      requires oldProvider == ProviderOf(clientProviders, clientID)
      requires CountsOf(newCounts, RawIds(list)) && newModels == FirstInfos(list)
      modifies this`models
      ensures forall id :: ReconciledModel(old(Tables()), models, clientID, provider, list, id)
    {
      hide RawIds, FirstInfos, Consistent, HoldsOne;
      FirstInfosKeys(list);
      CountsKeys(newCounts, RawIds(list));
      BoundModels(Tables(), clientID, oldCounts);
      ghost var m0 := models;
      if oldProvider != provider && oldProvider != "" {
        DetachOverlap(oldCounts, oldProvider, newCounts);
        DetachHolds(m0, models, oldCounts, oldProvider, newCounts);
      }
      ghost var m1 := models;
      RemoveGone(clientID, oldCounts, oldProvider, newCounts);
      ghost var m2 := models;
      GoneHolds(m1, m2, clientID, oldCounts, oldProvider, newCounts);
      RemoveOverage(clientID, oldCounts, oldProvider, newCounts);
      ghost var m3 := models;
      AddMissing(oldCounts, newCounts, provider, newModels);
      ghost var m4 := models;
      RefreshAll(clientID, oldCounts, oldProvider, newCounts, provider, newModels);
      forall id
        ensures ReconciledModel(old(Tables()), models, clientID, provider, list, id)
      {
        hide DetachPass, GonePass, OveragePass, MissingPass, RefreshPass;
        var a, b := At(oldCounts, id), At(newCounts, id);
        assert a == Mult(old(clientModels), clientID, id) && b == multiset(RawIds(list))[id];
        assert Lookup(m2, id) == GonePass(Lookup(m1, id), clientID, oldProvider, a, b);
        assert Lookup(m3, id) == OveragePass(Lookup(m2, id), clientID, oldProvider, a, b);
        assert Lookup(m4, id) == MissingPass(Lookup(m3, id), provider, a, b, InfoFor(newModels, id));
      }
    }

    method DetachOverlap(oldCounts: map<string, int>, oldProvider: string, newCounts: map<string, int>)
      requires oldProvider != "" && AllPositive(oldCounts) && AllPositive(newCounts)
      modifies this`models
      ensures forall id :: Lookup(models, id)
                        == DetachPass(Lookup(old(models), id), oldProvider, At(oldCounts, id), At(newCounts, id))
    {
      ghost var before := models;
      var todo := newCounts.Keys;
      while todo != {}
        invariant todo <= newCounts.Keys
        invariant forall id :: Lookup(models, id) == (
                    if id in todo then Lookup(before, id)
                    else DetachPass(Lookup(before, id), oldProvider, At(oldCounts, id), At(newCounts, id)))
      {
        var id :| id in todo;
        assert Lookup(models, id) == Lookup(before, id);
        todo := todo - {id};
        if id in oldCounts {
          var toRemove := if oldCounts[id] < newCounts[id] then oldCounts[id] else newCounts[id];
          if id in models && oldProvider in models[id].providers {
            var reg := models[id];
            var count := reg.providers[oldProvider];
            if count <= toRemove {
              reg := reg.(providers := reg.providers - {oldProvider});
              reg := reg.(infoByProvider := reg.infoByProvider - {oldProvider});
            } else {
              reg := reg.(providers := reg.providers[oldProvider := count - toRemove]);
            }
            models := models[id := reg];
          }
        }
      }
    }

    method RemoveGone(clientID: string, oldCounts: map<string, int>, oldProvider: string, newCounts: map<string, int>)
      requires AllPositive(oldCounts)
      requires AllPositive(newCounts) && Holds(models, oldCounts)
      modifies this`models
      ensures forall id :: Lookup(models, id)
                        == GonePass(Lookup(old(models), id), clientID, oldProvider, At(oldCounts, id),
                          At(newCounts, id))
    {
      ghost var before := models;
      var todo := oldCounts.Keys - newCounts.Keys;
      while todo != {}
        invariant todo <= oldCounts.Keys - newCounts.Keys
        invariant forall id :: Lookup(models, id) == (
                    if id in todo then Lookup(before, id)
                    else GonePass(Lookup(before, id), clientID, oldProvider, At(oldCounts, id), At(newCounts, id)))
      {
        var id :| id in todo;
        assert Lookup(models, id) == Lookup(before, id);
        todo := todo - {id};
        RemoveTimes(clientID, id, oldProvider, oldCounts[id]);
      }
    }

    method RemoveOverage(clientID: string, oldCounts: map<string, int>, oldProvider: string,
                         newCounts: map<string, int>)
      requires AllPositive(oldCounts) && AllPositive(newCounts)
      requires forall id :: id in oldCounts && id in newCounts ==> HoldsOne(models, id, oldCounts[id])
      modifies this`models
      ensures forall id :: Lookup(models, id)
                        == OveragePass(Lookup(old(models), id), clientID, oldProvider, At(oldCounts, id),
                          At(newCounts, id))
    {
      ghost var before := models;
      var todo := oldCounts.Keys;
      while todo != {}
        invariant todo <= oldCounts.Keys
        invariant forall id :: Lookup(models, id) == (
                    if id in todo then Lookup(before, id)
                    else OveragePass(Lookup(before, id), clientID, oldProvider, At(oldCounts, id), At(newCounts, id)))
      {
        var id :| id in todo;
        assert Lookup(models, id) == Lookup(before, id);
        todo := todo - {id};
        if id !in newCounts || oldCounts[id] <= newCounts[id] {
          continue;
        }
        RemoveTimes(clientID, id, oldProvider, oldCounts[id] - newCounts[id]);
      }
    }

    method AddMissing(oldCounts: map<string, int>, newCounts: map<string, int>, provider: string,
                      newModels: map<string, ModelInfo>)
      requires AllPositive(oldCounts) && newCounts.Keys == newModels.Keys && "" !in newCounts
      modifies this`models
      ensures forall id :: Lookup(models, id)
                        == MissingPass(Lookup(old(models), id), provider, At(oldCounts, id), At(newCounts, id),
                          InfoFor(newModels, id))
    {
      ghost var before := models;
      var todo := newCounts.Keys;
      while todo != {}
        invariant todo <= newCounts.Keys
        invariant forall id :: Lookup(models, id) == (
                    if id in todo then Lookup(before, id)
                    else MissingPass(Lookup(before, id), provider, At(oldCounts, id), At(newCounts, id),
                      InfoFor(newModels, id)))
      {
        var id :| id in todo;
        assert Lookup(models, id) == Lookup(before, id);
        todo := todo - {id};
        if newCounts[id] <= At(oldCounts, id) {
          continue;
        }
        AddTimes(id, provider, newModels[id], newCounts[id] - At(oldCounts, id));
      }
    }

    method RefreshAll(clientID: string, oldCounts: map<string, int>, oldProvider: string,
                      newCounts: map<string, int>, provider: string, newModels: map<string, ModelInfo>)
      requires AllPositive(oldCounts) && AllPositive(newCounts) && newCounts.Keys == newModels.Keys
      modifies this`models
      ensures forall id :: Lookup(models, id)
                        == RefreshPass(Lookup(old(models), id), clientID, oldProvider, provider,
                                       At(oldCounts, id), At(newCounts, id), InfoFor(newModels, id))
    {
      ghost var before := models;
      var todo := newCounts.Keys;
      while todo != {}
        invariant todo <= newCounts.Keys
        invariant forall id :: Lookup(models, id) == (
                    if id in todo then Lookup(before, id)
                    else RefreshPass(Lookup(before, id), clientID, oldProvider, provider,
                                     At(oldCounts, id), At(newCounts, id), InfoFor(newModels, id)))
      {
        var id :| id in todo;
        assert Lookup(models, id) == Lookup(before, id);
        todo := todo - {id};
        if id !in models {
          continue;
        }
        var reg := models[id].(info := newModels[id]);
        if provider != "" {
          reg := reg.(infoByProvider := reg.infoByProvider[provider := newModels[id]]);
        }
        reg := reg.(quota := reg.quota - {clientID}, suspended := reg.suspended - {clientID});
        if oldProvider != provider && provider != "" && id in oldCounts {
          var overlap := if oldCounts[id] < newCounts[id] then oldCounts[id] else newCounts[id];
          reg := reg.(providers := reg.providers[provider := At(reg.providers, provider) + overlap]);
        }
        models := models[id := reg];
      }
    }

    // ---------- transient marks ----------

    predicate Lists(clientID: string, modelID: string)
      reads this`clientModels
    {
      clientID in clientModels && modelID in clientModels[clientID]
    }

    method SetModelQuotaExceeded(clientID: string, modelID: string, now: int)
      requires Valid() && now >= clock
      modifies this`models, this`cache, this`clock
      ensures Valid() && clock == now
      ensures Lists(clientID, modelID) ==> MarksChanged(old(Tables()), Tables())
      ensures if modelID in old(models)
        then models == old(models)[modelID :=
          old(models)[modelID].(quota := old(models)[modelID].quota[clientID := now])] && cache == map[]
        else models == old(models) && cache == old(cache)
    {
      clock := now;
      if modelID in models {
        var registration := models[modelID];
        registration := registration.(quota := registration.quota[clientID := now]);
        models := models[modelID := registration];
        cache := map[];
        MarkedConsistent(old(Tables()), Tables());
      }
    }

    method ClearModelQuotaExceeded(clientID: string, modelID: string)
      requires Valid()
      modifies this`models, this`cache
      ensures Valid() && MarksChanged(old(Tables()), Tables())
      ensures if modelID in old(models)
        then models == old(models)[modelID := old(models)[modelID].(quota := old(models)[modelID].quota - {clientID})]
          && cache == map[]
        else models == old(models) && cache == old(cache)
    {
      if modelID in models {
        var registration := models[modelID];
        registration := registration.(quota := registration.quota - {clientID});
        models := models[modelID := registration];
        cache := map[];
        MarkedConsistent(old(Tables()), Tables());
      }
    }

    /** The first reason given for a suspension stays. */
    method SuspendClientModel(clientID: string, modelID: string, reason: string)
      requires Valid()
      modifies this`models, this`cache
      ensures Valid() && (Lists(clientID, modelID) ==> MarksChanged(old(Tables()), Tables()))
      ensures if clientID != "" && modelID != "" && modelID in old(models)
        && clientID !in old(models)[modelID].suspended
        then models == old(models)[modelID :=
          old(models)[modelID].(suspended := old(models)[modelID].suspended[clientID := reason])]
             && cache == map[]
        else models == old(models) && cache == old(cache)
    {
      if clientID == "" || modelID == "" || modelID !in models {
        return;
      }
      var registration := models[modelID];
      if clientID in registration.suspended {
        return;
      }
      registration := registration.(suspended := registration.suspended[clientID := reason]);
      models := models[modelID := registration];
      cache := map[];
      MarkedConsistent(old(Tables()), Tables());
    }

    method ResumeClientModel(clientID: string, modelID: string)
      requires Valid()
      modifies this`models, this`cache
      ensures Valid() && MarksChanged(old(Tables()), Tables())
      ensures if clientID != "" && modelID != "" && modelID in old(models) && clientID in old(models)[modelID].suspended
        then models
          == old(models)[modelID := old(models)[modelID].(suspended := old(models)[modelID].suspended - {clientID})]
             && cache == map[]
        else models == old(models) && cache == old(cache)
    {
      if clientID == "" || modelID == "" || modelID !in models {
        return;
      }
      var registration := models[modelID];
      if clientID !in registration.suspended {
        return;
      }
      registration := registration.(suspended := registration.suspended - {clientID});
      models := models[modelID := registration];
      cache := map[];
      MarkedConsistent(old(Tables()), Tables());
    }

    /** Exactly the marks whose window is over go, and no answer from now on can tell. */
    method CleanupExpiredQuotas(now: int)
      requires Valid() && now >= clock
      modifies this`models, this`cache, this`clock
      ensures Valid() && clock == now && MarksChanged(old(Tables()), Tables())
      ensures models.Keys == old(models).Keys
      ensures forall m :: m in models ==> models[m] == WithoutExpired(old(models)[m], now)
      ensures forall m, c :: m in models ==>
        (c in models[m].quota <==> c in old(models)[m].quota && now - old(models)[m].quota[c] < QUOTA_WINDOW)
      ensures forall m, t :: t >= now ==> CountOf(models, m, t) == CountOf(old(models), m, t)
      ensures forall t :: t >= now ==> Shown(models, t) == Shown(old(models), t)
    {
      clock := now;
      var invalidated := DropAllExpired(now);
      if invalidated {
        cache := map[];
      }
      MarkedConsistent(old(Tables()), Tables());
      CleanupInert(old(models), models, now);
    }

    method DropAllExpired(now: int) returns (invalidated: bool)
      modifies this`models
      ensures models.Keys == old(models).Keys
      ensures forall m :: m in models ==> models[m] == WithoutExpired(old(models)[m], now)
      ensures !invalidated ==> models == old(models)
    {
      hide WithoutExpired;
      invalidated := false;
      var todo := models.Keys;
      while todo != {}
        invariant todo <= old(models).Keys && models.Keys == old(models).Keys
        invariant forall m :: m in models ==>
          models[m] == if m in todo then old(models)[m] else WithoutExpired(old(models)[m], now)
        invariant !invalidated ==> models == old(models)
      {
        var m :| m in todo;
        assert models[m] == old(models)[m];
        todo := todo - {m};
        var registration, cleaned := DropExpired(models[m], now);
        if cleaned {
          models := models[m := registration];
          invalidated := true;
        }
      }
    }

    method DropExpired(reg: Registration, now: int) returns (r: Registration, cleaned: bool)
      ensures r == WithoutExpired(reg, now)
      ensures !cleaned ==> r == reg
    {
      r, cleaned := reg, false;
      var todo := reg.quota.Keys;
      while todo != {}
        invariant todo <= reg.quota.Keys
        invariant r == reg.(quota := r.quota)
        invariant r.quota == map c | c in reg.quota && (c in todo || now < reg.quota[c] + QUOTA_WINDOW) :: reg.quota[c]
        invariant !cleaned ==> r == reg
      {
        var c :| c in todo;
        todo := todo - {c};
        if now - reg.quota[c] >= QUOTA_WINDOW {
          r := r.(quota := r.quota - {c});
          cleaned := true;
        }
      }
    }

    // ---------- answers ----------

    /** Quota marks still pending, and the earliest recovery seen so far. */
    method ScanQuota(reg: Registration, now: int, expiresAt: Option<int>) returns (pending: nat, exp: Option<int>)
      ensures pending == |Pending(reg, now)|
      ensures Earliest(exp, expiresAt, RecoveryTimes(reg, now))
    {
      pending, exp := 0, expiresAt;
      var todo := reg.quota.Keys;
      ghost var counted: set<string>, times: set<int> := {}, {};
      while todo != {}
        invariant todo <= reg.quota.Keys
        invariant counted == set c | c in Pending(reg, now) && c !in todo
        invariant times == set c | c in counted :: reg.quota[c] + QUOTA_WINDOW
        invariant pending == |counted| && Earliest(exp, expiresAt, times)
      {
        var c :| c in todo;
        todo := todo - {c};
        var recoveryAt := reg.quota[c] + QUOTA_WINDOW;
        if now < recoveryAt {
          pending := pending + 1;
          counted, times := counted + {c}, times + {recoveryAt};
          if exp.None? || recoveryAt < exp.value {
            exp := Some(recoveryAt);
          }
        }
      }
      assert counted == Pending(reg, now);
    }

    method ScanSuspended(reg: Registration) returns (cooldown: nat, others: nat)
      ensures cooldown == |CoolingDown(reg)| && others == |OtherwiseSuspended(reg)|
    {
      cooldown, others := 0, 0;
      var todo := reg.suspended.Keys;
      ghost var cool: set<string>, other: set<string> := {}, {};
      while todo != {}
        invariant todo <= reg.suspended.Keys
        invariant cool == set c | c in CoolingDown(reg) && c !in todo
        invariant other == set c | c in OtherwiseSuspended(reg) && c !in todo
        invariant cooldown == |cool| && others == |other|
      {
        var c :| c in todo;
        todo := todo - {c};
        assert c !in cool && c !in other;
        if EqualFold(reg.suspended[c], "quota") {
          cooldown, cool := cooldown + 1, cool + {c};
          continue;
        }
        others, other := others + 1, other + {c};
      }
      assert cool == CoolingDown(reg) && other == OtherwiseSuspended(reg);
    }

    method ScanModel(reg: Registration, now: int, expiresAt: Option<int>) returns (available: bool, exp: Option<int>)
      ensures available == Available(reg, now)
      ensures Earliest(exp, expiresAt, RecoveryTimes(reg, now))
    {
      var pending;
      pending, exp := ScanQuota(reg, now, expiresAt);
      var cooldown, others := ScanSuspended(reg);
      var effective := reg.count - pending - others;
      if effective < 0 {
        effective := 0;
      }
      available := effective > 0 || (reg.count > 0 && (pending > 0 || cooldown > 0) && others == 0);
    }

    /** The listing computed afresh, in any order of the models, with the time it stays true until. */
    method BuildAvailableModels(handler: string, now: int) returns (out: seq<Listed>, expiresAt: Option<int>)
      requires Consistent(Tables())
      ensures IsListing(out, models, handler, now) && IsExpiry(expiresAt, models, now)
      ensures ListsOffered(out, Tables(), handler, now)
    {
      hide Consistent, ListedSet, IsExpiry, Sort, Sorted, OrdersMembers, ListsOffered;
      out, expiresAt := CollectAvailable(handler, now);
      IdsOrder(multiset(out));
      SortSorts(out, BeforeById);
      out := Sort(out, BeforeById);
      ListingMeans(out, Tables(), handler, now);
    }

    /** The listing before it is sorted. */
    method CollectAvailable(handler: string, now: int) returns (out: seq<Listed>, expiresAt: Option<int>)
      requires Consistent(Tables())
      ensures multiset(out) == multiset(ListedSet(models, handler, now)) && IsExpiry(expiresAt, models, now)
    {
      hide Consistent, ListedSet, IsExpiry, Available, Pending, Earliest, RecoveryTimes;
      ConsistentKeys(Tables());
      NothingListed(handler, now);
      out, expiresAt := [], None;
      var todo := models.Keys;
      ghost var done: map<string, Registration> := map[];
      while todo != {}
        invariant done.Keys == models.Keys - todo && forall m :: m in done ==> done[m] == models[m]
        invariant multiset(out) == multiset(ListedSet(done, handler, now)) && IsExpiry(expiresAt, done, now)
      {
        var m :| m in todo;
        todo := todo - {m};
        var registration := models[m];
        var available, exp := ScanModel(registration, now, expiresAt);
        ListOneMore(done, m, registration, handler, now);
        ExpireOneMore(done, m, registration, now, expiresAt, exp);
        expiresAt := exp;
        if available {
          AppendListed(out, ListedSet(done, handler, now), Listed(handler, registration.info));
          out := out + [Listed(handler, registration.info)];
        }
        done := done[m := registration];
      }
      assert done == models;
    }

    /** A cached listing is handed out only while it is what would be computed afresh. */
    method GetAvailableModels(handler: string, now: int) returns (out: seq<Listed>)
      requires Valid() && now >= clock
      modifies this`cache, this`clock
      ensures Valid() && clock == now
      ensures IsListing(out, models, handler, now) && ListsOffered(out, Tables(), handler, now)
    {
      clock := now;
      hide ListsOffered;
      if handler in cache && Alive(cache[handler], now) {
        out := cache[handler].models;
        ListingMeans(out, Tables(), handler, now);
        return;
      }
      var expiresAt;
      out, expiresAt := BuildAvailableModels(handler, now);
      ListingUntilExpiry(out, models, handler, now, expiresAt);
      cache := cache[handler := CacheEntry(out, expiresAt)];
    }

    method GetModelCount(modelID: string, now: int) returns (n: nat)
      ensures n == CountOf(models, modelID, now)
    {
      if modelID !in models {
        return 0;
      }
      var registration := models[modelID];
      var pending, _ := ScanQuota(registration, now, None);
      var result := registration.count - pending - |registration.suspended|;
      if result < 0 {
        return 0;
      }
      return result;
    }

    /** Providers with a positive count, busiest first, names ascending among equals. */
    method GetModelProviders(modelID: string) returns (names: seq<string>)
      requires Valid()
      ensures modelID !in models ==> names == []
      ensures modelID in models ==>
        multiset(names) == multiset(models[modelID].providers.Keys)
          && BusiestFirst(names, models[modelID].providers)
    {
      hide Consistent, CacheTrue, BusiestFirst;
      ConsistentKeys(Tables());
      names := [];
      if modelID !in models {
        return;
      }
      var counts := models[modelID].providers;
      var todo := counts.Keys;
      while todo != {}
        invariant todo <= counts.Keys
        invariant multiset(names) == multiset(counts.Keys - todo)
      {
        var p :| p in todo;
        var rest := todo - {p};
        assert counts.Keys - rest == (counts.Keys - todo) + {p};
        todo := rest;
        if counts[p] <= 0 {
          continue;
        }
        names := names + [p];
      }
      BusierOrders(counts, multiset(names));
      SortSorts(names, ByClients(counts));
      names := Sort(names, ByClients(counts));
      SortedIsBusiestFirst(names, counts);
    }

    /** Fails only when no model was usable when the listing was taken, and always for the gemini format, which carries
        no id. The clock is read for the listing and again for each count, the last time for the count found. */
    method GetFirstAvailableModel(handler: string, times: nat -> int) returns (r: Option<string>)
      requires Valid() && times(0) >= clock && forall i: nat, j: nat :: i <= j ==> times(i) <= times(j)
      modifies this`cache, this`clock
      ensures Valid() && exists k :: clock == times(k)
      ensures FirstUsable(r, models, handler, times(0), clock)
      ensures (forall i :: times(i) == times(0)) ==>
        (r.None? <==> handler == "gemini" || forall m :: CountOf(models, m, times(0)) == 0)
    {
      var listing := GetAvailableModels(handler, times(0));
      r := FirstWithClients(listing, handler, times);
      ghost var k: nat :| FirstUsable(r, models, handler, times(0), times(k));
      assert times(0) <= times(k);
      clock := times(k);
      if forall i :: times(i) == times(0) {
        FailsExactly(r, models, handler, times(0));
      }
    }

    method FirstWithClients(listing: seq<Listed>, handler: string, times: nat -> int) returns (r: Option<string>)
      requires Consistent(Tables()) && IsListing(listing, models, handler, times(0))
      requires forall i: nat, j: nat :: i <= j ==> times(i) <= times(j)
      ensures exists k: nat :: FirstUsable(r, models, handler, times(0), times(k))
    {
      hide Consistent, ListedSet, CountOf, Sorted, Sort, FirstUsable, OrdersMembers, AllDated;
      ConsistentKeys(Tables());
      var sorted := Sort(listing, NewerThan);
      if AllDated(models, handler, times(0)) {
        EntriesDated(models, handler, times(0));
        DatesOrder(multiset(listing));
        SortSorts(listing, NewerThan);
      }
      for i := 0 to |sorted|
        invariant handler != "gemini" ==> forall j :: 0 <= j < i ==> CountOf(models, sorted[j].info.id, times(0)) == 0
      {
        if handler == "gemini" {
          continue;
        }
        var count := GetModelCount(sorted[i].info.id, times(i + 1));
        CountGrows(models, sorted[i].info.id, times(0), times(i + 1));
        if count > 0 {
          FirstFound(sorted, i, models, handler, times(0), times(i + 1));
          return Some(sorted[i].info.id);
        }
      }
      NoneFound(sorted, models, handler, times(0));
      r := None;
      assert FirstUsable(r, models, handler, times(0), times(0));
    }
  }
}
