/** Closed forms of the registry's repeated single-model updates, and what they mean for the counters. */
module RegistrySteps {
  import opened Strings
  import opened RegistryModel

  function Min(a: int, b: int): int
  {
    if a < b then a else b
  }

  function Lookup(models: map<string, Registration>, m: string): Option<Registration>
  {
    if m in models then Some(models[m]) else None
  }

  const EMPTY_REGISTRATION := Registration(ModelInfo("", 0, ""), map[], 0, map[], map[], map[])

  /** n bindings leave provider p: its count falls by n and the provider goes when nothing is left. */
  function Detach(r: Registration, p: string, n: int): Registration
  {
    if p == "" || p !in r.providers then r
    else if r.providers[p] <= n then
      r.(providers := r.providers - {p}, infoByProvider := r.infoByProvider - {p})
    else r.(providers := r.providers[p := r.providers[p] - n])
  }

  /** Client c gives up n bindings made for provider p. */
  function Drop(r: Registration, c: string, p: string, n: int): Registration
  {
    Detach(r, p, n).(count := r.count - n, quota := r.quota - {c}, suspended := r.suspended - {c})
  }

  /** n bindings join for provider p, bringing their metadata. */
  function Grow(o: Option<Registration>, p: string, info: ModelInfo, n: int): Registration
  {
    var r := if o.Some? then o.value else EMPTY_REGISTRATION;
    var r := r.(count := r.count + n, info := info);
    if p == "" then r
    else r.(providers := r.providers[p := At(r.providers, p) + n], infoByProvider := r.infoByProvider[p := info])
  }

  /** n bindings of c given up one by one; the registration goes with its last binding. */
  function AfterDrops(o: Option<Registration>, c: string, p: string, n: int): Option<Registration>
  {
    if o.None? || n <= 0 then o
    else if o.value.count <= n then None
    else Some(Drop(o.value, c, p, n))
  }

  lemma DropAgain(r: Registration, c: string, p: string, n: int)
    requires n >= 1 && AllPositive(r.providers)
    ensures Drop(Drop(r, c, p, n), c, p, 1) == Drop(r, c, p, n + 1)
  {
    var once := Drop(r, c, p, n);
    assert once.quota - {c} == r.quota - {c};
    assert once.suspended - {c} == r.suspended - {c};
    if p != "" && p in r.providers && r.providers[p] > n {
      assert once.providers - {p} == r.providers - {p};
      if r.providers[p] == n + 1 {
        assert once.providers[p] == 1;
      }
    }
  }

  lemma GrowAgain(o: Option<Registration>, p: string, info: ModelInfo, n: int)
    ensures Grow(Some(Grow(o, p, info, n)), p, info, 1) == Grow(o, p, info, n + 1)
  {
  }

  /** The part of the invariant that speaks about one registration alone. */
  ghost predicate Tidy(r: Registration)
  {
    AllPositive(r.providers) && r.infoByProvider.Keys == r.providers.Keys
  }

  /** Provider p lost a bindings and p' won b; where `newInfo` is given, it is the new metadata. */
  ghost predicate Exchanged(r: Registration, r': Registration, p: string, a: int, p': string, b: int,
                            newInfo: Option<ModelInfo>)
  {
    && Tidy(r')
    && (forall q :: At(r'.providers, q) ==
          At(r.providers, q) - (if q == p && p != "" then a else 0) + (if q == p' && p' != "" then b else 0))
    && r'.info == (if newInfo.Some? then newInfo.value else r.info)
    && (forall q :: q in r'.infoByProvider ==>
          if newInfo.Some? && q == p' && p' != "" then r'.infoByProvider[q] == newInfo.value
          else q in r.infoByProvider && r'.infoByProvider[q] == r.infoByProvider[q])
  }

  lemma ExchangeTwice(r: Registration, r1: Registration, r2: Registration, p: string, a1: int, a2: int,
                      p': string, b1: int, b2: int, f1: Option<ModelInfo>, f2: Option<ModelInfo>)
    requires Exchanged(r, r1, p, a1, p', b1, f1) && Exchanged(r1, r2, p, a2, p', b2, f2)
    ensures Exchanged(r, r2, p, a1 + a2, p', b1 + b2, if f2.Some? then f2 else f1)
  {
  }

  ghost predicate MarksKept(r: Registration, r': Registration)
  {
    r'.quota == r.quota && r'.suspended == r.suspended
  }

  ghost predicate MarksCleared(r: Registration, r': Registration, c: string)
  {
    r'.quota == r.quota - {c} && r'.suspended == r.suspended - {c}
  }

  function OrEmpty(o: Option<Registration>): Registration
  {
    if o.Some? then o.value else EMPTY_REGISTRATION
  }

  lemma DetachMeans(r: Registration, p: string, n: int, p': string)
    requires Tidy(r) && n >= 1 && (p != "" ==> At(r.providers, p) >= n)
    ensures Exchanged(r, Detach(r, p, n), p, n, p', 0, None) && Tidy(Detach(r, p, n))
    ensures MarksKept(r, Detach(r, p, n)) && Detach(r, p, n).count == r.count
    ensures p != "" ==> At(Detach(r, p, n).providers, p) == At(r.providers, p) - n
  {
  }

  lemma DropMeans(r: Registration, c: string, p: string, n: int, p': string)
    requires Tidy(r) && n >= 1 && (p != "" ==> At(r.providers, p) >= n)
    ensures Exchanged(r, Drop(r, c, p, n), p, n, p', 0, None) && Tidy(Drop(r, c, p, n))
    ensures MarksCleared(r, Drop(r, c, p, n), c) && Drop(r, c, p, n).count == r.count - n
    ensures p != "" ==> At(Drop(r, c, p, n).providers, p) == At(r.providers, p) - n
  {
    DetachMeans(r, p, n, p');
  }

  lemma GrowMeans(o: Option<Registration>, p: string, p': string, info: ModelInfo, n: int)
    requires Tidy(OrEmpty(o)) && n >= 1
    ensures Exchanged(OrEmpty(o), Grow(o, p', info, n), p, 0, p', n, Some(info)) && Tidy(Grow(o, p', info, n))
    ensures MarksKept(OrEmpty(o), Grow(o, p', info, n)) && Grow(o, p', info, n).count == OrEmpty(o).count + n
    ensures p' != "" ==> p' in Grow(o, p', info, n).providers
  {
  }

  /** The metadata pass: fresh metadata and marks, and the overlap re-counted under a changed provider. */
  function Refresh(r: Registration, c: string, p: string, info: ModelInfo, overlap: int): Registration
  {
    var r := r.(info := info, quota := r.quota - {c}, suspended := r.suspended - {c});
    if p == "" then r
    else
      var r := r.(infoByProvider := r.infoByProvider[p := info]);
      if overlap <= 0 then r else r.(providers := r.providers[p := At(r.providers, p) + overlap])
  }

  function InfoFor(infos: map<string, ModelInfo>, id: string): ModelInfo
  {
    if id in infos then infos[id] else EMPTY_REGISTRATION.info
  }

  function DetachPass(o: Option<Registration>, p: string, a: int, b: int): Option<Registration>
  {
    if o.Some? && a > 0 && b > 0 then Some(Detach(o.value, p, Min(a, b))) else o
  }

  function GonePass(o: Option<Registration>, c: string, p: string, a: int, b: int): Option<Registration>
  {
    if b == 0 then AfterDrops(o, c, p, a) else o
  }

  function OveragePass(o: Option<Registration>, c: string, p: string, a: int, b: int): Option<Registration>
  {
    if b > 0 then AfterDrops(o, c, p, a - b) else o
  }

  function MissingPass(o: Option<Registration>, p: string, a: int, b: int, info: ModelInfo): Option<Registration>
  {
    if b > a then Some(Grow(o, p, info, b - a)) else o
  }

  function RefreshPass(o: Option<Registration>, c: string, p: string, p': string, a: int, b: int,
                       info: ModelInfo): Option<Registration>
  {
    if o.Some? && b > 0 then Some(Refresh(o.value, c, p', info, if p != p' then Min(a, b) else 0)) else o
  }

  /** The five passes over one model that the client listed a times before and lists b times now. */
  function Reconcile(o: Option<Registration>, c: string, p: string, a: int, p': string, b: int,
                     info: ModelInfo): Option<Registration>
  {
    var o1 := if p != p' && p != "" then DetachPass(o, p, a, b) else o;
    var o2 := GonePass(o1, c, p, a, b);
    var o3 := OveragePass(o2, c, p, a, b);
    var o4 := MissingPass(o3, p', a, b, info);
    RefreshPass(o4, c, p, p', a, b, info)
  }

  lemma RefreshMeans(r: Registration, c: string, p: string, p': string, info: ModelInfo, overlap: int)
    requires overlap >= 0 && Tidy(r) && (p' != "" && overlap == 0 ==> p' in r.providers)
    ensures Exchanged(r, Refresh(r, c, p', info, overlap), p, 0, p', overlap, Some(info))
    ensures MarksCleared(r, Refresh(r, c, p', info, overlap), c) && Refresh(r, c, p', info, overlap).count == r.count
  {
  }

  /** A model the client no longer lists: only the second pass touches it. */
  lemma ReconcileLeaves(o: Option<Registration>, c: string, p: string, a: int, p': string, info: ModelInfo)
    requires a > 0 && o.Some? && o.value.count >= a && Tidy(o.value) && (p != "" ==> At(o.value.providers, p) >= a)
    ensures var o' := Reconcile(o, c, p, a, p', 0, info);
      if o.value.count == a then o' == None
      else
        && o'.Some? && o'.value.count == o.value.count - a
        && Exchanged(o.value, o'.value, p, a, p', 0, None)
        && MarksCleared(o.value, o'.value, c)
  {
    hide Drop, Exchanged, Tidy;
    if o.value.count > a { DropMeans(o.value, c, p, a, p'); }
  }

  /** A model the client still lists, after the passes that take bindings away. */
  lemma ReconcileSheds(o: Option<Registration>, c: string, p: string, a: int, p': string, b: int, info: ModelInfo)
    returns (o3: Option<Registration>, shed: int)
    requires a >= 0 && b > 0
    requires a > 0 ==> o.Some? && o.value.count >= a && (p != "" ==> At(o.value.providers, p) >= a)
    requires Tidy(OrEmpty(o))
    ensures Reconcile(o, c, p, a, p', b, info) == RefreshPass(MissingPass(o3, p', a, b, info), c, p, p', a, b, info)
    ensures shed == if p != p' && p != "" then a else if a > b then a - b else 0
    ensures Exchanged(OrEmpty(o), OrEmpty(o3), p, shed, p', 0, None) && Tidy(OrEmpty(o3))
    ensures OrEmpty(o3).count == OrEmpty(o).count - (if a > b then a - b else 0)
    ensures MarksKept(OrEmpty(o), OrEmpty(o3)) || MarksCleared(OrEmpty(o), OrEmpty(o3), c)
    ensures a > 0 ==> o3.Some? && (p == p' && p != "" ==> At(o3.value.providers, p) == At(o.value.providers, p) - shed)
  {
    hide Detach, Drop, Exchanged, Tidy, MissingPass, RefreshPass;
    var r := OrEmpty(o);
    var moved := if p != p' && p != "" && a > 0 then Min(a, b) else 0;
    var o1 := if moved > 0 then Some(Detach(o.value, p, moved)) else o;
    if moved > 0 { DetachMeans(o.value, p, moved, p'); } else { Unexchanged(r, p, p'); }
    o3, shed := o1, moved;
    if a > b {
      DropMeans(o1.value, c, p, a - b, p');
      o3, shed := Some(Drop(o1.value, c, p, a - b)), moved + a - b;
      ExchangeTwice(r, o1.value, o3.value, p, moved, a - b, p', 0, 0, None, None);
    }
  }

  /** For every split of old and new multiplicities the passes together move the counters by exactly a and b. */
  lemma ReconcileExchanges(o: Option<Registration>, c: string, p: string, a: int, p': string, b: int, info: ModelInfo)
    requires a >= 0 && b > 0
    requires a > 0 ==> o.Some? && o.value.count >= a && (p != "" ==> At(o.value.providers, p) >= a)
    requires Tidy(OrEmpty(o))
    ensures var r, o' := OrEmpty(o), Reconcile(o, c, p, a, p', b, info);
      && o'.Some? && o'.value.count == r.count - a + b
      && Exchanged(r, o'.value, p, a, p', b, Some(info))
      && MarksCleared(r, o'.value, c)
  {
    hide Grow, Refresh, Exchanged, Tidy, Reconcile;
    var r := OrEmpty(o);
    var o3, shed := ReconcileSheds(o, c, p, a, p', b, info);
    var grown := if b > a then b - a else 0;
    var o4 := MissingPass(o3, p', a, b, info);
    if b > a {
      GrowMeans(o3, p, p', info, grown);
      ExchangeTwice(r, OrEmpty(o3), o4.value, p, shed, 0, p', 0, grown, None, Some(info));
    }
    RefreshExchanges(r, o4.value, c, p, a, shed, p', b, grown, info, if b > a then Some(info) else None);
  }

  /** The metadata pass, after the bindings have been taken away and added. */
  lemma RefreshExchanges(r: Registration, r4: Registration, c: string, p: string, a: int, shed: int, p': string,
                         b: int, grown: int,
                         info: ModelInfo, f: Option<ModelInfo>)
    requires a >= 0 && b > 0 && grown == (if b > a then b - a else 0)
    requires shed == if p != p' && p != "" then a else if a > b then a - b else 0
    requires Exchanged(r, r4, p, shed, p', grown, f) && Tidy(r4)
    requires p' != "" && (p == p' || Min(a, b) == 0) ==> p' in r4.providers
    ensures Exchanged(r, Refresh(r4, c, p', info, if p != p' then Min(a, b) else 0), p, a, p', b, Some(info))
    ensures MarksCleared(r4, Refresh(r4, c, p', info, if p != p' then Min(a, b) else 0), c)
    ensures Refresh(r4, c, p', info, if p != p' then Min(a, b) else 0).count == r4.count
  {
    hide Refresh, Exchanged, Tidy;
    var overlap := if p != p' then Min(a, b) else 0;
    RefreshMeans(r4, c, p, p', info, overlap);
    var r' := Refresh(r4, c, p', info, overlap);
    ExchangeTwice(r, r4, r', p, shed, 0, p', grown, overlap, f, Some(info));
    if p == p' || p == "" {
      ExchangeShift(r, r', p, p', shed, grown + overlap, a, b, Some(info));
    }
  }

  lemma Unexchanged(r: Registration, p: string, p': string)
    requires Tidy(r)
    ensures Exchanged(r, r, p, 0, p', 0, None)
  {
  }

  /** Under one provider only the difference counts; under no provider the outflow does not. */
  lemma ExchangeShift(r: Registration, r': Registration, p: string, p': string, a: int, b: int, a': int, b': int,
                      newInfo: Option<ModelInfo>)
    requires Exchanged(r, r', p, a, p', b, newInfo)
    requires (p == "" && (p' == "" || b == b')) || (p == p' && b - a == b' - a')
    ensures Exchanged(r, r', p, a', p', b', newInfo)
  {
  }

  lemma DropStep(r: Registration, c: string, p: string, n: nat)
    requires AllPositive(r.providers) && r.count > n
    ensures AfterDrops(AfterDrops(Some(r), c, p, n), c, p, 1) == AfterDrops(Some(r), c, p, n + 1)
    ensures n > 0 ==> AllPositive(Drop(r, c, p, n).providers)
  {
    if n > 0 { DropAgain(r, c, p, n); }
  }

  lemma CountOneMore(counts: map<string, int>, ids: seq<string>, id: string)
    requires CountsOf(counts, ids)
    ensures CountsOf(counts[id := At(counts, id) + 1], ids + [id])
  {
    forall x
      ensures At(counts[id := At(counts, id) + 1], x) == multiset(ids + [id])[x]
    {
      assert At(counts, x) == multiset(ids)[x];
    }
  }

  /** Model id is registered with at least n bindings. */
  ghost predicate HoldsOne(models: map<string, Registration>, id: string, n: int)
  {
    id in models && models[id].count >= n && AllPositive(models[id].providers)
  }

  ghost predicate Holds(models: map<string, Registration>, counts: map<string, int>)
  {
    forall id :: id in counts ==> HoldsOne(models, id, counts[id])
  }

  lemma DetachHolds(before: map<string, Registration>, after: map<string, Registration>, oldCounts: map<string, int>,
                    p: string, newCounts: map<string, int>)
    requires Holds(before, oldCounts)
    requires forall id :: Lookup(after, id) == DetachPass(Lookup(before, id), p, At(oldCounts, id), At(newCounts, id))
    ensures Holds(after, oldCounts)
  {
    forall id | id in oldCounts
      ensures HoldsOne(after, id, oldCounts[id])
    {
      assert HoldsOne(before, id, oldCounts[id]);
      assert Lookup(after, id) == DetachPass(Lookup(before, id), p, At(oldCounts, id), At(newCounts, id));
    }
  }

  lemma GoneHolds(before: map<string, Registration>, after: map<string, Registration>, c: string,
                  oldCounts: map<string, int>,
                  p: string, newCounts: map<string, int>)
    requires Holds(before, oldCounts) && AllPositive(newCounts)
    requires forall id :: Lookup(after, id) == GonePass(Lookup(before, id), c, p, At(oldCounts, id), At(newCounts, id))
    ensures forall id :: id in oldCounts && id in newCounts ==> HoldsOne(after, id, oldCounts[id])
  {
    forall id | id in oldCounts && id in newCounts
      ensures HoldsOne(after, id, oldCounts[id])
    {
      assert HoldsOne(before, id, oldCounts[id]);
      assert Lookup(after, id) == GonePass(Lookup(before, id), c, p, At(oldCounts, id), At(newCounts, id));
    }
  }

  lemma CountsKeys(counts: map<string, int>, ids: seq<string>)
    requires CountsOf(counts, ids)
    ensures forall id :: id in counts <==> id in ids
  {
    forall id
      ensures id in counts <==> id in ids
    {
      assert At(counts, id) == multiset(ids)[id];
    }
  }
}
