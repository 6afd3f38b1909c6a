/** Exporting the statistics and importing them into an empty store gives the same statistics. */
module UsageRoundTrip {
  import opened Strings
  import opened Sums
  import opened UsageKeys
  import opened UsageLog
  import opened UsageImport

  // ---------- logs with the same details ----------

  /** Under every API and model the same details in the same order. */
  ghost predicate SameDetails(x: seq<Event>, y: seq<Event>)
  {
    forall a, m :: Details(x, a, m) == Details(y, a, m)
  }

  /** The weight does not look at how a record came. */
  ghost predicate Blind(log: seq<Event>, w: Event -> int)
  {
    forall e :: e in log ==> w(e) == w(e.(imported := true))
  }

  ghost function SumDetails(ds: seq<Detail>, a: string, m: string, w: Event -> int): int
  {
    if ds == [] then 0 else SumDetails(ds[..|ds| - 1], a, m, w) + w(Event(a, m, ds[|ds| - 1], true))
  }

  lemma {:induction false} PartIsDetails(log: seq<Event>, a: string, m: string, w: Event -> int)
    requires Blind(log, w)
    ensures SumLog(log, Part(PairOf(), (a, m), w)) == SumDetails(Details(log, a, m), a, m, w)
  {
    if log != [] {
      var front, last := log[..|log| - 1], log[|log| - 1];
      PartIsDetails(front, a, m, w);
      var ds := Details(front, a, m);
      if last.api == a && last.model == m {
        assert (ds + [last.detail])[..|ds|] == ds;
        assert Event(a, m, last.detail, true) == last.(imported := true);
      } else {
        assert ds + [] == ds;
      }
    }
  }

  lemma {:induction false} InDetails(log: seq<Event>, a: string, m: string, d: Detail)
    ensures d in Details(log, a, m) <==> exists e :: e in log && e.api == a && e.model == m && e.detail == d
  {
    if log != [] {
      var front, last := log[..|log| - 1], log[|log| - 1];
      InDetails(front, a, m, d);
      assert forall e :: e in log <==> e in front || e == last;
    }
  }

  lemma SameSum(x: seq<Event>, y: seq<Event>, w: Event -> int)
    requires SameDetails(x, y) && Blind(x, w) && Blind(y, w)
    ensures SumLog(x, w) == SumLog(y, w)
  {
    hide Details;
    var pairs := KeysOf(x, PairOf()) + KeysOf(y, PairOf());
    forall e | e in x || e in y ensures PairOf()(e) in pairs {
      if e in x { var i :| 0 <= i < |x| && x[i] == e; assert PairOf()(x[i]) in KeysOf(x, PairOf()); }
      else { var i :| 0 <= i < |y| && y[i] == e; assert PairOf()(y[i]) in KeysOf(y, PairOf()); }
    }
    PartsAddUp(x, PairOf(), w, pairs);
    PartsAddUp(y, PairOf(), w, pairs);
    forall p | p in pairs
      ensures PartSums(x, PairOf(), w)(p) == PartSums(y, PairOf(), w)(p)
    {
      PartIsDetails(x, p.0, p.1, w);
      PartIsDetails(y, p.0, p.1, w);
      assert Details(x, p.0, p.1) == Details(y, p.0, p.1);
    }
    SumSame(pairs, PartSums(x, PairOf(), w), PartSums(y, PairOf(), w));
  }

  lemma SameRecord(x: seq<Event>, y: seq<Event>, e: Event) returns (f: Event)
    requires SameDetails(x, y) && e in x
    ensures f in y && f.(imported := true) == e.(imported := true)
  {
    InDetails(x, e.api, e.model, e.detail);
    InDetails(y, e.api, e.model, e.detail);
    assert Details(x, e.api, e.model) == Details(y, e.api, e.model);
    f :| f in y && f.api == e.api && f.model == e.model && f.detail == e.detail;
  }

  ghost predicate BlindKey<K(!new)>(keyOf: Event -> K)
  {
    forall e: Event, f: Event :: e.(imported := true) == f.(imported := true) ==> keyOf(e) == keyOf(f)
  }

  lemma SameKeysOf<K(!new)>(x: seq<Event>, y: seq<Event>, keyOf: Event -> K)
    requires SameDetails(x, y) && BlindKey(keyOf)
    ensures KeysOf(x, keyOf) <= KeysOf(y, keyOf)
  {
    hide Details, SameDetails;
    forall k | k in KeysOf(x, keyOf)
      ensures k in KeysOf(y, keyOf)
    {
      var i :| 0 <= i < |x| && keyOf(x[i]) == k;
      var f := SameRecord(x, y, x[i]);
      var j :| 0 <= j < |y| && y[j] == f;
      assert keyOf(y[j]) == k;
    }
  }

  ghost predicate NoNegativeTotals(log: seq<Event>)
  {
    forall e :: e in log ==> e.detail.tokens.total >= 0
  }

  lemma SameTable<K(!new)>(table: map<K, int>, x: seq<Event>, y: seq<Event>, keyOf: Event -> K, w: Event -> int)
    requires TableOf(table, x, keyOf, w) && SameDetails(x, y) && SameDetails(y, x)
    requires BlindKey(keyOf) && Blind(x, w) && Blind(y, w)
    ensures TableOf(table, y, keyOf, w)
  {
    hide Details, SameDetails;
    SameKeysOf(x, y, keyOf);
    SameKeysOf(y, x, keyOf);
    forall k | k in table
      ensures table[k] == SumLog(y, Part(keyOf, k, w))
    {
      assert table[k] == PartSums(x, keyOf, w)(k);
      PartBlind(x, keyOf, k, w);
      PartBlind(y, keyOf, k, w);
      SameSum(x, y, Part(keyOf, k, w));
    }
  }

  lemma PartBlind<K(!new)>(log: seq<Event>, keyOf: Event -> K, k: K, w: Event -> int)
    requires BlindKey(keyOf) && Blind(log, w)
    ensures Blind(log, Part(keyOf, k, w))
  {
    forall e | e in log
      ensures Part(keyOf, k, w)(e) == Part(keyOf, k, w)(e.(imported := true))
    {
      assert keyOf(e) == keyOf(e.(imported := true));
    }
  }

  lemma SameApi(s: ApiStats, x: seq<Event>, y: seq<Event>, a: string)
    requires ApiReflects(s, x, a) && SameDetails(x, y)
    ensures ApiReflects(s, y, a)
  {
    hide Details;
    SameSum(x, y, Part(ApiOf(), a, One()));
    SameSum(x, y, Part(ApiOf(), a, Raw()));
    forall m
      ensures m in s.models <==> Details(y, a, m) != []
      ensures m in s.models ==> ModelReflects(s.models[m], y, a, m)
    {
      assert Details(x, a, m) == Details(y, a, m);
      SameSum(x, y, Part(PairOf(), (a, m), One()));
      SameSum(x, y, Part(PairOf(), (a, m), Raw()));
    }
  }

  lemma WeightsBlind(log: seq<Event>)
    requires NoNegativeTotals(log)
    ensures Blind(log, One()) && Blind(log, Success()) && Blind(log, Failure()) && Blind(log, Raw())
      && Blind(log, Charged())
  {
  }

  /** Statistics of one log are those of any other with the same details. */
  lemma SameStats(st: Stats, x: seq<Event>, y: seq<Event>)
    requires Reflects(st, x) && SameDetails(x, y) && SameDetails(y, x) && NoNegativeTotals(x) && NoNegativeTotals(y)
    ensures Reflects(st, y)
  {
    hide Details, SameDetails, ApiReflects, TableOf;
    WeightsBlind(x);
    WeightsBlind(y);
    SameSum(x, y, One());
    SumOfOnes(x);
    SumOfOnes(y);
    SameSum(x, y, Success());
    SameSum(x, y, Failure());
    SameSum(x, y, Charged());
    SameTable(st.requestsByDay, x, y, DayOf(), One());
    SameTable(st.requestsByHour, x, y, HourOf(), One());
    SameTable(st.tokensByDay, x, y, DayOf(), Charged());
    SameTable(st.tokensByHour, x, y, HourOf(), Charged());
    forall e | e in y ensures e.api in st.apis {
      var f := SameRecord(y, x, e);
    }
    forall a | a in st.apis ensures ApiReflects(st.apis[a], y, a) {
      SameApi(st.apis[a], x, y, a);
    }
  }

  // ---------- keys that do not repeat ----------

  ghost function KeyCount(log: seq<Event>, k: string): int
  {
    SumLog(log, Part(KeyOf(), k, One()))
  }

  lemma {:induction false} UniqueByCount(log: seq<Event>)
    ensures NoDuplicateKeys(log) <==> forall k :: KeyCount(log, k) <= 1
  {
    hide Key;
    if NoDuplicateKeys(log) {
      forall k
        ensures KeyCount(log, k) <= 1
      {
        if i :| 0 <= i < |log| && KeyOf()(log[i]) == k {
          SinglePart(log, i, One());
        } else {
          NoKeyNoSum(log, KeyOf(), One(), k);
        }
      }
    } else {
      var i, j :| 0 <= i < j < |log| && Key(log[i]) == Key(log[j]);
      RepeatCounts(log, i, j);
    }
  }

  lemma {:induction false} OnceCounts(log: seq<Event>, i: nat)
    requires i < |log|
    ensures KeyCount(log, Key(log[i])) >= 1
  {
    hide Key;
    var front := log[..|log| - 1];
    if i < |front| {
      OnceCounts(front, i);
    } else {
      SumLogNonNegative(front, Part(KeyOf(), Key(log[i]), One()));
    }
  }

  lemma {:induction false} RepeatCounts(log: seq<Event>, i: nat, j: nat)
    requires i < j < |log| && Key(log[i]) == Key(log[j])
    ensures KeyCount(log, Key(log[i])) >= 2
  {
    hide Key;
    var front := log[..|log| - 1];
    if j < |front| {
      RepeatCounts(front, i, j);
    } else {
      OnceCounts(front, i);
    }
  }

  lemma SameUnique(x: seq<Event>, y: seq<Event>)
    requires SameDetails(x, y) && NoDuplicateKeys(x)
    ensures NoDuplicateKeys(y)
  {
    hide Details, Key, SameDetails;
    UniqueByCount(x);
    UniqueByCount(y);
    forall k ensures KeyCount(y, k) <= 1 {
      KeyPartBlind(x, k);
      KeyPartBlind(y, k);
      SameSum(x, y, Part(KeyOf(), k, One()));
      assert KeyCount(x, k) <= 1;
    }
  }

  lemma KeyPartBlind(log: seq<Event>, k: string)
    ensures Blind(log, Part(KeyOf(), k, One()))
  {
  }

  lemma {:induction false} ImportUnique(items: seq<Event>)
    requires NoDuplicateKeys(items)
    ensures Import([], items) == items
  {
    hide Key;
    if items != [] {
      var front, last := items[..|items| - 1], items[|items| - 1];
      ImportUnique(front);
      forall i | 0 <= i < |front|
        ensures KeyOf()(front[i]) != Key(last)
      {
        assert front[i] == items[i];
      }
    }
  }

  // ---------- what an export offers ----------

  /** A record as the store keeps it. */
  predicate Settled(d: Detail)
  {
    NormalTokens(d.tokens) == d.tokens && d.latency >= 0 && !d.stamp.IsZero()
  }

  predicate Named(s: string)
  {
    s != "" && Trimmed(s)
  }

  /** Names an import keeps, and records it does not change. */
  predicate Exportable(apis: map<string, ApiStats>)
  {
    && (forall a :: a in apis ==> Named(a))
    && (forall a, m :: a in apis && m in apis[a].models ==> Named(m))
    && (forall a, m, d :: a in apis && m in apis[a].models && d in apis[a].models[m].details ==> Settled(d))
  }

  lemma {:induction false} DetailsConcat(x: seq<Event>, y: seq<Event>, a: string, m: string)
    ensures Details(x + y, a, m) == Details(x, a, m) + Details(y, a, m)
    decreases |y|
  {
    if y == [] {
      assert x + y == x;
    } else {
      assert (x + y)[..|x + y| - 1] == x + y[..|y| - 1];
      DetailsConcat(x, y[..|y| - 1], a, m);
    }
  }

  lemma DetailsEmpty(a: string, m: string)
    ensures Details([], a, m) == []
  {
  }

  lemma {:induction false} DetailsOfCandidates(p: Slot, ds: seq<Detail>, clock: nat -> Stamp, k: nat, a: string,
                                               m: string)
    requires Named(p.0) && Named(p.1) && forall d :: d in ds ==> Settled(d)
    ensures Details(FromDetails(p, ds, clock, k), a, m) == if p == (a, m) then ds else []
  {
    hide Settled, Named, Candidate, Details;
    if ds == [] {
      assert FromDetails(p, ds, clock, k) == [];
      assert Details([], a, m) == [] by { DetailsEmpty(a, m); }
    } else {
      var front, last := ds[..|ds| - 1], ds[|ds| - 1];
      assert front + [last] == ds;
      DetailsOfCandidates(p, front, clock, k, a, m);
      SettledKept(p, last, clock(k + |front|));
      var e := Event(p.0, p.1, last, true);
      assert FromDetails(p, ds, clock, k) == FromDetails(p, front, clock, k) + [e];
      DetailsAppend(FromDetails(p, front, clock, k), e, a, m);
    }
  }

  lemma SettledKept(p: Slot, d: Detail, now: Stamp)
    requires Named(p.0) && Named(p.1) && Settled(d)
    ensures Candidate(p, d, now) == Event(p.0, p.1, d, true)
  {
  }

  lemma {:induction false} DetailsOfItems(apis: map<string, ApiStats>, order: seq<Slot>, clock: nat -> Stamp,
                                          a: string, m: string)
    requires Exportable(apis) && Distinct(order) && forall p :: p in order ==> p in Slots(apis)
    ensures Details(Items(apis, order, clock), a, m) == if (a, m) in order then DetailsAt(apis, (a, m)) else []
  {
    if order != [] {
      var front, p := order[..|order| - 1], order[|order| - 1];
      assert forall q :: q in front ==> q in order;
      DetailsOfItems(apis, front, clock, a, m);
      assert p in order;
      var x := Items(apis, front, clock);
      DetailsConcat(x, FromDetails(p, DetailsAt(apis, p), clock, |x|), a, m);
      DetailsOfCandidates(p, DetailsAt(apis, p), clock, |x|, a, m);
      if p == (a, m) {
        assert p !in front;
      } else {
        assert (a, m) in order <==> (a, m) in front;
      }
    }
  }

  /** The export holds, under each API and model, exactly what the log has there. */
  lemma ExportSameDetails(st: Stats, log: seq<Event>, order: seq<Slot>, clock: nat -> Stamp)
    requires Reflects(st, log) && Exportable(st.apis) && Enumerates(order, st.apis)
    ensures SameDetails(log, Items(st.apis, order, clock)) && SameDetails(Items(st.apis, order, clock), log)
  {
    hide Details, TableOf, Exportable, Items;
    forall a, m
      ensures Details(log, a, m) == Details(Items(st.apis, order, clock), a, m)
    {
      DetailsOfItems(st.apis, order, clock, a, m);
      if a in st.apis {
        assert ApiReflects(st.apis[a], log, a);
        ExportableName(st.apis, a);
        assert (a, m) in order <==> m in st.apis[a].models;
      } else {
        UnknownApi(log, a);
        UnknownDetails(log, a, m);
      }
    }
  }

  lemma ExportableName(apis: map<string, ApiStats>, a: string)
    requires Exportable(apis) && a in apis
    ensures TrimSpace(a) == a != ""
  {
  }

  lemma UnknownDetails(log: seq<Event>, a: string, m: string)
    requires forall e :: e in log ==> e.api != a
    ensures Details(log, a, m) == []
  {
  }

  /** The APIs an import makes known. */
  function ImportedNames(apis: map<string, ApiStats>): set<string>
  {
    set a | a in apis && TrimSpace(a) != "" :: TrimSpace(a)
  }

  lemma SettledTotals(log: seq<Event>, items: seq<Event>)
    requires SameDetails(items, log) && NoNegativeTotals(log)
    ensures NoNegativeTotals(items)
  {
    hide SameDetails;
    forall e | e in items ensures e.detail.tokens.total >= 0 {
      var f := SameRecord(items, log, e);
    }
  }

  /** Export, then import into an empty store: every aggregate and every list of details is reproduced. */
  lemma ExportImportRoundTrip(st: Stats, log: seq<Event>, order: seq<Slot>, clock: nat -> Stamp, st': Stats)
    requires Reflects(st, log) && Exportable(st.apis) && NoNegativeTotals(log) && NoDuplicateKeys(log)
    requires Enumerates(order, st.apis)
    requires Reflects(st', Import([], Items(st.apis, order, clock))) && st'.apis.Keys == ImportedNames(st.apis)
    ensures st' == st
  {
    hide Items, Details, Reflects, NoDuplicateKeys, Enumerates, Exportable;
    var items := Items(st.apis, order, clock);
    ExportSameDetails(st, log, order, clock);
    SameUnique(log, items);
    ImportUnique(items);
    SettledTotals(log, items);
    SameStats(st, log, items);
    forall a ensures a in ImportedNames(st.apis) <==> a in st.apis {
      if a in st.apis { ExportableName(st.apis, a); }
      if a in ImportedNames(st.apis) {
        var b :| b in st.apis && TrimSpace(b) == a;
        ExportableName(st.apis, b);
      }
    }
    ReflectsUnique(st', st, items);
  }

  /** A second merge of one snapshot leaves every field of the store as it was. */
  lemma SecondMergeChangesNothing(log: seq<Event>, apis: map<string, ApiStats>, o1: seq<Slot>, c1: nat -> Stamp,
                                  o2: seq<Slot>, c2: nat -> Stamp, first: Stats, second: Stats)
    requires AllStamped(apis) && Enumerates(o1, apis) && Enumerates(o2, apis)
    requires Reflects(first, Import(log, Items(apis, o1, c1))) && ImportedNames(apis) <= first.apis.Keys
    requires Reflects(second, Import(Import(log, Items(apis, o1, c1)), Items(apis, o2, c2)))
    requires second.apis.Keys == first.apis.Keys + ImportedNames(apis)
    ensures second == first
  {
    ImportIdempotent(log, apis, o1, c1, o2, c2);
    hide Reflects, Import, Items, Enumerates, AllStamped;
    ReflectsUnique(second, first, Import(log, Items(apis, o1, c1)));
  }
}
