/** The usage aggregates as sums over one log of records. */
module UsageLog {
  import opened UsageKeys
  import opened Sums

  datatype ModelStats = ModelStats(requests: int, tokens: int, details: seq<Detail>)

  datatype ApiStats = ApiStats(requests: int, tokens: int, models: map<string, ModelStats>)

  datatype Stats = Stats(
    requests: int, success: int, failure: int, tokens: int,
    apis: map<string, ApiStats>,
    requestsByDay: map<string, int>, requestsByHour: map<Hour, int>,
    tokensByDay: map<string, int>, tokensByHour: map<Hour, int>)

  const EMPTY_STATS := Stats(0, 0, 0, 0, map[], map[], map[], map[], map[])

  // ---------- sums over the log ----------

  ghost function SumLog(log: seq<Event>, w: Event -> int): int
  {
    if log == [] then 0 else SumLog(log[..|log| - 1], w) + w(log[|log| - 1])
  }

  lemma SumLogAppend(log: seq<Event>, e: Event, w: Event -> int)
    ensures SumLog(log + [e], w) == SumLog(log, w) + w(e)
  {
    assert (log + [e])[..|log|] == log;
  }

  lemma {:induction false} SumLogPlus(log: seq<Event>, u: Event -> int, v: Event -> int, w: Event -> int)
    requires forall e :: e in log ==> w(e) == u(e) + v(e)
    ensures SumLog(log, w) == SumLog(log, u) + SumLog(log, v)
  {
    if log != [] { SumLogPlus(log[..|log| - 1], u, v, w); }
  }

  lemma {:induction false} SumLogNonNegative(log: seq<Event>, w: Event -> int)
    requires forall e :: e in log ==> w(e) >= 0
    ensures SumLog(log, w) >= 0
    ensures SumLog(log, w) == 0 <==> forall e :: e in log ==> w(e) == 0
  {
    if log != [] {
      var front, last := log[..|log| - 1], log[|log| - 1];
      SumLogNonNegative(front, w);
      assert forall e :: e in log <==> e in front || e == last;
    }
  }

  function One(): Event -> int { (e: Event) => 1 }
  function Failure(): Event -> int { (e: Event) => if e.detail.failed then 1 else 0 }
  function Success(): Event -> int { (e: Event) => if e.detail.failed then 0 else 1 }

  /** The tokens a record names, which the sums per API take as they are. */
  function Raw(): Event -> int { (e: Event) => e.detail.tokens.total }

  /** The tokens the global, daily and hourly sums take: an imported negative total counts as nothing. */
  function Charged(): Event -> int
  {
    (e: Event) => if e.imported && e.detail.tokens.total < 0 then 0 else e.detail.tokens.total
  }

  function Forgiven(): Event -> int
  {
    (e: Event) => if e.imported && e.detail.tokens.total < 0 then -e.detail.tokens.total else 0
  }

  function DayOf(): Event -> string { (e: Event) => e.detail.stamp.day }
  function HourOf(): Event -> Hour { (e: Event) => e.detail.stamp.hour }
  function ApiOf(): Event -> string { (e: Event) => e.api }
  function PairOf(): Event -> (string, string) { (e: Event) => (e.api, e.model) }

  /** Only the records under key k weigh. */
  function Part<K(==)>(keyOf: Event -> K, k: K, w: Event -> int): Event -> int
  {
    e => if keyOf(e) == k then w(e) else 0
  }

  ghost function PartSums<K>(log: seq<Event>, keyOf: Event -> K, w: Event -> int): K -> int
  {
    k => SumLog(log, Part(keyOf, k, w))
  }

  ghost function KeysOf<K(!new)>(log: seq<Event>, keyOf: Event -> K): set<K>
  {
    set i | 0 <= i < |log| :: keyOf(log[i])
  }

  lemma KeysOfAppend<K(!new)>(log: seq<Event>, e: Event, keyOf: Event -> K)
    ensures KeysOf(log + [e], keyOf) == KeysOf(log, keyOf) + {keyOf(e)}
  {
    var more := log + [e];
    forall k | k in KeysOf(log, keyOf)
      ensures k in KeysOf(more, keyOf)
    {
      var i :| 0 <= i < |log| && keyOf(log[i]) == k;
      assert more[i] == log[i];
    }
    assert more[|log|] == e;
  }

  /** Split by any key, the parts add up to the whole. */
  lemma {:induction false} PartsAddUp<K(!new)>(log: seq<Event>, keyOf: Event -> K, w: Event -> int, keys: set<K>)
    requires forall e :: e in log ==> keyOf(e) in keys
    ensures Sum(keys, PartSums(log, keyOf, w)) == SumLog(log, w)
  {
    if log == [] {
      SumZero(keys, PartSums(log, keyOf, w));
    } else {
      var front, last := log[..|log| - 1], log[|log| - 1];
      PartsAddUp(front, keyOf, w, keys);
      SumChangeOne(keys, keyOf(last), PartSums(front, keyOf, w), PartSums(log, keyOf, w));
    }
  }

  // ---------- tables kept by key ----------

  function Bumped<K>(table: map<K, int>, k: K, n: int): map<K, int>
  {
    table[k := (if k in table then table[k] else 0) + n]
  }

  /** table holds, for every key that occurs and no other, the sum of the weights under it. */
  ghost predicate TableOf<K(!new)>(table: map<K, int>, log: seq<Event>, keyOf: Event -> K, w: Event -> int)
  {
    table.Keys == KeysOf(log, keyOf) && forall k :: k in table ==> table[k] == PartSums(log, keyOf, w)(k)
  }

  lemma {:induction false} NoKeyNoSum<K(!new)>(log: seq<Event>, keyOf: Event -> K, w: Event -> int, k: K)
    requires k !in KeysOf(log, keyOf)
    ensures SumLog(log, Part(keyOf, k, w)) == 0
  {
    if log != [] {
      var front, last := log[..|log| - 1], log[|log| - 1];
      assert log == front + [last];
      KeysOfAppend(front, last, keyOf);
      NoKeyNoSum(front, keyOf, w, k);
    }
  }

  lemma TableGrows<K(!new)>(table: map<K, int>, log: seq<Event>, e: Event, keyOf: Event -> K, w: Event -> int)
    requires TableOf(table, log, keyOf, w)
    ensures TableOf(Bumped(table, keyOf(e), w(e)), log + [e], keyOf, w)
  {
    KeysOfAppend(log, e, keyOf);
    var more := Bumped(table, keyOf(e), w(e));
    forall k | k in more
      ensures more[k] == SumLog(log + [e], Part(keyOf, k, w))
    {
      SumLogAppend(log, e, Part(keyOf, k, w));
      if k in table {
        assert table[k] == PartSums(log, keyOf, w)(k);
      } else {
        NoKeyNoSum(log, keyOf, w, k);
      }
    }
  }

  ghost function Entries<K>(table: map<K, int>): K -> int { k => if k in table then table[k] else 0 }

  lemma TableAddsUp<K(!new)>(table: map<K, int>, log: seq<Event>, keyOf: Event -> K, w: Event -> int)
    requires TableOf(table, log, keyOf, w)
    ensures Sum(table.Keys, Entries(table)) == SumLog(log, w)
  {
    forall e | e in log
      ensures keyOf(e) in table.Keys
    {
      var i :| 0 <= i < |log| && log[i] == e;
      assert keyOf(log[i]) in KeysOf(log, keyOf);
    }
    PartsAddUp(log, keyOf, w, table.Keys);
    SumSame(table.Keys, PartSums(log, keyOf, w), Entries(table));
  }

  lemma TableUnique<K(!new)>(a: map<K, int>, b: map<K, int>, log: seq<Event>, keyOf: Event -> K, w: Event -> int)
    requires TableOf(a, log, keyOf, w) && TableOf(b, log, keyOf, w)
    ensures a == b
  {
    assert forall k :: k in a ==> a[k] == PartSums(log, keyOf, w)(k) == b[k];
  }

  // ---------- details per API and model ----------

  /** The details stored under one API and model, in order. */
  ghost function Details(log: seq<Event>, api: string, model: string): seq<Detail>
  {
    if log == [] then []
    else
      var last := log[|log| - 1];
      Details(log[..|log| - 1], api, model) + (if last.api == api && last.model == model then [last.detail] else [])
  }

  lemma DetailsAppend(log: seq<Event>, e: Event, api: string, model: string)
    ensures Details(log + [e], api, model) ==
            Details(log, api, model) + (if e.api == api && e.model == model then [e.detail] else [])
  {
    assert (log + [e])[..|log|] == log;
  }

  ghost predicate ModelReflects(ms: ModelStats, log: seq<Event>, api: string, model: string)
  {
    && ms.details == Details(log, api, model) && ms.details != []
    && ms.requests == |ms.details|
    && ms.requests == SumLog(log, Part(PairOf(), (api, model), One()))
    && ms.tokens == SumLog(log, Part(PairOf(), (api, model), Raw()))
  }

  ghost predicate ApiReflects(s: ApiStats, log: seq<Event>, api: string)
  {
    && s.requests == SumLog(log, Part(ApiOf(), api, One()))
    && s.tokens == SumLog(log, Part(ApiOf(), api, Raw()))
    && (forall m :: m in s.models <==> Details(log, api, m) != [])
    && (forall m :: m in s.models ==> ModelReflects(s.models[m], log, api, m))
  }

  /** Every aggregate is the fold of the log. An API may be known without a record. */
  ghost predicate Reflects(st: Stats, log: seq<Event>)
  {
    && st.requests == |log|
    && st.success == SumLog(log, Success()) && st.failure == SumLog(log, Failure())
    && st.tokens == SumLog(log, Charged())
    && (forall e :: e in log ==> e.api in st.apis)
    && (forall a :: a in st.apis ==> ApiReflects(st.apis[a], log, a))
    && TableOf(st.requestsByDay, log, DayOf(), One()) && TableOf(st.requestsByHour, log, HourOf(), One())
    && TableOf(st.tokensByDay, log, DayOf(), Charged()) && TableOf(st.tokensByHour, log, HourOf(), Charged())
  }

  lemma EmptyReflects()
    ensures Reflects(EMPTY_STATS, [])
  {
  }

  // ---------- one more record ----------

  function ApiAdded(s: ApiStats, model: string, d: Detail): ApiStats
  {
    var ms := if model in s.models then s.models[model] else ModelStats(0, 0, []);
    ApiStats(s.requests + 1, s.tokens + d.tokens.total,
             s.models[model := ModelStats(ms.requests + 1, ms.tokens + d.tokens.total, ms.details + [d])])
  }

  const EMPTY_API := ApiStats(0, 0, map[])

  function ApiOrEmpty(apis: map<string, ApiStats>, api: string): ApiStats
  {
    if api in apis then apis[api] else EMPTY_API
  }

  /** All aggregates after one more record. */
  function Added(st: Stats, e: Event): Stats
  {
    Stats(st.requests + 1, st.success + Success()(e), st.failure + Failure()(e), st.tokens + Charged()(e),
          st.apis[e.api := ApiAdded(ApiOrEmpty(st.apis, e.api), e.model, e.detail)],
          Bumped(st.requestsByDay, DayOf()(e), 1), Bumped(st.requestsByHour, HourOf()(e), 1),
          Bumped(st.tokensByDay, DayOf()(e), Charged()(e)), Bumped(st.tokensByHour, HourOf()(e), Charged()(e)))
  }

  lemma {:induction false} UnknownApi(log: seq<Event>, api: string)
    requires forall e :: e in log ==> e.api != api
    ensures ApiReflects(EMPTY_API, log, api)
  {
    if log != [] {
      UnknownApi(log[..|log| - 1], api);
    }
  }

  lemma {:induction false} NoDetailsNoSums(log: seq<Event>, api: string, model: string)
    ensures |Details(log, api, model)| == SumLog(log, Part(PairOf(), (api, model), One()))
    ensures Details(log, api, model) == [] ==> SumLog(log, Part(PairOf(), (api, model), Raw())) == 0
  {
    if log != [] {
      NoDetailsNoSums(log[..|log| - 1], api, model);
    }
  }

  lemma ModelGrows(s: ApiStats, log: seq<Event>, e: Event, api: string, m: string)
    requires ApiReflects(s, log, api) && Details(log + [e], api, m) != []
    ensures m in (if e.api == api then ApiAdded(s, e.model, e.detail) else s).models
    ensures ModelReflects((if e.api == api then ApiAdded(s, e.model, e.detail) else s).models[m], log + [e], api, m)
  {
    DetailsAppend(log, e, api, m);
    SumLogAppend(log, e, Part(PairOf(), (api, m), One()));
    SumLogAppend(log, e, Part(PairOf(), (api, m), Raw()));
    NoDetailsNoSums(log, api, m);
  }

  lemma ApiGrows(s: ApiStats, log: seq<Event>, e: Event, api: string)
    requires ApiReflects(s, log, api)
    ensures ApiReflects(if e.api == api then ApiAdded(s, e.model, e.detail) else s, log + [e], api)
  {
    hide ModelReflects;
    var s' := if e.api == api then ApiAdded(s, e.model, e.detail) else s;
    SumLogAppend(log, e, Part(ApiOf(), api, One()));
    SumLogAppend(log, e, Part(ApiOf(), api, Raw()));
    forall m
      ensures m in s'.models <==> Details(log + [e], api, m) != []
      ensures m in s'.models ==> ModelReflects(s'.models[m], log + [e], api, m)
    {
      DetailsAppend(log, e, api, m);
      if Details(log + [e], api, m) != [] {
        ModelGrows(s, log, e, api, m);
      }
    }
  }

  lemma RecordReflects(st: Stats, log: seq<Event>, e: Event)
    requires Reflects(st, log)
    ensures Reflects(Added(st, e), log + [e])
  {
    hide ApiReflects, TableOf, ApiAdded;
    var st', log' := Added(st, e), log + [e];
    SumLogAppend(log, e, Success());
    SumLogAppend(log, e, Failure());
    SumLogAppend(log, e, Charged());
    TableGrows(st.requestsByDay, log, e, DayOf(), One());
    TableGrows(st.requestsByHour, log, e, HourOf(), One());
    TableGrows(st.tokensByDay, log, e, DayOf(), Charged());
    TableGrows(st.tokensByHour, log, e, HourOf(), Charged());
    forall a | a in st'.apis
      ensures ApiReflects(st'.apis[a], log', a)
    {
      if a !in st.apis {
        UnknownApi(log, a);
      }
      ApiGrows(ApiOrEmpty(st.apis, a), log, e, a);
    }
  }

  /** Making an API known adds nothing to any sum. */
  lemma KnownApiReflects(st: Stats, log: seq<Event>, api: string)
    requires Reflects(st, log)
    ensures Reflects(st.(apis := st.apis[api := ApiOrEmpty(st.apis, api)]), log)
  {
    hide ApiReflects, TableOf;
    if api !in st.apis {
      UnknownApi(log, api);
    }
  }

  /** The log and the set of known APIs leave no choice. */
  lemma ReflectsUnique(a: Stats, b: Stats, log: seq<Event>)
    requires Reflects(a, log) && Reflects(b, log) && a.apis.Keys == b.apis.Keys
    ensures a == b
  {
    hide TableOf, ApiReflects;
    TableUnique(a.requestsByDay, b.requestsByDay, log, DayOf(), One());
    TableUnique(a.requestsByHour, b.requestsByHour, log, HourOf(), One());
    TableUnique(a.tokensByDay, b.tokensByDay, log, DayOf(), Charged());
    TableUnique(a.tokensByHour, b.tokensByHour, log, HourOf(), Charged());
    forall x | x in a.apis
      ensures x in b.apis && a.apis[x] == b.apis[x]
    {
      assert x in b.apis.Keys;
      ApiUnique(a.apis[x], b.apis[x], log, x);
    }
    assert a.apis == b.apis;
  }

  lemma ApiUnique(a: ApiStats, b: ApiStats, log: seq<Event>, api: string)
    requires ApiReflects(a, log, api) && ApiReflects(b, log, api)
    ensures a == b
  {
    forall m
      ensures m in a.models <==> m in b.models
      ensures m in a.models ==> a.models[m] == b.models[m]
    {
      assert m in a.models <==> Details(log, api, m) != [];
    }
    assert a.models == b.models;
  }

  // ---------- conservation ----------

  ghost function ApiRequests(st: Stats): string -> int { a => ApiOrEmpty(st.apis, a).requests }
  ghost function ApiTokens(st: Stats): string -> int { a => ApiOrEmpty(st.apis, a).tokens }

  ghost function ModelRequests(s: ApiStats): string -> int { m => if m in s.models then s.models[m].requests else 0 }
  ghost function ModelTokens(s: ApiStats): string -> int { m => if m in s.models then s.models[m].tokens else 0 }
  ghost function ModelDetails(s: ApiStats): string -> int { m => if m in s.models then |s.models[m].details| else 0 }

  /** What the details of one model say was used. */
  function TotalTokens(ds: seq<Detail>): int
  {
    if ds == [] then 0 else TotalTokens(ds[..|ds| - 1]) + ds[|ds| - 1].tokens.total
  }

  lemma {:induction false} TokensOfDetails(log: seq<Event>, api: string, model: string)
    ensures SumLog(log, Part(PairOf(), (api, model), Raw())) == TotalTokens(Details(log, api, model))
  {
    if log != [] {
      var front, last := log[..|log| - 1], log[|log| - 1];
      TokensOfDetails(front, api, model);
      hide TotalTokens;
      TotalOneMore(Details(front, api, model), last.detail);
      assert Details(front, api, model) + [] == Details(front, api, model);
    }
  }

  /** Within one API every sum is the sum over the models, and every model's the sum over its details. */
  ghost predicate AddsUp(s: ApiStats)
  {
    && s.requests == Sum(s.models.Keys, ModelRequests(s)) && s.requests == Sum(s.models.Keys, ModelDetails(s))
    && s.tokens == Sum(s.models.Keys, ModelTokens(s))
    && forall m :: m in s.models ==>
         s.models[m].requests == |s.models[m].details| && s.models[m].tokens == TotalTokens(s.models[m].details)
  }

  lemma ModelsAddUp(s: ApiStats, log: seq<Event>, api: string)
    requires ApiReflects(s, log, api)
    ensures AddsUp(s)
  {
    OneApi(log, api, One(), s.models.Keys);
    OneApi(log, api, Raw(), s.models.Keys);
    SumSame(s.models.Keys, InApi(log, api, One()), ModelRequests(s));
    SumSame(s.models.Keys, InApi(log, api, One()), ModelDetails(s));
    SumSame(s.models.Keys, InApi(log, api, Raw()), ModelTokens(s));
    forall m | m in s.models
      ensures s.models[m].tokens == TotalTokens(s.models[m].details)
    {
      TokensOfDetails(log, api, m);
    }
  }

  /** One more detail keeps an API's statistics adding up, whatever log they came from. */
  lemma AddedAddsUp(s: ApiStats, model: string, d: Detail)
    requires AddsUp(s)
    ensures AddsUp(ApiAdded(s, model, d))
  {
    hide Sum, TotalTokens;
    var s', ds := ApiAdded(s, model, d), if model in s.models then s.models[model].details else [];
    TotalOneMore(ds, d);
    assert s'.models.Keys == s.models.Keys + {model};
    OneModelMore(s.models.Keys, model, ModelRequests(s), ModelRequests(s'));
    OneModelMore(s.models.Keys, model, ModelDetails(s), ModelDetails(s'));
    OneModelMore(s.models.Keys, model, ModelTokens(s), ModelTokens(s'));
  }

  lemma TotalOneMore(ds: seq<Detail>, d: Detail)
    ensures TotalTokens([]) == 0 && TotalTokens(ds + [d]) == TotalTokens(ds) + d.tokens.total
  {
    assert (ds + [d])[..|ds|] == ds;
  }

  lemma OneModelMore(models: set<string>, model: string, f: string -> int, g: string -> int)
    requires forall m :: m in models && m != model ==> f(m) == g(m)
    requires model !in models ==> f(model) == 0
    ensures Sum(models + {model}, g) == Sum(models, f) + g(model) - f(model)
  {
    if model in models {
      assert models + {model} == models;
      SumChangeOne(models, model, f, g);
    } else {
      SumInsert(models, model, g);
      SumSame(models, f, g);
    }
  }

  ghost function InApi(log: seq<Event>, api: string, w: Event -> int): string -> int
  {
    m => SumLog(log, Part(PairOf(), (api, m), w))
  }

  lemma {:induction false} OneApi(log: seq<Event>, api: string, w: Event -> int, models: set<string>)
    requires forall m :: Details(log, api, m) != [] ==> m in models
    ensures Sum(models, InApi(log, api, w)) == SumLog(log, Part(ApiOf(), api, w))
  {
    if log == [] {
      SumZero(models, InApi(log, api, w));
    } else {
      var front, last := log[..|log| - 1], log[|log| - 1];
      forall m | Details(front, api, m) != []
        ensures m in models
      {
        assert Details(log, api, m) != [];
      }
      OneApi(front, api, w, models);
      if last.api == api {
        assert Details(log, api, last.model) != [];
        SumChangeOne(models, last.model, InApi(front, api, w), InApi(log, api, w));
      } else {
        SumSame(models, InApi(front, api, w), InApi(log, api, w));
      }
    }
  }

  /** However the requests are counted, the count is the same. */
  lemma RequestsConserved(st: Stats, log: seq<Event>)
    requires Reflects(st, log)
    ensures st.requests == |log| == st.success + st.failure
    ensures st.requests == Sum(st.apis.Keys, ApiRequests(st))
    ensures st.requests == Sum(st.requestsByDay.Keys, Entries(st.requestsByDay))
    ensures st.requests == Sum(st.requestsByHour.Keys, Entries(st.requestsByHour))
    ensures forall a :: a in st.apis ==> AddsUp(st.apis[a])
  {
    hide TableOf, ModelReflects;
    SumOfOnes(log);
    SumLogPlus(log, Success(), Failure(), One());
    ApisAddUp(st, log);
    TableAddsUp(st.requestsByDay, log, DayOf(), One());
    TableAddsUp(st.requestsByHour, log, HourOf(), One());
    forall a | a in st.apis
      ensures AddsUp(st.apis[a])
    {
      ModelsAddUp(st.apis[a], log, a);
    }
  }

  lemma {:induction false} SumOfOnes(log: seq<Event>)
    ensures SumLog(log, One()) == |log|
  {
    if log != [] { SumOfOnes(log[..|log| - 1]); }
  }

  lemma ApisAddUp(st: Stats, log: seq<Event>)
    requires Reflects(st, log)
    ensures Sum(st.apis.Keys, ApiRequests(st)) == SumLog(log, One())
    ensures Sum(st.apis.Keys, ApiTokens(st)) == SumLog(log, Raw())
  {
    hide TableOf, ModelReflects;
    PartsAddUp(log, ApiOf(), One(), st.apis.Keys);
    PartsAddUp(log, ApiOf(), Raw(), st.apis.Keys);
    SumSame(st.apis.Keys, PartSums(log, ApiOf(), One()), ApiRequests(st));
    SumSame(st.apis.Keys, PartSums(log, ApiOf(), Raw()), ApiTokens(st));
  }

  /** Tokens by day and by hour are the total; the APIs' tokens fall short of it by what imports were forgiven. */
  lemma TokensConserved(st: Stats, log: seq<Event>)
    requires Reflects(st, log)
    ensures st.tokens == Sum(st.tokensByDay.Keys, Entries(st.tokensByDay))
    ensures st.tokens == Sum(st.tokensByHour.Keys, Entries(st.tokensByHour))
    ensures st.tokens == Sum(st.apis.Keys, ApiTokens(st)) + SumLog(log, Forgiven())
    ensures st.tokens == Sum(st.apis.Keys, ApiTokens(st)) <==>
            forall e :: e in log ==> !(e.imported && e.detail.tokens.total < 0)
    ensures forall a :: a in st.apis ==> st.apis[a].tokens == Sum(st.apis[a].models.Keys, ModelTokens(st.apis[a]))
    ensures forall a, m :: a in st.apis && m in st.apis[a].models ==>
      st.apis[a].models[m].tokens == TotalTokens(st.apis[a].models[m].details)
  {
    hide TableOf, ModelReflects;
    TableAddsUp(st.tokensByDay, log, DayOf(), Charged());
    TableAddsUp(st.tokensByHour, log, HourOf(), Charged());
    ApisAddUp(st, log);
    SumLogPlus(log, Raw(), Forgiven(), Charged());
    SumLogNonNegative(log, Forgiven());
    forall a | a in st.apis
      ensures AddsUp(st.apis[a])
    {
      ModelsAddUp(st.apis[a], log, a);
    }
  }

  /** One imported record with a negative total: the global tokens take nothing, its API takes it as it is. */
  lemma NegativeTotalIsForgiven(d: Detail)
    requires d.tokens.total < 0
    ensures var e := Event("api", "model", d, true);
      var st := Added(EMPTY_STATS, e);
      Reflects(st, [e]) && st.tokens == 0 && Sum(st.apis.Keys, ApiTokens(st)) == d.tokens.total
  {
    var e := Event("api", "model", d, true);
    var st := Added(EMPTY_STATS, e);
    EmptyReflects();
    RecordReflects(EMPTY_STATS, [], e);
    assert [] + [e] == [e];
    TokensConserved(st, [e]);
    assert SumLog([e], Forgiven()) == Forgiven()(e) by { SumLogAppend([], e, Forgiven()); assert [] + [e] == [e]; }
  }
}
