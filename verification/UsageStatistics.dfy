/** The in-memory usage statistics: aggregates kept redundantly, exported as snapshots and imported from them. */
module UsageStatistics {
  import opened Strings
  import opened UsageKeys
  import opened UsageLog
  import opened UsageImport
  import opened UsageRoundTrip

  /** What a finished request reports. */
  datatype UsageRecord = UsageRecord(apiKey: string, model: string, provider: string, source: string, auth: string,
                           requestedAt: Stamp, latency: int, failed: bool, tokens: Tokens)

  /** What is known of the HTTP request a record belongs to. */
  datatype Request = Request(fullPath: string, present: bool, urlPath: string, verb: string, status: int)

  datatype StatisticsSnapshot = StatisticsSnapshot(
    requests: int, success: int, failure: int, tokens: int, apis: map<string, ApiStats>,
    requestsByDay: map<string, int>, requestsByHour: map<string, int>,
    tokensByDay: map<string, int>, tokensByHour: map<string, int>)

  function ResolveApi(request: Option<Request>, provider: string): string
  {
    var path :=
      if request.None? then ""
      else if request.value.fullPath == "" && request.value.present then request.value.urlPath
      else request.value.fullPath;
    if path != "" then
      (if request.value.present && request.value.verb != "" then request.value.verb + " " + path else path)
    else if provider != "" then provider else "unknown"
  }

  function ResolveSuccess(request: Option<Request>): bool
  {
    request.None? || request.value.status == 0 || request.value.status < 400
  }

  /** Whole milliseconds of a duration in nanoseconds. */
  function NormalLatency(latency: int): int
  {
    if latency <= 0 then 0 else latency / 1_000_000
  }

  /** The record as it is stored. */
  function Stored(r: UsageRecord, request: Option<Request>, now: Stamp): Event
  {
    Event(if r.apiKey == "" then ResolveApi(request, r.provider) else r.apiKey,
          if r.model == "" then "unknown" else r.model,
          Detail(if r.requestedAt.IsZero() then now else r.requestedAt, NormalLatency(r.latency), r.source, r.auth,
                 NormalTokens(r.tokens), r.failed || !ResolveSuccess(request)),
          false)
  }

  /** What a stored record says of the request: it failed when it was reported so or answered with a status from 400 on,
      it took that many whole milliseconds, and it stands under the API key and the model that were given. */
  lemma StoredMeans(r: UsageRecord, request: Option<Request>, now: Stamp)
    ensures var d := Stored(r, request, now).detail;
      && (d.failed <==> r.failed || (request.Some? && request.value.status >= 400))
      && d.latency * 1_000_000 <= (if r.latency > 0 then r.latency else 0) < (d.latency + 1) * 1_000_000
      && d.stamp == (if r.requestedAt.IsZero() then now else r.requestedAt)
      && d.source == r.source && d.auth == r.auth && d.tokens == NormalTokens(r.tokens)
    ensures r.apiKey != "" ==> Stored(r, request, now).api == r.apiKey
    ensures r.model != "" ==> Stored(r, request, now).model == r.model
    ensures r.model == "" ==> Stored(r, request, now).model == "unknown"
  {
    hide NormalTokens;
  }

  /** The path of a request as far as it is known: that of its route, else that of its URL. */
  predicate HasPath(request: Option<Request>, path: string)
  {
    && request.Some? && path != ""
    && (request.value.fullPath == path
        || (request.value.fullPath == "" && request.value.present && request.value.urlPath == path))
  }

  /** Without an API key the record stands under the verb and the path of its request, whichever of them are known, else
      under its provider. */
  lemma ApiNameMeans(r: UsageRecord, request: Option<Request>, now: Stamp, path: string)
    requires r.apiKey == ""
    ensures var api := Stored(r, request, now).api;
      && (HasPath(request, path) && request.value.present && request.value.verb != "" ==>
            api == request.value.verb + " " + path)
      && (HasPath(request, path) && !(request.value.present && request.value.verb != "") ==> api == path)
      && ((forall p :: !HasPath(request, p)) ==> api == if r.provider != "" then r.provider else "unknown")
  {
    hide NormalTokens;
    if request.Some? {
      assert HasPath(request, request.value.fullPath) <==> request.value.fullPath != "";
      assert HasPath(request, request.value.urlPath) <== request.value.fullPath == "" && request.value.present
        && request.value.urlPath != "";
    }
  }

  function FormatHour(h: Hour): string
  {
    if h < 10 then "0" + DecimalNat(h) else DecimalNat(h)
  }

  lemma FormatHourDigits(h: Hour)
    ensures |FormatHour(h)| == 2 && FormatHour(h)[0] == Digit(h / 10) && FormatHour(h)[1] == Digit(h % 10)
  {
    if h >= 10 {
      assert DecimalNat(h / 10) == [Digit(h / 10)];
    }
  }

  lemma FormatHourInjective(a: Hour, b: Hour)
    requires FormatHour(a) == FormatHour(b)
    ensures a == b
  {
    FormatHourDigits(a);
    FormatHourDigits(b);
  }

  /** An hourly table with the hours written out. */
  ghost predicate HoursWritten(out: map<string, int>, table: map<Hour, int>)
  {
    && (forall h :: h in table ==> FormatHour(h) in out && out[FormatHour(h)] == table[h])
    && (forall key :: key in out ==> exists h :: h in table && FormatHour(h) == key)
  }

  /** The keys of everything stored. */
  ghost predicate StoredKeys(seen: set<string>, apis: map<string, ApiStats>)
  {
    forall k :: k in seen <==> exists a, m, d ::
      a in apis && m in apis[a].models && d in apis[a].models[m].details && k == DedupKey(a, m, d)
  }

  lemma StoredKeysAreKeys(seen: set<string>, st: Stats, log: seq<Event>)
    requires Reflects(st, log) && StoredKeys(seen, st.apis)
    ensures seen == Keys(log)
  {
    hide TableOf, Details, DedupKey;
    forall k
      ensures k in seen <==> k in Keys(log)
    {
      if k in seen {
        var a, m, d :| a in st.apis && m in st.apis[a].models && d in st.apis[a].models[m].details
          && k == DedupKey(a, m, d);
        assert ApiReflects(st.apis[a], log, a) && ModelReflects(st.apis[a].models[m], log, a, m);
        InDetails(log, a, m, d);
        var e :| e in log && e.api == a && e.model == m && e.detail == d;
        var i :| 0 <= i < |log| && log[i] == e;
        assert KeyOf()(log[i]) == k;
      }
      if k in Keys(log) {
        var i :| 0 <= i < |log| && KeyOf()(log[i]) == k;
        var e := log[i];
        InDetails(log, e.api, e.model, e.detail);
        assert e in log;
        assert ApiReflects(st.apis[e.api], log, e.api)
          && ModelReflects(st.apis[e.api].models[e.model], log, e.api, e.model);
      }
    }
  }

  lemma StoredSettled(r: UsageRecord, request: Option<Request>, now: Stamp)
    requires !now.IsZero()
    ensures Settled(Stored(r, request, now).detail)
    ensures Stored(r, request, now).api != "" && Stored(r, request, now).model != ""
  {
    NormalTokensTwice(r.tokens);
  }

  lemma CandidateSettled(p: Slot, d: Detail, now: Stamp)
    requires !now.IsZero()
    ensures Settled(Candidate(p, d, now).detail)
    ensures Candidate(p, d, now).model != "" && (TrimSpace(p.0) != "" ==> Candidate(p, d, now).api != "")
  {
    NormalTokensTwice(d.tokens);
  }

  ghost predicate AllSettled(log: seq<Event>)
  {
    forall e :: e in log ==> Settled(e.detail)
  }

  class RequestStatistics {
    var totalRequests: int
    var successCount: int
    var failureCount: int
    var totalTokens: int
    var apis: map<string, ApiStats>
    var requestsByDay: map<string, int>
    var requestsByHour: map<Hour, int>
    var tokensByDay: map<string, int>
    var tokensByHour: map<Hour, int>

    /** Every record taken in, in order. */
    ghost var log: seq<Event>

    ghost function State(): Stats
      reads this
    {
      Stats(totalRequests, successCount, failureCount, totalTokens, apis, requestsByDay, requestsByHour, tokensByDay,
        tokensByHour)
    }

    ghost predicate Valid()
      reads this
    {
      Reflects(State(), log) && AllSettled(log)
    }

    constructor ()
      ensures Valid() && log == [] && State() == EMPTY_STATS
    {
      totalRequests, successCount, failureCount, totalTokens := 0, 0, 0, 0;
      apis, requestsByDay, requestsByHour, tokensByDay, tokensByHour := map[], map[], map[], map[], map[];
      log := [];
      new;
      EmptyReflects();
    }

    method Record(enabled: bool, r: UsageRecord, request: Option<Request>, now: Stamp)
      requires Valid() && !now.IsZero()
      modifies this
      ensures Valid()
      ensures log == if enabled then old(log) + [Stored(r, request, now)] else old(log)
      ensures apis.Keys == if enabled then old(apis).Keys + {Stored(r, request, now).api} else old(apis).Keys
    {
      if !enabled {
        return;
      }
      hide Reflects, Settled, NormalTokens, ResolveApi, ResolveSuccess, NormalLatency;
      var timestamp := if r.requestedAt.IsZero() then now else r.requestedAt;
      var tokens := NormalTokens(r.tokens);
      var statsKey := r.apiKey;
      if statsKey == "" {
        statsKey := ResolveApi(request, r.provider);
      }
      var failed := r.failed;
      if !failed {
        failed := !ResolveSuccess(request);
      }
      var model := r.model;
      if model == "" {
        model := "unknown";
      }
      var detail := Detail(timestamp, NormalLatency(r.latency), r.source, r.auth, tokens, failed);
      StoredSettled(r, request, now);
      Absorb(Event(statsKey, model, detail, false), tokens.total);
    }

    /** Every aggregate for one more record, of which `tokens` are charged. */
    method Absorb(e: Event, tokens: int)
      requires Valid() && Settled(e.detail) && tokens == Charged()(e)
      modifies this
      ensures Valid() && log == old(log) + [e] && apis.Keys == old(apis).Keys + {e.api}
    {
      hide Reflects, Settled;
      Count(e.detail, tokens);
      var stats := UpdateAPIStats(if e.api in apis then apis[e.api] else EMPTY_API, e.model, e.detail);
      apis := apis[e.api := stats];
      assert State() == Added(old(State()), e);
      RecordReflects(old(State()), old(log), e);
      log := log + [e];
    }

    /** The global, daily and hourly counters for one more record. */
    method Count(detail: Detail, tokens: int)
      modifies this`totalRequests, this`successCount, this`failureCount, this`totalTokens
      modifies this`requestsByDay, this`requestsByHour, this`tokensByDay, this`tokensByHour
      ensures totalRequests == old(totalRequests) + 1 && totalTokens == old(totalTokens) + tokens
      ensures successCount == old(successCount) + (if detail.failed then 0 else 1)
      ensures failureCount == old(failureCount) + (if detail.failed then 1 else 0)
      ensures requestsByDay == Bumped(old(requestsByDay), detail.stamp.day, 1)
      ensures requestsByHour == Bumped(old(requestsByHour), detail.stamp.hour, 1)
      ensures tokensByDay == Bumped(old(tokensByDay), detail.stamp.day, tokens)
      ensures tokensByHour == Bumped(old(tokensByHour), detail.stamp.hour, tokens)
    {
      totalRequests := totalRequests + 1;
      if detail.failed {
        failureCount := failureCount + 1;
      } else {
        successCount := successCount + 1;
      }
      totalTokens := totalTokens + tokens;
      var day, hour := detail.stamp.day, detail.stamp.hour;
      requestsByDay := requestsByDay[day := (if day in requestsByDay then requestsByDay[day] else 0) + 1];
      requestsByHour := requestsByHour[hour := (if hour in requestsByHour then requestsByHour[hour] else 0) + 1];
      tokensByDay := tokensByDay[day := (if day in tokensByDay then tokensByDay[day] else 0) + tokens];
      tokensByHour := tokensByHour[hour := (if hour in tokensByHour then tokensByHour[hour] else 0) + tokens];
    }

    /** One API's sums, and its model's, after one more record. */
    method UpdateAPIStats(stats: ApiStats, model: string, detail: Detail) returns (r: ApiStats)
      ensures r == ApiAdded(stats, model, detail)
      ensures r.requests == stats.requests + 1 && r.tokens == stats.tokens + detail.tokens.total
      ensures r.models.Keys == stats.models.Keys + {model}
      ensures forall m :: m in stats.models && m != model ==> r.models[m] == stats.models[m]
      ensures r.models[model].details == (if model in stats.models then stats.models[model].details else []) + [detail]
      ensures AddsUp(stats) ==> AddsUp(r)
    {
      if AddsUp(stats) {
        AddedAddsUp(stats, model, detail);
      }
      r := stats.(requests := stats.requests + 1, tokens := stats.tokens + detail.tokens.total);
      var ms := ModelStats(0, 0, []);
      if model in stats.models {
        ms := stats.models[model];
      }
      ms := ms.(requests := ms.requests + 1, tokens := ms.tokens + detail.tokens.total,
                details := ms.details + [detail]);
      r := r.(models := r.models[model := ms]);
    }

    method Snapshot() returns (s: StatisticsSnapshot)
      ensures s.requests == totalRequests && s.success == successCount && s.failure == failureCount
        && s.tokens == totalTokens
      ensures s.apis == apis && s.requestsByDay == requestsByDay && s.tokensByDay == tokensByDay
      ensures HoursWritten(s.requestsByHour, requestsByHour) && HoursWritten(s.tokensByHour, tokensByHour)
    {
      var requests := WriteHours(requestsByHour);
      var tokens := WriteHours(tokensByHour);
      s := StatisticsSnapshot(totalRequests, successCount, failureCount, totalTokens, apis,
                              requestsByDay, requests, tokensByDay, tokens);
    }

    method WriteHours(table: map<Hour, int>) returns (out: map<string, int>)
      ensures HoursWritten(out, table)
    {
      hide FormatHour;
      out := map[];
      var todo := table.Keys;
      while todo != {}
        invariant todo <= table.Keys
        invariant forall h :: h in table && h !in todo ==> FormatHour(h) in out && out[FormatHour(h)] == table[h]
        invariant forall key :: key in out ==> exists h :: h in table && h !in todo && FormatHour(h) == key
      {
        var h :| h in todo;
        todo := todo - {h};
        forall g | g in table && g !in todo && g != h
          ensures FormatHour(g) != FormatHour(h)
        {
          if FormatHour(g) == FormatHour(h) { FormatHourInjective(g, h); }
        }
        out := out[FormatHour(h) := table[h]];
      }
    }

    // ---------- import ----------

    method CollectSeen() returns (seen: set<string>)
      ensures StoredKeys(seen, apis)
    {
      seen := {};
      var todo := apis.Keys;
      ghost var done: map<string, ApiStats> := map[];
      while todo != {}
        invariant done.Keys == apis.Keys - todo && forall a :: a in done ==> done[a] == apis[a]
        invariant StoredKeys(seen, done)
      {
        var a :| a in todo;
        todo := todo - {a};
        var own := CollectApi(a, apis[a].models);
        SeenMore(seen, own, done, a, apis[a]);
        seen := seen + own;
        done := done[a := apis[a]];
      }
      assert done == apis;
    }

    method CollectApi(a: string, models: map<string, ModelStats>) returns (seen: set<string>)
      ensures forall k :: k in seen <==> exists m, d :: m in models && d in models[m].details && k == DedupKey(a, m, d)
    {
      hide DedupKey;
      seen := {};
      var todo := models.Keys;
      while todo != {}
        invariant todo <= models.Keys
        invariant forall k :: k in seen <==>
          exists m, d :: m in models && m !in todo && d in models[m].details && k == DedupKey(a, m, d)
      {
        var m :| m in todo;
        todo := todo - {m};
        var own := set d | d in models[m].details :: DedupKey(a, m, d);
        seen := seen + own;
      }
    }

    /** One imported record; a negative total is taken as nothing by the global, daily and hourly sums. */
    method RecordImported(e: Event)
      requires Valid() && e.imported && Settled(e.detail) && e.api in apis
      modifies this
      ensures Valid() && log == old(log) + [e] && apis.Keys == old(apis).Keys
    {
      hide Reflects, Settled;
      var totalTokens := e.detail.tokens.total;
      if totalTokens < 0 {
        totalTokens := 0;
      }
      Absorb(e, totalTokens);
    }

    /** The records of one model of a snapshot. */
    method MergeModel(slot: Slot, details: seq<Detail>, clock: nat -> Stamp, seen0: set<string>, added0: int,
                      skipped0: int,
                      ghost base: seq<Event>, ghost items: seq<Event>)
      returns (seen: set<string>, added: int, skipped: int)
      requires Valid() && (forall i :: !clock(i).IsZero()) && TrimSpace(slot.0) in apis
      requires log == Import(base, items) && seen0 == Keys(log)
      requires added0 == |log| - |base| && added0 + skipped0 == |items|
      modifies this
      ensures Valid() && apis.Keys == old(apis).Keys
      ensures log == Import(base, items + FromDetails(slot, details, clock, |items|)) && seen == Keys(log)
      ensures added == |log| - |base| && added + skipped == |items| + |details|
    {
      hide Valid, Settled, Candidate, Import, Keys;
      seen, added, skipped := seen0, added0, skipped0;
      assert items + FromDetails(slot, details[..0], clock, |items|) == items;
      for i := 0 to |details|
        invariant Valid() && apis.Keys == old(apis).Keys
        invariant log == Import(base, items + FromDetails(slot, details[..i], clock, |items|)) && seen == Keys(log)
        invariant added == |log| - |base| && added + skipped == |items| + i
      {
        ghost var sofar := items + FromDetails(slot, details[..i], clock, |items|);
        var e := Candidate(slot, details[i], clock(added + skipped));
        assert items + FromDetails(slot, details[..i + 1], clock, |items|) == sofar + [e];
        ImportAppend(base, sofar, e);
        var key := Key(e);
        if key in seen {
          skipped := skipped + 1;
          continue;
        }
        SeenOneMore(log, e);
        seen := seen + {key};
        CandidateSettled(slot, details[i], clock(added + skipped));
        CandidateApi(slot, details[i], clock(added + skipped));
        RecordImported(e);
        added := added + 1;
      }
      assert details[..|details|] == details;
    }

    /** The models of one API of a snapshot, in any order. */
    method MergeApi(a: string, offered: map<string, ApiStats>, clock: nat -> Stamp, seen0: set<string>, added0: int,
                    skipped0: int,
                    ghost base: seq<Event>, ghost order0: seq<Slot>)
      returns (seen: set<string>, added: int, skipped: int, ghost order: seq<Slot>)
      requires Valid() && (forall i :: !clock(i).IsZero()) && a in offered && TrimSpace(a) in apis
      requires log == Import(base, Items(offered, order0, clock)) && seen0 == Keys(log)
      requires added0 == |log| - |base| && added0 + skipped0 == |Items(offered, order0, clock)|
      requires Distinct(order0) && forall p :: p in order0 ==> p.0 != a
      modifies this
      ensures Valid() && apis.Keys == old(apis).Keys
      ensures log == Import(base, Items(offered, order, clock)) && seen == Keys(log)
      ensures added == |log| - |base| && added + skipped == |Items(offered, order, clock)|
      ensures Distinct(order) && forall p :: p in order <==> p in order0 || (p.0 == a && p.1 in offered[a].models)
    {
      hide Valid, Import, Keys, Items;
      seen, added, skipped, order := seen0, added0, skipped0, order0;
      var todo := offered[a].models.Keys;
      while todo != {}
        invariant Valid() && apis.Keys == old(apis).Keys && todo <= offered[a].models.Keys
        invariant log == Import(base, Items(offered, order, clock)) && seen == Keys(log)
        invariant added == |log| - |base| && added + skipped == |Items(offered, order, clock)|
        invariant Distinct(order)
        invariant forall p :: p in order <==> p in order0 || (p.0 == a && p.1 in offered[a].models && p.1 !in todo)
      {
        var m :| m in todo;
        todo := todo - {m};
        var details := offered[a].models[m].details;
        seen, added, skipped :=
          MergeModel((a, m), details, clock, seen, added, skipped, base, Items(offered, order, clock));
        ItemsAppend(offered, order, (a, m), clock);
        order := order + [(a, m)];
      }
    }

    /** Every record offered under a name is either added or recognised; what is added is the import of some visiting
        order. */
    method MergeSnapshot(snapshot: StatisticsSnapshot, clock: nat -> Stamp)
      returns (added: int, skipped: int, ghost order: seq<Slot>)
      requires Valid() && forall i :: !clock(i).IsZero()
      modifies this
      ensures Valid() && Enumerates(order, snapshot.apis)
      ensures log == Import(old(log), Items(snapshot.apis, order, clock))
      ensures apis.Keys == old(apis).Keys + ImportedNames(snapshot.apis)
      ensures added == |log| - |old(log)| && added + skipped == |Items(snapshot.apis, order, clock)|
    {
      hide Reflects, AllSettled, Import, Keys, Items;
      var seen := CollectSeen();
      StoredKeysAreKeys(seen, State(), log);
      NothingImported(log, snapshot.apis, clock);
      added, skipped, order := 0, 0, [];
      var offered := snapshot.apis;
      var todo := offered.Keys;
      while todo != {}
        invariant Valid() && todo <= offered.Keys
        invariant apis.Keys == old(apis).Keys + NamesBut(offered, todo)
        invariant log == Import(old(log), Items(offered, order, clock)) && seen == Keys(log)
        invariant added == |log| - |old(log)| && added + skipped == |Items(offered, order, clock)|
        invariant Distinct(order) && forall p :: p in order <==> p in Slots(offered) && p.0 !in todo
      {
        var a :| a in todo;
        ghost var rest := todo;
        todo := todo - {a};
        OneNameMore(offered, rest, a);
        var name := TrimSpace(a);
        if name == "" {
          continue;
        }
        if name !in apis {
          KnownApiReflects(State(), log, name);
          apis := apis[name := EMPTY_API];
        }
        seen, added, skipped, order := MergeApi(a, offered, clock, seen, added, skipped, old(log), order);
      }
    }
  }

  /** The names made known once only the APIs in `todo` are left. */
  ghost function NamesBut(offered: map<string, ApiStats>, todo: set<string>): set<string>
  {
    set a | a in offered && a !in todo && TrimSpace(a) != "" :: TrimSpace(a)
  }

  lemma OneNameMore(offered: map<string, ApiStats>, todo: set<string>, a: string)
    requires a in todo && a in offered
    ensures NamesBut(offered, todo - {a})
      == NamesBut(offered, todo) + (if TrimSpace(a) == "" then {} else {TrimSpace(a)})
  {
    hide TrimSpace;
    forall n
      ensures n in NamesBut(offered, todo - {a}) <==>
        n in NamesBut(offered, todo) || (TrimSpace(a) != "" && n == TrimSpace(a))
    {
      if b :| b in offered && b !in todo && TrimSpace(b) != "" && TrimSpace(b) == n {
        assert b !in todo - {a};
      }
      if TrimSpace(a) != "" && n == TrimSpace(a) {
        assert a !in todo - {a};
      }
    }
  }

  lemma NothingImported(log: seq<Event>, offered: map<string, ApiStats>, clock: nat -> Stamp)
    ensures Items(offered, [], clock) == [] && Import(log, []) == log
  {
  }

  lemma SeenOneMore(log: seq<Event>, e: Event)
    ensures Keys(log + [e]) == Keys(log) + {Key(e)}
  {
    KeysOfAppend(log, e, KeyOf());
  }

  lemma CandidateApi(slot: Slot, d: Detail, now: Stamp)
    ensures Candidate(slot, d, now).api == TrimSpace(slot.0) && Candidate(slot, d, now).imported
  {
  }

  lemma SeenMore(seen: set<string>, own: set<string>, done: map<string, ApiStats>, a: string, s: ApiStats)
    requires a !in done && StoredKeys(seen, done)
    requires forall k :: k in own <==>
      exists m, d :: m in s.models && d in s.models[m].details && k == DedupKey(a, m, d)
    ensures StoredKeys(seen + own, done[a := s])
  {
    hide DedupKey;
  }
}
