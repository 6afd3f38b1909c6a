/** Which models a registry shows at a given time, and when such a listing stops being true. */
module RegistryListing {
  import opened Strings
  import opened RegistryModel
  import opened Sorting
  import opened Sums

  /** Five minutes, in nanoseconds. */
  const QUOTA_WINDOW: int := 300_000_000_000

  /** A model converted for a handler; the conversion reads nothing but the metadata and the handler. */
  datatype Listed = Listed(handler: string, info: ModelInfo) {
    /** The "id" entry; the gemini format has none and reads as the empty string. */
    function Id(): string
    {
      if handler == "gemini" then "" else info.id
    }

    /** The "created" entry, where the format has one. */
    function Created(): Option<int>
    {
      if handler == "openai" then (if info.created > 0 then Some(info.created) else None)
      else if handler in {"claude", "kiro", "antigravity", "gemini"} then None
      else if info.created != 0 then Some(info.created) else None
    }
  }

  datatype CacheEntry = CacheEntry(models: seq<Listed>, expiresAt: Option<int>)

  /** The clients still inside their quota window. */
  function Pending(reg: Registration, now: int): set<string>
  {
    set c | c in reg.quota && now < reg.quota[c] + QUOTA_WINDOW
  }

  function CoolingDown(reg: Registration): set<string>
  {
    set c | c in reg.suspended && EqualFold(reg.suspended[c], "quota")
  }

  function OtherwiseSuspended(reg: Registration): set<string>
  {
    set c | c in reg.suspended && !EqualFold(reg.suspended[c], "quota")
  }

  predicate Available(reg: Registration, now: int)
  {
    var pending, others := |Pending(reg, now)|, |OtherwiseSuspended(reg)|;
    || reg.count - pending - others > 0
    || (reg.count > 0 && (pending > 0 || |CoolingDown(reg)| > 0) && others == 0)
  }

  /** How many clients can serve the model right now. */
  function EffectiveCount(reg: Registration, now: int): nat
  {
    var n := reg.count - |Pending(reg, now)| - |reg.suspended|;
    if n < 0 then 0 else n
  }

  function CountOf(models: map<string, Registration>, m: string, now: int): nat
  {
    if m in models then EffectiveCount(models[m], now) else 0
  }

  function Shown(models: map<string, Registration>, now: int): set<string>
  {
    set m | m in models && Available(models[m], now)
  }

  function ListedSet(models: map<string, Registration>, handler: string, now: int): set<Listed>
  {
    set m | m in Shown(models, now) :: Listed(handler, models[m].info)
  }

  predicate BeforeById(a: Listed, b: Listed)
  {
    Less(b.Id(), a.Id())
  }

  /** out lists exactly the available models, each once, identifiers in descending order. */
  ghost predicate IsListing(out: seq<Listed>, models: map<string, Registration>, handler: string, now: int)
  {
    multiset(out) == multiset(ListedSet(models, handler, now)) && Sorted(out, BeforeById)
  }

  /** exp is the earliest time at which some pending quota mark ends; None when nothing is pending. */
  ghost predicate IsExpiry(exp: Option<int>, models: map<string, Registration>, now: int)
  {
    && (forall m, c :: m in models && c in Pending(models[m], now) ==>
          exp.Some? && exp.value <= models[m].quota[c] + QUOTA_WINDOW)
    && (exp.Some? ==> exists m, c :: m in models && c in Pending(models[m], now)
                                     && exp.value == models[m].quota[c] + QUOTA_WINDOW)
  }

  ghost predicate KeyedById(models: map<string, Registration>)
  {
    forall m :: m in models ==> models[m].info.id == m
  }

  predicate Alive(entry: CacheEntry, now: int)
  {
    entry.expiresAt.None? || now < entry.expiresAt.value
  }

  /** From `clock` on, every cached listing is right for as long as it is alive. */
  ghost predicate CacheTrue(cache: map<string, CacheEntry>, models: map<string, Registration>, clock: int)
  {
    forall h, t :: h in cache && t >= clock && Alive(cache[h], t) ==> IsListing(cache[h].models, models, h, t)
  }

  lemma NothingCached(models: map<string, Registration>, clock: int)
    ensures CacheTrue(map[], models, clock)
  {
  }

  /** Until the earliest recovery nothing that is shown can change. */
  lemma ShownUntilExpiry(models: map<string, Registration>, now: int, exp: Option<int>, t: int)
    requires IsExpiry(exp, models, now)
    requires now <= t && (exp.None? || t < exp.value)
    ensures Shown(models, t) == Shown(models, now)
  {
    forall m | m in models
      ensures Available(models[m], t) == Available(models[m], now)
    {
      assert Pending(models[m], t) == Pending(models[m], now);
    }
  }

  lemma ListingUntilExpiry(out: seq<Listed>, models: map<string, Registration>, handler: string, now: int,
                           exp: Option<int>)
    requires IsListing(out, models, handler, now) && IsExpiry(exp, models, now)
    ensures forall t :: t >= now && Alive(CacheEntry(out, exp), t) ==> IsListing(out, models, handler, t)
  {
    forall t | t >= now && Alive(CacheEntry(out, exp), t)
      ensures IsListing(out, models, handler, t)
    {
      ShownUntilExpiry(models, now, exp, t);
    }
  }

  /** Clearing marks that have run out changes no later answer. */
  lemma ExpiredMarksAreInert(reg: Registration, reg': Registration, now: int, t: int)
    requires reg' == reg.(quota := reg'.quota) && now <= t
    requires forall c :: c in Pending(reg, now) ==> c in reg'.quota
    requires forall c :: c in reg'.quota ==> c in reg.quota && reg'.quota[c] == reg.quota[c]
    ensures Available(reg', t) == Available(reg, t)
    ensures EffectiveCount(reg', t) == EffectiveCount(reg, t)
  {
    assert Pending(reg', t) == Pending(reg, t);
    assert OtherwiseSuspended(reg') == OtherwiseSuspended(reg);
    assert CoolingDown(reg') == CoolingDown(reg);
  }

  lemma ConsistentKeys(st: State)
    requires Consistent(st)
    ensures KeyedById(st.models)
    ensures forall m :: m in st.models ==> AllPositive(st.models[m].providers)
  {
  }

  /** A model with a positive count is always shown. */
  lemma CountedIsShown(models: map<string, Registration>, m: string, now: int)
    requires CountOf(models, m, now) > 0
    ensures m in Shown(models, now)
  {
    var reg := models[m];
    assert OtherwiseSuspended(reg) <= reg.suspended.Keys;
    SubsetSize(OtherwiseSuspended(reg), reg.suspended.Keys);
  }

  lemma SubsetSize<T>(a: set<T>, b: set<T>)
    requires a <= b
    ensures |a| <= |b|
  {
    assert b == a + (b - a);
    assert |a + (b - a)| == |a| + |b - a|;
  }

  /** Changing nothing but transient marks keeps the counters accurate. */
  lemma MarkedConsistent(pre: State, post: State)
    requires Consistent(pre) && post == pre.(models := post.models)
    requires post.models.Keys == pre.models.Keys
    requires forall m :: m in pre.models ==>
      post.models[m] == pre.models[m].(quota := post.models[m].quota, suspended := post.models[m].suspended)
    ensures Consistent(post)
  {
    hide Total, ProviderTotal;
    forall m | m in post.models
      ensures Accurate(post.models[m], post.clientModels, post.clientProviders, m)
    {
      assert Accurate(pre.models[m], pre.clientModels, pre.clientProviders, m);
    }
  }

  function WithoutExpired(reg: Registration, now: int): Registration
  {
    reg.(quota := map c | c in reg.quota && now < reg.quota[c] + QUOTA_WINDOW :: reg.quota[c])
  }

  /** No answer at or after the cleanup depends on the marks it took away. */
  lemma CleanupInert(before: map<string, Registration>, after: map<string, Registration>, now: int)
    requires after.Keys == before.Keys
    requires forall m :: m in after ==> after[m] == WithoutExpired(before[m], now)
    ensures forall m, t :: t >= now ==> CountOf(after, m, t) == CountOf(before, m, t)
    ensures forall t :: t >= now ==> Shown(after, t) == Shown(before, t)
  {
    forall m, t | t >= now && m in after
      ensures EffectiveCount(after[m], t) == EffectiveCount(before[m], t)
      ensures Available(after[m], t) == Available(before[m], t)
    {
      ExpiredMarksAreInert(before[m], after[m], now, t);
    }
  }

  function RecoveryTimes(reg: Registration, now: int): set<int>
  {
    set c | c in Pending(reg, now) :: reg.quota[c] + QUOTA_WINDOW
  }

  /** exp is the least of the start value and the given times, where there are any. */
  ghost predicate Earliest(exp: Option<int>, start: Option<int>, times: set<int>)
  {
    && (forall t :: t in times ==> exp.Some? && exp.value <= t)
    && (start.Some? ==> exp.Some? && exp.value <= start.value)
    && (exp.Some? ==> exp == start || exp.value in times)
  }

  lemma NothingListed(handler: string, now: int)
    ensures ListedSet(map[], handler, now) == {} && IsExpiry(None, map[], now)
  {
  }

  lemma ListOneMore(done: map<string, Registration>, m: string, reg: Registration, handler: string, now: int)
    requires KeyedById(done) && m !in done && reg.info.id == m
    ensures ListedSet(done[m := reg], handler, now)
            == ListedSet(done, handler, now) + (if Available(reg, now) then {Listed(handler, reg.info)} else {})
    ensures Listed(handler, reg.info) !in ListedSet(done, handler, now)
  {
    hide Available;
    var more := done[m := reg];
    forall x | x in Shown(done, now)
      ensures x in Shown(more, now) && more[x] == done[x]
    {
    }
    forall x | x in Shown(more, now)
      ensures x in Shown(done, now) || (x == m && Available(reg, now))
    {
    }
    if Available(reg, now) {
      assert m in Shown(more, now);
    }
  }

  lemma AppendListed(out: seq<Listed>, s: set<Listed>, x: Listed)
    requires multiset(out) == multiset(s) && x !in s
    ensures multiset(out + [x]) == multiset(s + {x})
  {
  }

  lemma ExpireOneMore(done: map<string, Registration>, m: string, reg: Registration, now: int, start: Option<int>,
                      exp: Option<int>)
    requires m !in done && IsExpiry(start, done, now)
    requires Earliest(exp, start, RecoveryTimes(reg, now))
    ensures IsExpiry(exp, done[m := reg], now)
  {
    var more := done[m := reg];
    if exp.Some? {
      if exp == start {
        var x, c :| x in done && c in Pending(done[x], now) && start.value == done[x].quota[c] + QUOTA_WINDOW;
        assert x in more && c in Pending(more[x], now) && exp.value == more[x].quota[c] + QUOTA_WINDOW;
      } else {
        var c :| c in Pending(reg, now) && exp.value == reg.quota[c] + QUOTA_WINDOW;
        assert m in more && c in Pending(more[m], now);
      }
    }
    forall x, c | x in more && c in Pending(more[x], now)
      ensures exp.Some? && exp.value <= more[x].quota[c] + QUOTA_WINDOW
    {
      if x == m {
        assert reg.quota[c] + QUOTA_WINDOW in RecoveryTimes(reg, now);
      } else {
        assert x in done && c in Pending(done[x], now);
        assert start.Some? && start.value <= done[x].quota[c] + QUOTA_WINDOW;
      }
    }
  }

  // ---------- the order of a listing ----------

  lemma IdsOrder(s: multiset<Listed>)
    ensures OrdersMembers(s, BeforeById)
  {
    forall a, b | a in s && b in s && BeforeById(a, b)
      ensures !BeforeById(b, a)
    {
      LessAsymmetric(b.Id(), a.Id());
    }
    forall a, b, c | a in s && b in s && c in s && BeforeById(a, c)
      ensures BeforeById(a, b) || BeforeById(b, c)
    {
      LessTotal(b.Id(), a.Id());
      LessTotal(c.Id(), b.Id());
      if !BeforeById(a, b) && !BeforeById(b, c) && a.Id() != b.Id() && b.Id() != c.Id() {
        LessTransitive(a.Id(), b.Id(), c.Id());
        LessAsymmetric(a.Id(), c.Id());
      }
    }
  }

  /** Where entries carry an identifier, a state and a time admit only one listing. */
  lemma ListingUnique(a: seq<Listed>, b: seq<Listed>, models: map<string, Registration>, handler: string, now: int)
    requires KeyedById(models) && handler != "gemini"
    requires IsListing(a, models, handler, now) && IsListing(b, models, handler, now)
    ensures a == b
  {
    IdsOrder(multiset(a));
    forall x, y | x in multiset(a) && y in multiset(a) && !BeforeById(x, y) && !BeforeById(y, x)
      ensures x == y
    {
      LessTotal(x.Id(), y.Id());
      assert x in ListedSet(models, handler, now) && y in ListedSet(models, handler, now);
    }
    SortedUnique(a, b, BeforeById);
  }

  // ---------- what a listing and a count say about the clients ----------

  /** A model is listed whatever its quota marks as long as no client is suspended for another reason; with such clients
      its bindings must outnumber them and the quota marks that still run. */
  predicate Offered(reg: Registration, bindings: int, now: int)
  {
    var blocked := set c | c in reg.suspended && ToLower(reg.suspended[c]) != "quota";
    var waiting := set c | c in reg.quota && now < reg.quota[c] + QUOTA_WINDOW;
    blocked == {} || bindings > |waiting| + |blocked|
  }

  /** Which registered models a consistent registry shows, told from the clients' lists and the marks. */
  lemma ShownIffOffered(st: State, m: string, now: int)
    requires Consistent(st)
    ensures m in Shown(st.models, now) <==>
      m in st.models && Offered(st.models[m], Total(st.clientModels, m), now)
  {
    hide Total, ProviderTotal;
    if m in st.models {
      var reg := st.models[m];
      LowerQuota();
      assert OtherwiseSuspended(reg) == set c | c in reg.suspended && ToLower(reg.suspended[c]) != "quota";
      assert Pending(reg, now) == set c | c in reg.quota && now < reg.quota[c] + QUOTA_WINDOW;
    }
  }

  lemma LowerQuota()
    ensures ToLower("quota") == "quota"
  {
  }

  ghost predicate OfferedAs(st: State, handler: string, now: int, m: string, x: Listed)
  {
    m in st.models && Offered(st.models[m], Total(st.clientModels, m), now) && x == Listed(handler, st.models[m].info)
  }

  /** out names exactly the offered models, each once, and no identifier comes before a greater one. */
  ghost predicate ListsOffered(out: seq<Listed>, st: State, handler: string, now: int)
  {
    && (forall x :: x in out <==> exists m :: OfferedAs(st, handler, now, m, x))
    && (forall i, j :: 0 <= i < j < |out| ==> out[i] != out[j] && !Less(out[i].Id(), out[j].Id()))
  }

  lemma ListingMeans(out: seq<Listed>, st: State, handler: string, now: int)
    requires Consistent(st) && IsListing(out, st.models, handler, now)
    ensures ListsOffered(out, st, handler, now)
  {
    hide Consistent, Offered, Available;
    var listed := ListedSet(st.models, handler, now);
    forall m
      ensures m in Shown(st.models, now) <==>
        m in st.models && Offered(st.models[m], Total(st.clientModels, m), now)
    {
      ShownIffOffered(st, m, now);
    }
    forall x
      ensures x in out <==> exists m :: OfferedAs(st, handler, now, m, x)
    {
      assert x in out <==> x in multiset(out);
      if x in listed {
        var m :| m in Shown(st.models, now) && x == Listed(handler, st.models[m].info);
        assert OfferedAs(st, handler, now, m, x);
      }
      if m :| OfferedAs(st, handler, now, m, x) { assert m in Shown(st.models, now); }
    }
    forall i, j | 0 <= i < j < |out|
      ensures out[i] != out[j] && !Less(out[i].Id(), out[j].Id())
    {
      NoneTwice(out, listed, i, j);
      SortedPair(out, i, j, BeforeById);
    }
  }

  /** The clients that list a model and have no running mark on it. */
  ghost function Serving(st: State, m: string, now: int): set<string>
    requires m in st.models
  {
    var reg := st.models[m];
    set c | c in st.clientModels && m in st.clientModels[c] && c !in reg.suspended
      && !(c in reg.quota && now < reg.quota[c] + QUOTA_WINDOW)
  }

  /** The clients that are suspended and inside their quota window at once. */
  ghost function TwiceMarked(reg: Registration, now: int): set<string>
  {
    set c | c in reg.suspended && c in reg.quota && now < reg.quota[c] + QUOTA_WINDOW
  }

  /** Where each client lists the model once and only such clients are marked, the count is that of the clients that
      serve it less those that are marked twice, which it deducts twice. */
  lemma CountMeans(st: State, m: string, now: int)
    requires Consistent(st) && m in st.models && forall c :: Mult(st.clientModels, c, m) <= 1
    requires forall c :: c in st.models[m].quota || c in st.models[m].suspended ==>
      c in st.clientModels && m in st.clientModels[c]
    ensures var serving, twice := |Serving(st, m, now)|, |TwiceMarked(st.models[m], now)|;
      && CountOf(st.models, m, now) == (if serving > twice then serving - twice else 0)
      && (CountOf(st.models, m, now) == serving <==> serving == 0 || twice == 0)
  {
    hide Total, ProviderTotal, Mult;
    var reg, cm := st.models[m], st.clientModels;
    var listing := set c | c in cm && m in cm[c];
    ListingClients(cm, m);
    var waiting, suspended := Pending(reg, now), reg.suspended.Keys;
    assert Serving(st, m, now) == listing - (waiting + suspended);
    assert TwiceMarked(reg, now) == waiting * suspended;
    MarkedTwice(listing, waiting, suspended);
  }

  lemma ListingClients(cm: map<string, seq<string>>, m: string)
    requires forall c :: Mult(cm, c, m) <= 1
    ensures Total(cm, m) == |set c | c in cm && m in cm[c]|
  {
    var listing := set c | c in cm && m in cm[c];
    forall c | c in cm
      ensures MultBy(cm, m)(c) == if c in listing then 1 else 0
    {
      assert Mult(cm, c, m) <= 1;
    }
    SumOfMarks(cm.Keys, listing, MultBy(cm, m));
  }

  lemma MarkedTwice<T>(all: set<T>, a: set<T>, b: set<T>)
    requires a <= all && b <= all
    ensures |all| - |a| - |b| == |all - (a + b)| - |a * b|
  {
    assert all == (all - (a + b)) + (a + b);
  }

  /** One client that lists a model and is both suspended and over its quota takes a second client out of the count. */
  lemma DoubleMarkHidesClient(now: int)
    ensures var info := ModelInfo("m", 1, "");
      var reg := Registration(info, map["p" := info], 2, map["c" := now], map["p" := 2], map["c" := "quota"]);
      var st := State(map["m" := reg], map["c" := ["m"], "d" := ["m"]],
                      map["c" := map["m" := info], "d" := map["m" := info]], map["c" := "p", "d" := "p"]);
      Consistent(st) && Serving(st, "m", now) == {"d"} && CountOf(st.models, "m", now) == 0
  {
    var info := ModelInfo("m", 1, "");
    var reg := Registration(info, map["p" := info], 2, map["c" := now], map["p" := 2], map["c" := "quota"]);
    var cm: map<string, seq<string>> := map["c" := ["m"], "d" := ["m"]];
    var cp: map<string, string> := map["c" := "p", "d" := "p"];
    TwoClients(cm, cp);
    assert Pending(reg, now) == {"c"};
    assert reg.suspended.Keys == {"c"};
  }

  lemma TwoClients(cm: map<string, seq<string>>, cp: map<string, string>)
    requires cm == map["c" := ["m"], "d" := ["m"]] && cp == map["c" := "p", "d" := "p"]
    ensures forall m :: Total(cm, m) == if m == "m" then 2 else 0
    ensures forall m, p :: ProviderTotal(cm, cp, m, p) == if m == "m" && p == "p" then 2 else 0
  {
    var one: map<string, seq<string>>, cp1: map<string, string> := map["c" := ["m"]], map["c" := "p"];
    OneClient(one, cp1);
    assert one["d" := ["m"]] == cm;
    forall m ensures Total(cm, m) == if m == "m" then 2 else 0 { TotalsAfterSet(one, cp1, "d", ["m"], cp, m, ""); }
    forall m, p ensures ProviderTotal(cm, cp, m, p) == if m == "m" && p == "p" then 2 else 0 {
      TotalsAfterSet(one, cp1, "d", ["m"], cp, m, p);
    }
  }

  // ---------- the first available model ----------

  predicate NewerThan(a: Listed, b: Listed)
  {
    a.Created().Some? && b.Created().Some? && a.Created().value > b.Created().value
  }

  /** Where every entry is dated the newest come first; a missing date makes the comparison no order at all. */
  lemma DatesOrder(s: multiset<Listed>)
    requires forall x :: x in s ==> x.Created().Some?
    ensures OrdersMembers(s, NewerThan)
  {
  }

  lemma SortedFirst(s: seq<Listed>, i: nat, j: nat)
    requires Sorted(s, NewerThan) && i <= j < |s|
    ensures !NewerThan(s[j], s[i])
  {
    if i < j { SortedPair(s, i, j, NewerThan); }
  }

  /** The formats that pass a creation time on, and the times they pass on. */
  predicate Dated(handler: string, created: int)
  {
    if handler == "openai" then created > 0
    else handler != "claude" && handler != "kiro" && handler != "antigravity" && handler != "gemini" && created != 0
  }

  /** An entry carries a date exactly where its format passes on the one the model has, and then it is that one; every
      format but one passes on the identifier. */
  lemma DatedIff(x: Listed)
    ensures x.handler != "gemini" ==> x.Id() == x.info.id
    ensures x.Created().Some? <==> Dated(x.handler, x.info.created)
    ensures x.Created().Some? ==> x.Created().value == x.info.created
  {
  }

  /** Every shown model is dated in this format. */
  ghost predicate AllDated(models: map<string, Registration>, handler: string, now: int)
  {
    forall m :: m in Shown(models, now) ==> Dated(handler, models[m].info.created)
  }

  lemma EntriesDated(models: map<string, Registration>, handler: string, now: int)
    requires AllDated(models, handler, now)
    ensures forall x :: x in ListedSet(models, handler, now) ==> x.Created().Some?
  {
    hide Shown, Dated;
    forall x | x in ListedSet(models, handler, now) ensures x.Created().Some? { DatedIff(x); }
  }

  ghost predicate NoneNewer(id: string, models: map<string, Registration>, now: int)
    requires id in models
  {
    forall m :: m in models && CountOf(models, m, now) > 0 ==> models[m].info.created <= models[id].info.created
  }

  /** The answer of a search for a usable model over everything registered, listed at one time and counted later. */
  ghost predicate FirstUsable(r: Option<string>, models: map<string, Registration>, handler: string, listed: int,
                              counted: int)
  {
    if r.None? then handler == "gemini" || forall m :: CountOf(models, m, listed) == 0
    else
      && handler != "gemini" && r.value in models && CountOf(models, r.value, counted) > 0
      && (AllDated(models, handler, listed) ==> NoneNewer(r.value, models, listed))
  }

  /** At a fixed time the search fails exactly when no model has a positive count, or for the gemini format. */
  lemma FailsExactly(r: Option<string>, models: map<string, Registration>, handler: string, now: int)
    requires FirstUsable(r, models, handler, now, now)
    ensures r.None? <==> handler == "gemini" || forall m :: CountOf(models, m, now) == 0
  {
    hide AllDated, NoneNewer;
    if r.Some? { assert CountOf(models, r.value, now) > 0; }
  }

  /** A usable model that the search does not find: one client lists it, nothing marks it. */
  lemma GeminiFindsNothing(now: int)
    ensures var info := ModelInfo("m", 1, "");
      var st := State(map["m" := Registration(info, map["p" := info], 1, map[], map["p" := 1], map[])],
                      map["c" := ["m"]], map["c" := map["m" := info]], map["c" := "p"]);
      && Consistent(st) && CountOf(st.models, "m", now) == 1
      && forall r :: FirstUsable(r, st.models, "gemini", now, now) ==> r.None?
  {
    var info := ModelInfo("m", 1, "");
    var reg := Registration(info, map["p" := info], 1, map[], map["p" := 1], map[]);
    var cm: map<string, seq<string>>, cp: map<string, string> := map["c" := ["m"]], map["c" := "p"];
    assert Pending(reg, now) == {};
    OneClient(cm, cp);
  }

  lemma OneClient(cm: map<string, seq<string>>, cp: map<string, string>)
    requires cm == map["c" := ["m"]] && cp == map["c" := "p"]
    ensures forall m :: Total(cm, m) == if m == "m" then 1 else 0
    ensures forall m, p :: ProviderTotal(cm, cp, m, p) == if m == "m" && p == "p" then 1 else 0
  {
    var none: map<string, seq<string>> := map[];
    assert none["c" := ["m"]] == cm;
    forall m ensures Total(cm, m) == if m == "m" then 1 else 0 { TotalsAfterSet(none, cp, "c", ["m"], cp, m, ""); }
    forall m, p ensures ProviderTotal(cm, cp, m, p) == if m == "m" && p == "p" then 1 else 0 {
      TotalsAfterSet(none, cp, "c", ["m"], cp, m, p);
    }
  }

  /** As time passes quota marks only expire. */
  lemma CountGrows(models: map<string, Registration>, m: string, t: int, t': int)
    requires t <= t'
    ensures CountOf(models, m, t) <= CountOf(models, m, t')
  {
    if m in models {
      assert Pending(models[m], t') <= Pending(models[m], t);
      SubsetSize(Pending(models[m], t'), Pending(models[m], t));
    }
  }

  /** Every usable model has its place in the listing. */
  lemma UsableIsListed(sorted: seq<Listed>, models: map<string, Registration>, handler: string, now: int, m: string)
    returns (j: nat)
    requires multiset(sorted) == multiset(ListedSet(models, handler, now)) && KeyedById(models)
    requires CountOf(models, m, now) > 0
    ensures j < |sorted| && sorted[j] == Listed(handler, models[m].info) && sorted[j].info.id == m
  {
    CountedIsShown(models, m, now);
    var x := Listed(handler, models[m].info);
    assert x in ListedSet(models, handler, now);
    assert x in multiset(sorted);
    j :| 0 <= j < |sorted| && sorted[j] == x;
  }

  lemma NoneFound(sorted: seq<Listed>, models: map<string, Registration>, handler: string, now: int)
    requires multiset(sorted) == multiset(ListedSet(models, handler, now)) && KeyedById(models)
    requires handler != "gemini" ==> forall j :: 0 <= j < |sorted| ==> CountOf(models, sorted[j].info.id, now) == 0
    ensures forall t :: FirstUsable(None, models, handler, now, t)
  {
    hide ListedSet;
    forall m | handler != "gemini"
      ensures CountOf(models, m, now) == 0
    {
      if CountOf(models, m, now) > 0 {
        var j := UsableIsListed(sorted, models, handler, now, m);
      }
    }
  }

  lemma EntryOf(sorted: seq<Listed>, models: map<string, Registration>, handler: string, now: int, i: nat)
    requires multiset(sorted) == multiset(ListedSet(models, handler, now)) && KeyedById(models) && i < |sorted|
    ensures sorted[i].info.id in models && sorted[i] == Listed(handler, models[sorted[i].info.id].info)
    ensures sorted[i] in ListedSet(models, handler, now)
  {
    assert sorted[i] in multiset(sorted);
  }

  lemma FirstIsNewest(sorted: seq<Listed>, i: nat, models: map<string, Registration>, handler: string, now: int,
                      m: string)
    requires multiset(sorted) == multiset(ListedSet(models, handler, now)) && KeyedById(models)
    requires i < |sorted| && handler != "gemini" && Sorted(sorted, NewerThan) && AllDated(models, handler, now)
    requires forall j :: 0 <= j < i ==> CountOf(models, sorted[j].info.id, now) == 0
    requires CountOf(models, m, now) > 0
    ensures sorted[i].info.id in models && m in models
      && models[m].info.created <= models[sorted[i].info.id].info.created
  {
    hide ListedSet, Shown, Sorted, CountOf, AllDated;
    EntriesDated(models, handler, now);
    EntryOf(sorted, models, handler, now, i);
    var k := UsableIsListed(sorted, models, handler, now, m);
    EntryOf(sorted, models, handler, now, k);
    SortedFirst(sorted, i, k);
  }

  lemma FirstFound(sorted: seq<Listed>, i: nat, models: map<string, Registration>, handler: string, now: int,
                   counted: int)
    requires multiset(sorted) == multiset(ListedSet(models, handler, now)) && KeyedById(models)
    requires i < |sorted| && handler != "gemini" && CountOf(models, sorted[i].info.id, counted) > 0
    requires forall j :: 0 <= j < i ==> CountOf(models, sorted[j].info.id, now) == 0
    requires AllDated(models, handler, now) ==> Sorted(sorted, NewerThan)
    ensures FirstUsable(Some(sorted[i].info.id), models, handler, now, counted)
  {
    hide ListedSet, Sorted, CountOf, KeyedById, AllDated;
    EntryOf(sorted, models, handler, now, i);
    if AllDated(models, handler, now) {
      forall m | m in models && CountOf(models, m, now) > 0
        ensures models[m].info.created <= models[sorted[i].info.id].info.created
      {
        FirstIsNewest(sorted, i, models, handler, now, m);
      }
    }
  }

  // ---------- providers by how many clients they have ----------

  predicate BusierThan(counts: map<string, int>, a: string, b: string)
  {
    At(counts, a) > At(counts, b) || (At(counts, a) == At(counts, b) && Less(a, b))
  }

  function ByClients(counts: map<string, int>): (string, string) -> bool
  {
    (a, b) => BusierThan(counts, a, b)
  }

  lemma BusierOrders(counts: map<string, int>, s: multiset<string>)
    ensures OrdersMembers(s, ByClients(counts)) && NoTies(s, ByClients(counts))
  {
    forall a, b | BusierThan(counts, a, b)
      ensures !BusierThan(counts, b, a)
    {
      if Less(a, b) { LessAsymmetric(a, b); }
    }
    forall a, b | !BusierThan(counts, a, b) && !BusierThan(counts, b, a)
      ensures a == b
    {
      LessTotal(a, b);
    }
    forall a, b, c | BusierThan(counts, a, c)
      ensures BusierThan(counts, a, b) || BusierThan(counts, b, c)
    {
      LessTotal(a, b);
      LessTotal(b, c);
      if !BusierThan(counts, a, b) && !BusierThan(counts, b, c) && a != b && b != c {
        LessTransitive(c, b, a);
        LessAsymmetric(c, a);
      }
    }
  }

  /** More clients come first, and among equals the smaller name. */
  ghost predicate BusiestFirst(names: seq<string>, counts: map<string, int>)
  {
    forall i, j :: 0 <= i < j < |names| ==>
      At(counts, names[i]) > At(counts, names[j])
      || (At(counts, names[i]) == At(counts, names[j]) && Less(names[i], names[j]))
  }

  lemma SortedIsBusiestFirst(names: seq<string>, counts: map<string, int>)
    requires multiset(names) == multiset(counts.Keys) && Sorted(names, ByClients(counts))
    ensures BusiestFirst(names, counts)
  {
    forall i, j | 0 <= i < j < |names|
      ensures At(counts, names[i]) > At(counts, names[j])
        || (At(counts, names[i]) == At(counts, names[j]) && Less(names[i], names[j]))
    {
      NoneTwice(names, counts.Keys, i, j);
      SortedPair(names, i, j, ByClients(counts));
      LessTotal(names[i], names[j]);
    }
  }
}
