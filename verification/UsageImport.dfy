/** Importing a snapshot into a log of records: each record is added unless its key has been seen. */
module UsageImport {
  import opened Strings
  import opened Sums
  import opened UsageKeys
  import opened UsageLog

  // ---------- what a snapshot offers ----------

  type Slot = (string, string)

  function NonNegative(n: int): int { if n < 0 then 0 else n }

  function Cleaned(d: Detail, now: Stamp): Detail
  {
    d.(tokens := NormalTokens(d.tokens), latency := NonNegative(d.latency),
       stamp := if d.stamp.IsZero() then now else d.stamp)
  }

  function ModelName(raw: string): string
  {
    if TrimSpace(raw) == "" then "unknown" else TrimSpace(raw)
  }

  function Candidate(slot: Slot, d: Detail, now: Stamp): Event
  {
    Event(TrimSpace(slot.0), ModelName(slot.1), Cleaned(d, now), true)
  }

  /** What is imported is the offered record, its names trimmed, its time, latency and total made good. */
  lemma CandidateMeans(slot: Slot, d: Detail, now: Stamp)
    ensures var e := Candidate(slot, d, now);
      && e.imported && e.detail.source == d.source && e.detail.auth == d.auth && e.detail.failed == d.failed
      && (!d.stamp.IsZero() ==> e.detail.stamp == d.stamp) && (d.stamp.IsZero() ==> e.detail.stamp == now)
      && e.detail.latency >= 0 && (d.latency >= 0 ==> e.detail.latency == d.latency)
      && (d.latency < 0 ==> e.detail.latency == 0) && e.detail.tokens == NormalTokens(d.tokens)
      && (Trimmed(slot.0) ==> e.api == slot.0) && (Trimmed(slot.1) && slot.1 != "" ==> e.model == slot.1)
      && (TrimSpace(slot.1) == "" ==> e.model == "unknown")
  {
    hide NormalTokens;
  }

  function DetailsAt(apis: map<string, ApiStats>, slot: Slot): seq<Detail>
  {
    if slot.0 in apis && slot.1 in apis[slot.0].models then apis[slot.0].models[slot.1].details else []
  }

  /** The candidates of one model, the clock read once for each. */
  function FromDetails(slot: Slot, ds: seq<Detail>, clock: nat -> Stamp, k: nat): seq<Event>
  {
    seq(|ds|, i requires 0 <= i < |ds| => Candidate(slot, ds[i], clock(k + i)))
  }

  /** The candidates in the order in which the slots are visited. */
  function Items(apis: map<string, ApiStats>, order: seq<Slot>, clock: nat -> Stamp): seq<Event>
  {
    if order == [] then []
    else
      var front := Items(apis, order[..|order| - 1], clock);
      front + FromDetails(order[|order| - 1], DetailsAt(apis, order[|order| - 1]), clock, |front|)
  }

  /** The API and model names of a snapshot under which records are imported. */
  function Slots(apis: map<string, ApiStats>): set<Slot>
  {
    set a, m | a in apis && TrimSpace(a) != "" && m in apis[a].models :: (a, m)
  }

  ghost predicate Distinct<T>(s: seq<T>)
  {
    forall i, j :: 0 <= i < j < |s| ==> s[i] != s[j]
  }

  /** order visits every slot once. */
  ghost predicate Enumerates(order: seq<Slot>, apis: map<string, ApiStats>)
  {
    Distinct(order) && forall p :: p in order <==> p in Slots(apis)
  }

  lemma ItemsAppend(apis: map<string, ApiStats>, order: seq<Slot>, p: Slot, clock: nat -> Stamp)
    ensures Items(apis, order + [p], clock)
            == Items(apis, order, clock) + FromDetails(p, DetailsAt(apis, p), clock, |Items(apis, order, clock)|)
  {
    assert (order + [p])[..|order|] == order;
  }

  // ---------- the import ----------

  function KeyOf(): Event -> string { (e: Event) => Key(e) }

  ghost function Keys(log: seq<Event>): set<string>
  {
    KeysOf(log, KeyOf())
  }

  ghost function Import(log: seq<Event>, items: seq<Event>): seq<Event>
  {
    if items == [] then log
    else
      var before, last := Import(log, items[..|items| - 1]), items[|items| - 1];
      if Key(last) in Keys(before) then before else before + [last]
  }

  lemma ImportAppend(log: seq<Event>, items: seq<Event>, e: Event)
    ensures Import(log, items + [e]) ==
            if Key(e) in Keys(Import(log, items)) then Import(log, items) else Import(log, items) + [e]
  {
    assert (items + [e])[..|items|] == items;
  }

  lemma {:induction false} ImportKeys(log: seq<Event>, items: seq<Event>)
    ensures Keys(Import(log, items)) == Keys(log) + Keys(items)
  {
    if items != [] {
      var front, last := items[..|items| - 1], items[|items| - 1];
      assert items == front + [last];
      ImportKeys(log, front);
      KeysOfAppend(front, last, KeyOf());
      KeysOfAppend(Import(log, front), last, KeyOf());
    }
  }

  lemma {:induction false} ImportSplit(log: seq<Event>, x: seq<Event>, y: seq<Event>)
    ensures Import(log, x + y) == Import(Import(log, x), y)
    decreases |y|
  {
    if y == [] {
      assert x + y == x;
    } else {
      var front, last := y[..|y| - 1], y[|y| - 1];
      assert (x + y)[..|x + y| - 1] == x + front;
      ImportSplit(log, x, front);
    }
  }

  lemma {:induction false} ImportKnown(log: seq<Event>, items: seq<Event>)
    requires Keys(items) <= Keys(log)
    ensures Import(log, items) == log
  {
    if items != [] {
      var front, last := items[..|items| - 1], items[|items| - 1];
      assert items == front + [last];
      KeysOfAppend(front, last, KeyOf());
      ImportKnown(log, front);
    }
  }

  /** What an import adds: candidates, no two with one key, none with a key already there. */
  lemma {:induction false} ImportAdds(log: seq<Event>, items: seq<Event>) returns (new_: seq<Event>)
    ensures Import(log, items) == log + new_ && |new_| <= |items|
    ensures forall e :: e in new_ ==> e in items
    ensures NoDuplicateKeys(new_) && Keys(new_) == Keys(items) - Keys(log)
  {
    if items == [] {
      new_ := [];
      assert log + new_ == log;
    } else {
      var front, last := items[..|items| - 1], items[|items| - 1];
      assert items == front + [last];
      new_ := ImportAdds(log, front);
      KeysOfAppend(front, last, KeyOf());
      ImportKeys(log, front);
      if Key(last) !in Keys(Import(log, front)) {
        KeysOfAppend(new_, last, KeyOf());
        DistinctGrow(new_, last);
        assert log + (new_ + [last]) == log + new_ + [last];
        new_ := new_ + [last];
      }
    }
  }

  ghost predicate NoDuplicateKeys(log: seq<Event>)
  {
    forall i, j :: 0 <= i < j < |log| ==> Key(log[i]) != Key(log[j])
  }

  lemma DistinctGrow(log: seq<Event>, e: Event)
    requires NoDuplicateKeys(log) && Key(e) !in Keys(log)
    ensures NoDuplicateKeys(log + [e])
  {
    hide Key;
    var more := log + [e];
    forall i, j | 0 <= i < j < |more|
      ensures Key(more[i]) != Key(more[j])
    {
      if j == |log| {
        assert KeyOf()(log[i]) in Keys(log);
      }
    }
  }

  // ---------- importing the same snapshot again ----------

  /** No record of the snapshot is without a time. */
  predicate AllStamped(apis: map<string, ApiStats>)
  {
    forall a, m, d :: a in apis && m in apis[a].models && d in apis[a].models[m].details ==> !d.stamp.IsZero()
  }

  ghost predicate OffersOne(apis: map<string, ApiStats>, p: Slot, e: Event, now: Stamp)
  {
    exists d :: d in DetailsAt(apis, p) && e == Candidate(p, d, now)
  }

  ghost predicate Offers(apis: map<string, ApiStats>, order: seq<Slot>, e: Event, now: Stamp)
  {
    exists p :: p in order && OffersOne(apis, p, e, now)
  }

  lemma FromDetailsOffered(apis: map<string, ApiStats>, p: Slot, clock: nat -> Stamp, k: nat, now: Stamp, e: Event)
    requires AllStamped(apis)
    ensures e in FromDetails(p, DetailsAt(apis, p), clock, k) <==> OffersOne(apis, p, e, now)
  {
    var ds := DetailsAt(apis, p);
    var own := FromDetails(p, ds, clock, k);
    forall i | 0 <= i < |ds|
      ensures own[i] == Candidate(p, ds[i], now)
    {
      assert ds[i] in ds;
    }
    if e in own {
      var i :| 0 <= i < |own| && own[i] == e;
      assert ds[i] in DetailsAt(apis, p);
    }
    if OffersOne(apis, p, e, now) {
      var d :| d in DetailsAt(apis, p) && e == Candidate(p, d, now);
      var i :| 0 <= i < |ds| && ds[i] == d;
      assert own[i] == e;
    }
  }

  /** With all records stamped, the order of the visit and the clock do not matter to what is offered. */
  lemma {:induction false} ItemsOffered(apis: map<string, ApiStats>, order: seq<Slot>, clock: nat -> Stamp, now: Stamp,
                                        e: Event)
    requires AllStamped(apis)
    ensures e in Items(apis, order, clock) <==> Offers(apis, order, e, now)
  {
    hide OffersOne, AllStamped, FromDetails;
    if order != [] {
      var front, p := order[..|order| - 1], order[|order| - 1];
      ItemsOffered(apis, front, clock, now, e);
      FromDetailsOffered(apis, p, clock, |Items(apis, front, clock)|, now, e);
      if Offers(apis, order, e, now) {
        var q :| q in order && OffersOne(apis, q, e, now);
        assert q in front || q == p;
      }
      if Offers(apis, front, e, now) {
        var q :| q in front && OffersOne(apis, q, e, now);
        assert q in order;
      }
    }
  }

  lemma SameOffers(apis: map<string, ApiStats>, o1: seq<Slot>, c1: nat -> Stamp, o2: seq<Slot>, c2: nat -> Stamp)
    requires AllStamped(apis) && Enumerates(o1, apis) && Enumerates(o2, apis)
    ensures Keys(Items(apis, o1, c1)) <= Keys(Items(apis, o2, c2))
  {
    hide Key;
    var x, y := Items(apis, o1, c1), Items(apis, o2, c2);
    forall k | k in Keys(x)
      ensures k in Keys(y)
    {
      var i :| 0 <= i < |x| && KeyOf()(x[i]) == k;
      ItemsOffered(apis, o1, c1, c1(0), x[i]);
      var p :| p in o1 && OffersOne(apis, p, x[i], c1(0));
      assert p in o2;
      ItemsOffered(apis, o2, c2, c1(0), x[i]);
      var j :| 0 <= j < |y| && y[j] == x[i];
      assert KeyOf()(y[j]) == k;
    }
  }

  /** Importing a snapshot a second time adds nothing, in whatever order its maps are walked each time. */
  lemma ImportIdempotent(log: seq<Event>, apis: map<string, ApiStats>, o1: seq<Slot>, c1: nat -> Stamp, o2: seq<Slot>,
                         c2: nat -> Stamp)
    requires AllStamped(apis) && Enumerates(o1, apis) && Enumerates(o2, apis)
    ensures var once := Import(log, Items(apis, o1, c1)); Import(once, Items(apis, o2, c2)) == once
  {
    SameOffers(apis, o2, c2, o1, c1);
    ImportKeys(log, Items(apis, o1, c1));
    ImportKnown(Import(log, Items(apis, o1, c1)), Items(apis, o2, c2));
  }

  // ---------- every record is counted ----------

  ghost function SlotSize(apis: map<string, ApiStats>): Slot -> int { p => |DetailsAt(apis, p)| }

  lemma {:induction false} ItemsSize(apis: map<string, ApiStats>, order: seq<Slot>, clock: nat -> Stamp)
    requires Distinct(order)
    ensures |Items(apis, order, clock)| == Sum((set p | p in order), SlotSize(apis))
  {
    var all := set p | p in order;
    if order == [] {
      SumZero(all, SlotSize(apis));
    } else {
      var front, p := order[..|order| - 1], order[|order| - 1];
      ItemsSize(apis, front, clock);
      SumInsert((set q | q in front), p, SlotSize(apis));
      assert all == (set q | q in front) + {p};
    }
  }

  /** The number of candidates is the number of records under the snapshot's named APIs. */
  lemma EveryRecordOffered(apis: map<string, ApiStats>, order: seq<Slot>, clock: nat -> Stamp)
    requires Enumerates(order, apis)
    ensures |Items(apis, order, clock)| == Sum(Slots(apis), SlotSize(apis))
  {
    ItemsSize(apis, order, clock);
    assert (set p | p in order) == Slots(apis);
  }

  // ---------- totals depend on keys alone ----------

  ghost predicate Importable(items: seq<Event>)
  {
    forall e :: e in items ==> ImportableOne(e)
  }

  lemma CandidateImportable(p: Slot, d: Detail, now: Stamp)
    ensures ImportableOne(Candidate(p, d, now))
  {
    NormalTokensTwice(d.tokens);
  }

  lemma {:induction false} ItemsImportable(apis: map<string, ApiStats>, order: seq<Slot>, clock: nat -> Stamp)
    ensures Importable(Items(apis, order, clock))
  {
    hide ImportableOne, Candidate;
    if order != [] {
      var front, p := order[..|order| - 1], order[|order| - 1];
      ItemsImportable(apis, front, clock);
      var ds, k := DetailsAt(apis, p), |Items(apis, front, clock)|;
      forall e | e in FromDetails(p, ds, clock, k)
        ensures ImportableOne(e)
      {
        var i :| 0 <= i < |ds| && e == Candidate(p, ds[i], clock(k + i));
        CandidateImportable(p, ds[i], clock(k + i));
      }
    }
  }

  /** Where keys do not repeat, the part under a record's key is that record. */
  lemma {:induction false} SinglePart(log: seq<Event>, i: nat, w: Event -> int)
    requires NoDuplicateKeys(log) && i < |log|
    ensures SumLog(log, Part(KeyOf(), Key(log[i]), w)) == w(log[i])
  {
    hide Key;
    var front, last := log[..|log| - 1], log[|log| - 1];
    if i == |front| {
      forall j | 0 <= j < |front|
        ensures KeyOf()(front[j]) != Key(last)
      {
        assert front[j] == log[j];
      }
      NoKeyNoSum(front, KeyOf(), w, Key(last));
    } else {
      SinglePart(front, i, w);
    }
  }

  lemma SumByKey(log: seq<Event>, w: Event -> int)
    ensures Sum(Keys(log), PartSums(log, KeyOf(), w)) == SumLog(log, w)
  {
    hide Key;
    forall e | e in log
      ensures KeyOf()(e) in Keys(log)
    {
      var i :| 0 <= i < |log| && log[i] == e;
      assert KeyOf()(log[i]) in Keys(log);
    }
    PartsAddUp(log, KeyOf(), w, Keys(log));
  }

  lemma SameKeysSameSum(a: seq<Event>, b: seq<Event>, w: Event -> int)
    requires NoDuplicateKeys(a) && NoDuplicateKeys(b) && Keys(a) == Keys(b)
    requires forall e, f :: e in a && f in b && Key(e) == Key(f) ==> w(e) == w(f)
    ensures SumLog(a, w) == SumLog(b, w)
  {
    hide Key, SumLog;
    SumByKey(a, w);
    SumByKey(b, w);
    forall k | k in Keys(a)
      ensures PartSums(a, KeyOf(), w)(k) == PartSums(b, KeyOf(), w)(k)
    {
      var i :| 0 <= i < |a| && KeyOf()(a[i]) == k;
      var j :| 0 <= j < |b| && KeyOf()(b[j]) == k;
      SinglePart(a, i, w);
      SinglePart(b, j, w);
    }
    SumSame(Keys(a), PartSums(a, KeyOf(), w), PartSums(b, KeyOf(), w));
  }

  ghost predicate ImportableOne(e: Event)
  {
    e.imported && NormalTokens(e.detail.tokens) == e.detail.tokens
  }

  /** Importable records with one key weigh the same. */
  ghost predicate WeighedByKey(w: Event -> int)
  {
    forall e, f :: ImportableOne(e) && ImportableOne(f) && Key(e) == Key(f) ==> w(e) == w(f)
  }

  lemma TotalsWeighByKey()
    ensures WeighedByKey(Success()) && WeighedByKey(Failure()) && WeighedByKey(Charged()) && WeighedByKey(One())
  {
    hide Key, NormalTokens;
    forall e, f | ImportableOne(e) && ImportableOne(f) && Key(e) == Key(f)
      ensures Success()(e) == Success()(f) && Failure()(e) == Failure()(f) && Charged()(e) == Charged()(f)
        && One()(e) == One()(f)
    {
      KeyTells(e, f);
    }
  }

  lemma {:induction false} SumLogConcat(a: seq<Event>, b: seq<Event>, w: Event -> int)
    ensures SumLog(a + b, w) == SumLog(a, w) + SumLog(b, w)
    decreases |b|
  {
    if b == [] {
      assert a + b == a;
    } else {
      assert (a + b)[..|a + b| - 1] == a + b[..|b| - 1];
      SumLogConcat(a, b[..|b| - 1], w);
    }
  }

  lemma TotalDependsOnKeys(log: seq<Event>, x: seq<Event>, y: seq<Event>, w: Event -> int)
    requires Importable(x) && Importable(y) && WeighedByKey(w)
    requires Keys(log) + Keys(x) == Keys(log) + Keys(y)
    ensures SumLog(Import(log, x), w) == SumLog(Import(log, y), w)
  {
    hide Key, ImportableOne;
    var a := ImportAdds(log, x);
    var b := ImportAdds(log, y);
    assert Keys(a) == Keys(b);
    SameKeysSameSum(a, b, w);
    SumLogConcat(log, a, w);
    SumLogConcat(log, b, w);
  }

  /** Two imports into one log leave the same totals when they bring the same keys. */
  lemma TotalsDependOnKeys(log: seq<Event>, x: seq<Event>, y: seq<Event>)
    requires Importable(x) && Importable(y)
    requires Keys(log) + Keys(x) == Keys(log) + Keys(y)
    ensures |Import(log, x)| == |Import(log, y)|
    ensures SumLog(Import(log, x), Success()) == SumLog(Import(log, y), Success())
    ensures SumLog(Import(log, x), Failure()) == SumLog(Import(log, y), Failure())
    ensures SumLog(Import(log, x), Charged()) == SumLog(Import(log, y), Charged())
  {
    hide Keys, Import, Importable, WeighedByKey;
    TotalsWeighByKey();
    TotalDependsOnKeys(log, x, y, Success());
    TotalDependsOnKeys(log, x, y, Failure());
    TotalDependsOnKeys(log, x, y, Charged());
    TotalDependsOnKeys(log, x, y, One());
    SumOfOnes(Import(log, x));
    SumOfOnes(Import(log, y));
  }

  // ---------- several merges ----------

  ghost function ImportAll(log: seq<Event>, batches: seq<seq<Event>>): seq<Event>
    decreases |batches|
  {
    if batches == [] then log else ImportAll(Import(log, batches[0]), batches[1..])
  }

  ghost function Flat(batches: seq<seq<Event>>): seq<Event>
  {
    if batches == [] then [] else batches[0] + Flat(batches[1..])
  }

  lemma {:induction false} ImportAllIsOne(log: seq<Event>, batches: seq<seq<Event>>)
    ensures ImportAll(log, batches) == Import(log, Flat(batches))
    decreases |batches|
  {
    if batches != [] {
      ImportAllIsOne(Import(log, batches[0]), batches[1..]);
      ImportSplit(log, batches[0], Flat(batches[1..]));
    }
  }

  lemma {:induction false} FlatImportable(batches: seq<seq<Event>>)
    requires forall b :: b in batches ==> Importable(b)
    ensures Importable(Flat(batches))
  {
    if batches != [] {
      FlatImportable(batches[1..]);
      assert batches[0] in batches;
    }
  }

  /** After any sequences of merges that together bring the same keys, the totals agree. */
  lemma MergesOrderIndependent(log: seq<Event>, xs: seq<seq<Event>>, ys: seq<seq<Event>>)
    requires forall b :: b in xs ==> Importable(b)
    requires forall b :: b in ys ==> Importable(b)
    requires Keys(Flat(xs)) == Keys(Flat(ys))
    ensures |ImportAll(log, xs)| == |ImportAll(log, ys)|
    ensures SumLog(ImportAll(log, xs), Success()) == SumLog(ImportAll(log, ys), Success())
    ensures SumLog(ImportAll(log, xs), Failure()) == SumLog(ImportAll(log, ys), Failure())
    ensures SumLog(ImportAll(log, xs), Charged()) == SumLog(ImportAll(log, ys), Charged())
  {
    ImportAllIsOne(log, xs);
    ImportAllIsOne(log, ys);
    FlatImportable(xs);
    FlatImportable(ys);
    TotalsDependOnKeys(log, Flat(xs), Flat(ys));
  }

  /** One merge of a snapshot: what it holds, the order in which its maps are walked, the clock it reads. */
  datatype Visit = Visit(apis: map<string, ApiStats>, order: seq<Slot>, clock: nat -> Stamp)

  ghost function Batches(visits: seq<Visit>): (r: seq<seq<Event>>)
    ensures |r| == |visits| && forall i :: 0 <= i < |r| ==>
      r[i] == Items(visits[i].apis, visits[i].order, visits[i].clock)
  {
    seq(|visits|, i requires 0 <= i < |visits| => Items(visits[i].apis, visits[i].order, visits[i].clock))
  }

  ghost function MergeAll(log: seq<Event>, visits: seq<Visit>): seq<Event>
  {
    ImportAll(log, Batches(visits))
  }

  ghost function OfferedKeys(visits: seq<Visit>): set<string>
  {
    Keys(Flat(Batches(visits)))
  }

  lemma BatchesImportable(visits: seq<Visit>)
    ensures forall b :: b in Batches(visits) ==> Importable(b)
  {
    forall i | 0 <= i < |visits|
      ensures Importable(Batches(visits)[i])
    {
      ItemsImportable(visits[i].apis, visits[i].order, visits[i].clock);
    }
  }

  /** Totals after merging several snapshots depend only on the union of the keys they offer. */
  lemma SnapshotTotalsDependOnKeys(log: seq<Event>, vs: seq<Visit>, ws: seq<Visit>, a: Stats, b: Stats)
    requires OfferedKeys(vs) == OfferedKeys(ws)
    requires Reflects(a, MergeAll(log, vs)) && Reflects(b, MergeAll(log, ws))
    ensures a.requests == b.requests && a.success == b.success && a.failure == b.failure && a.tokens == b.tokens
  {
    hide Batches, ImportAll, Flat, Importable;
    BatchesImportable(vs);
    BatchesImportable(ws);
    MergesOrderIndependent(log, Batches(vs), Batches(ws));
  }

  lemma {:induction false} FlatKeys(batches: seq<seq<Event>>, k: string)
    ensures k in Keys(Flat(batches)) <==> exists i :: 0 <= i < |batches| && k in Keys(batches[i])
  {
    hide Key;
    if batches != [] {
      var rest := batches[1..];
      FlatKeys(rest, k);
      KeysConcat(batches[0], Flat(rest));
      if i :| 0 <= i < |rest| && k in Keys(rest[i]) { assert batches[i + 1] == rest[i]; }
      if i :| 0 <= i < |batches| && k in Keys(batches[i]) && i > 0 { assert rest[i - 1] == batches[i]; }
    }
  }

  lemma KeysConcat(x: seq<Event>, y: seq<Event>)
    ensures Keys(x + y) == Keys(x) + Keys(y)
  {
    hide Key;
    forall k
      ensures k in Keys(x + y) <==> k in Keys(x) + Keys(y)
    {
      if i :| 0 <= i < |x| && KeyOf()(x[i]) == k { assert (x + y)[i] == x[i]; }
      if i :| 0 <= i < |y| && KeyOf()(y[i]) == k { assert (x + y)[|x| + i] == y[i]; }
    }
  }

  /** Every snapshot of vs is stamped, walked over completely, and also among ws. */
  ghost predicate AmongThem(vs: seq<Visit>, ws: seq<Visit>)
  {
    forall i :: 0 <= i < |vs| ==>
      && AllStamped(vs[i].apis) && Enumerates(vs[i].order, vs[i].apis)
      && exists j :: 0 <= j < |ws| && ws[j].apis == vs[i].apis
  }

  ghost function VisitKeys(v: Visit): set<string>
  {
    Keys(Items(v.apis, v.order, v.clock))
  }

  lemma OfferedByOne(visits: seq<Visit>, k: string)
    ensures k in OfferedKeys(visits) <==> exists i :: 0 <= i < |visits| && k in VisitKeys(visits[i])
  {
    hide Keys, Flat, Items;
    FlatKeys(Batches(visits), k);
    assert forall i :: 0 <= i < |visits| ==> Keys(Batches(visits)[i]) == VisitKeys(visits[i]);
  }

  lemma SomeVisitOffers(visits: seq<Visit>, k: string) returns (i: nat)
    requires k in OfferedKeys(visits)
    ensures i < |visits| && k in VisitKeys(visits[i])
  {
    hide OfferedKeys, VisitKeys;
    OfferedByOne(visits, k);
    i :| 0 <= i < |visits| && k in VisitKeys(visits[i]);
  }

  lemma VisitOffers(visits: seq<Visit>, k: string, i: nat)
    requires i < |visits| && k in VisitKeys(visits[i])
    ensures k in OfferedKeys(visits)
  {
    hide OfferedKeys, VisitKeys;
    OfferedByOne(visits, k);
  }

  lemma SameVisitKeys(v: Visit, w: Visit)
    requires v.apis == w.apis && AllStamped(v.apis) && Enumerates(v.order, v.apis) && Enumerates(w.order, w.apis)
    ensures VisitKeys(v) <= VisitKeys(w)
  {
    hide Keys, Items, AllStamped, Enumerates;
    SameOffers(v.apis, v.order, v.clock, w.order, w.clock);
  }

  lemma SameSnapshotsSameKeys(vs: seq<Visit>, ws: seq<Visit>)
    requires AmongThem(vs, ws) && AmongThem(ws, vs)
    ensures OfferedKeys(vs) <= OfferedKeys(ws)
  {
    hide OfferedKeys, VisitKeys, AllStamped, Enumerates;
    forall k | k in OfferedKeys(vs)
      ensures k in OfferedKeys(ws)
    {
      var i := SomeVisitOffers(vs, k);
      var j :| 0 <= j < |ws| && ws[j].apis == vs[i].apis;
      SameVisitKeys(vs[i], ws[j]);
      VisitOffers(ws, k, j);
    }
  }

  /** The same stamped snapshots, merged in any order and any number of times, their maps walked in any order,
      leave the same totals. */
  lemma SnapshotsInAnyOrder(log: seq<Event>, vs: seq<Visit>, ws: seq<Visit>, a: Stats, b: Stats)
    requires AmongThem(vs, ws) && AmongThem(ws, vs)
    requires Reflects(a, MergeAll(log, vs)) && Reflects(b, MergeAll(log, ws))
    ensures a.requests == b.requests && a.success == b.success && a.failure == b.failure && a.tokens == b.tokens
  {
    hide AmongThem, Reflects, MergeAll, OfferedKeys;
    SameSnapshotsSameKeys(vs, ws);
    SameSnapshotsSameKeys(ws, vs);
    SnapshotTotalsDependOnKeys(log, vs, ws, a, b);
  }
}
