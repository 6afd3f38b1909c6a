/** Thinking signatures kept per model group, with an expiry that slides on every access and a background purge. */
module SignatureCache {
  import opened Strings

  datatype Entry = Entry(signature: string, stamp: int)

  type Groups = map<string, map<string, Entry>>

  /** Three hours, in nanoseconds. */
  const TTL: int := 10_800_000_000_000

  const MIN_SIGNATURE_LENGTH := 50

  const SENTINEL := "skip_thought_signature_validator"

  predicate IsGemini(group: string) { group == "gemini" }

  function GetModelGroup(name: string): string
  {
    if Contains(name, "gpt") then "gpt"
    else if Contains(name, "claude") then "claude"
    else if Contains(name, "gemini") then "gemini"
    else name
  }

  /** Names that contain a family's name share its group, the first of the three deciding; any other is its own. */
  lemma GroupMeans(name: string)
    ensures Contains(name, "gpt") ==> GetModelGroup(name) == "gpt"
    ensures Contains(name, "claude") && !Contains(name, "gpt") ==> GetModelGroup(name) == "claude"
    ensures Contains(name, "gemini") && !Contains(name, "gpt") && !Contains(name, "claude") ==>
      GetModelGroup(name) == "gemini"
    ensures GetModelGroup(GetModelGroup(name)) == GetModelGroup(name)
  {
    assert "gpt" <= "gpt"[0..] && "claude" <= "claude"[0..] && "gemini" <= "gemini"[0..];
    NotWithin("gpt", 'p', "claude");
    NotWithin("gpt", 'p', "gemini");
    NotWithin("claude", 'c', "gemini");
  }

  lemma NotWithin(needle: string, c: char, s: string)
    requires c in needle && c !in s
    ensures !Contains(s, needle)
  {
    var k :| 0 <= k < |needle| && needle[k] == c;
    forall i | 0 <= i <= |s|
      ensures !(needle <= s[i..])
    {
      if i + k < |s| { assert s[i..][k] == s[i + k]; }
    }
  }

  predicate HasValidSignature(model: string, signature: string)
  {
    (signature != "" && ByteLength(signature) >= MIN_SIGNATURE_LENGTH)
      || (signature == SENTINEL && IsGemini(GetModelGroup(model)))
  }

  function Missing(group: string): string
  {
    if IsGemini(group) then SENTINEL else ""
  }

  predicate Expired(e: Entry, now: int)
  {
    now - e.stamp > TTL
  }

  // ---------- the operations as functions of the stored groups ----------

  function Store(groups: Groups, group: string, key: string, e: Entry): Groups
  {
    groups[group := (if group in groups then groups[group] else map[])[key := e]]
  }

  predicate Storable(text: string, signature: string)
  {
    text != "" && signature != "" && ByteLength(signature) >= MIN_SIGNATURE_LENGTH
  }

  predicate Holds(groups: Groups, group: string, key: string)
  {
    group in groups && key in groups[group]
  }

  /** The live entry under a key, if any. */
  function Live(groups: Groups, group: string, key: string, now: int): Option<Entry>
  {
    if group in groups && key in groups[group] && !Expired(groups[group][key], now) then Some(groups[group][key])
    else None
  }

  function Fetch(groups: Groups, group: string, text: string, key: string, now: int): (Groups, string)
  {
    if text == "" || group !in groups || key !in groups[group] then (groups, Missing(group))
    else
      var e := groups[group][key];
      if Expired(e, now) then (groups[group := groups[group] - {key}], Missing(group))
      else (groups[group := groups[group][key := e.(stamp := now)]], e.signature)
  }

  function Unexpired(entries: map<string, Entry>, now: int): map<string, Entry>
  {
    map k | k in entries && !Expired(entries[k], now) :: entries[k]
  }

  /** Expired entries go, and with them the groups left empty. */
  function Purged(groups: Groups, now: int): Groups
  {
    map g | g in groups && Unexpired(groups[g], now) != map[] :: Unexpired(groups[g], now)
  }

  function Cleared(groups: Groups, model: string): Groups
  {
    if model == "" then map[] else groups - {GetModelGroup(model)}
  }

  lemma PurgedHolds(groups: Groups, now: int)
    ensures forall g, k :: Holds(Purged(groups, now), g, k) <==>
      Holds(groups, g, k) && now - groups[g][k].stamp <= TTL
    ensures forall g, k :: Holds(Purged(groups, now), g, k) ==> Purged(groups, now)[g][k] == groups[g][k]
  {
    forall g, k
      ensures Holds(Purged(groups, now), g, k) <==> Holds(groups, g, k) && now - groups[g][k].stamp <= TTL
    {
      if Holds(groups, g, k) && now - groups[g][k].stamp <= TTL {
        assert k in Unexpired(groups[g], now);
      }
    }
  }

  class Cache {
    /** Any function from texts to keys; distinct texts may share one. */
    const hash: string -> string
    var groups: Groups

    constructor (hash: string -> string)
      ensures groups == map[] && this.hash == hash
    {
      this.hash := hash;
      groups := map[];
    }

    method CacheSignature(model: string, text: string, signature: string, now: int)
      modifies this
      ensures groups == if Storable(text, signature)
                        then Store(old(groups), GetModelGroup(model), hash(text), Entry(signature, now))
                        else old(groups)
    {
      if text == "" || signature == "" {
        return;
      }
      if ByteLength(signature) < MIN_SIGNATURE_LENGTH {
        return;
      }
      var group, key := GetModelGroup(model), hash(text);
      if group !in groups {
        groups := groups[group := map[]];
      }
      groups := groups[group := groups[group][key := Entry(signature, now)]];
    }

    method GetCachedSignature(model: string, text: string, now: int) returns (r: string)
      modifies this
      ensures (groups, r) == Fetch(old(groups), GetModelGroup(model), text, hash(text), now)
    {
      var group := GetModelGroup(model);
      if text == "" || group !in groups {
        return Missing(group);
      }
      var key := hash(text);
      if key !in groups[group] {
        return Missing(group);
      }
      var entry := groups[group][key];
      if Expired(entry, now) {
        groups := groups[group := groups[group] - {key}];
        return Missing(group);
      }
      entry := entry.(stamp := now);
      groups := groups[group := groups[group][key := entry]];
      r := entry.signature;
    }

    method ClearSignatureCache(model: string)
      modifies this
      ensures groups == Cleared(old(groups), model)
    {
      if model == "" {
        groups := map[];
        return;
      }
      groups := groups - {GetModelGroup(model)};
    }

    method PurgeExpiredCaches(now: int)
      modifies this
      ensures groups == Purged(old(groups), now)
      ensures forall g, k :: Holds(groups, g, k) <==>
        Holds(old(groups), g, k) && now - old(groups)[g][k].stamp <= TTL
      ensures forall g, k :: Holds(groups, g, k) ==> groups[g][k] == old(groups)[g][k]
      ensures forall g :: g in groups ==> groups[g] != map[]
    {
      hide Holds;
      var todo := groups.Keys;
      while todo != {}
        invariant todo <= groups.Keys && todo <= old(groups).Keys
        invariant forall g :: g in todo ==> groups[g] == old(groups)[g]
        invariant forall g :: g in groups && g !in todo <==> g in Purged(old(groups), now) && g !in todo
        invariant forall g :: g in groups && g !in todo ==> groups[g] == Purged(old(groups), now)[g]
      {
        var g :| g in todo;
        todo := todo - {g};
        var rest := DropExpired(groups[g], now);
        if rest == map[] {
          groups := groups - {g};
        } else {
          groups := groups[g := rest];
        }
      }
      PurgedHolds(old(groups), now);
    }

    method DropExpired(entries: map<string, Entry>, now: int) returns (rest: map<string, Entry>)
      ensures rest == Unexpired(entries, now)
    {
      rest := entries;
      var todo := entries.Keys;
      while todo != {}
        invariant todo <= entries.Keys
        invariant rest == map k | k in entries && (k in todo || !Expired(entries[k], now)) :: entries[k]
      {
        var k :| k in todo;
        todo := todo - {k};
        if Expired(entries[k], now) {
          rest := rest - {k};
        }
      }
    }
  }

  // ---------- runs ----------

  datatype Op = Cache(model: string, text: string, signature: string) | Get(model: string, text: string)
              | Clear(model: string) | Purge

  datatype Event = Event(op: Op, now: int)

  function Step(hash: string -> string, groups: Groups, e: Event): (Groups, string)
  {
    match e.op
    case Cache(model, text, signature) =>
      (if Storable(text, signature) then Store(groups, GetModelGroup(model), hash(text), Entry(signature, e.now))
        else groups, "")
    case Get(model, text) => Fetch(groups, GetModelGroup(model), text, hash(text), e.now)
    case Clear(model) => (Cleared(groups, model), "")
    case Purge => (Purged(groups, e.now), "")
  }

  predicate Ordered(events: seq<Event>, from: int)
  {
    events == [] || (from <= events[0].now && Ordered(events[1..], events[0].now))
  }

  /** What the callers see: one answer for each event but the purges. */
  function Answers(hash: string -> string, groups: Groups, events: seq<Event>): seq<string>
    decreases |events|
  {
    if events == [] then []
    else
      var (groups', answer) := Step(hash, groups, events[0]);
      (if events[0].op.Purge? then [] else [answer]) + Answers(hash, groups', events[1..])
  }

  function WithoutPurges(events: seq<Event>): seq<Event>
  {
    if events == [] then [] else (if events[0].op.Purge? then [] else [events[0]]) + WithoutPurges(events[1..])
  }

  /** No caller can tell a from b at time now or later. */
  ghost predicate SameLive(a: Groups, b: Groups, now: int)
  {
    forall g, k :: Live(a, g, k, now) == Live(b, g, k, now)
  }

  lemma SameLiveLater(a: Groups, b: Groups, now: int, later: int)
    requires SameLive(a, b, now) && now <= later
    ensures SameLive(a, b, later)
  {
    forall g, k
      ensures Live(a, g, k, later) == Live(b, g, k, later)
    {
      assert Live(a, g, k, now) == Live(b, g, k, now);
    }
  }

  lemma PurgeUnseen(a: Groups, now: int)
    ensures SameLive(Purged(a, now), a, now)
  {
    forall g, k
      ensures Live(Purged(a, now), g, k, now) == Live(a, g, k, now)
    {
      if g in a && k in a[g] && !Expired(a[g][k], now) {
        assert k in Unexpired(a[g], now);
      }
    }
  }

  lemma SameAnswers(hash: string -> string, a: Groups, b: Groups, e: Event)
    requires SameLive(a, b, e.now) && !e.op.Purge?
    ensures Step(hash, a, e).1 == Step(hash, b, e).1
    ensures SameLive(Step(hash, a, e).0, Step(hash, b, e).0, e.now)
  {
    hide GetModelGroup, Expired;
    match e.op
    case Cache(model, text, signature) =>
      StoreSame(a, b, GetModelGroup(model), hash(text), Entry(signature, e.now), e.now);
    case Get(model, text) =>
      assert Live(a, GetModelGroup(model), hash(text), e.now) == Live(b, GetModelGroup(model), hash(text), e.now);
      FetchSame(a, b, GetModelGroup(model), text, hash(text), e.now);
    case Clear(model) =>
      forall g, k
        ensures Live(Cleared(a, model), g, k, e.now) == Live(Cleared(b, model), g, k, e.now)
      {
        assert Live(a, g, k, e.now) == Live(b, g, k, e.now);
      }
    case Purge =>
  }

  lemma StoreSame(a: Groups, b: Groups, group: string, key: string, e: Entry, now: int)
    requires SameLive(a, b, now)
    ensures SameLive(Store(a, group, key, e), Store(b, group, key, e), now)
  {
    forall g, k
      ensures Live(Store(a, group, key, e), g, k, now) == Live(Store(b, group, key, e), g, k, now)
    {
      assert Live(a, g, k, now) == Live(b, g, k, now);
    }
  }

  lemma FetchSame(a: Groups, b: Groups, group: string, text: string, key: string, now: int)
    requires SameLive(a, b, now)
    ensures Fetch(a, group, text, key, now).1 == Fetch(b, group, text, key, now).1
    ensures SameLive(Fetch(a, group, text, key, now).0, Fetch(b, group, text, key, now).0, now)
  {
    var a', b' := Fetch(a, group, text, key, now).0, Fetch(b, group, text, key, now).0;
    assert Live(a, group, key, now) == Live(b, group, key, now);
    forall g, k
      ensures Live(a', g, k, now) == Live(b', g, k, now)
    {
      assert Live(a, g, k, now) == Live(b, g, k, now);
    }
  }

  /** Whatever purges a run contains, its answers are those of the run without them. */
  lemma {:induction false} PurgingUnobservable(hash: string -> string, a: Groups, b: Groups, events: seq<Event>,
                                               now: int)
    requires SameLive(a, b, now) && Ordered(events, now)
    ensures Answers(hash, a, events) == Answers(hash, b, WithoutPurges(events))
    decreases |events|
  {
    if events != [] {
      var e := events[0];
      SameLiveLater(a, b, now, e.now);
      if e.op.Purge? {
        PurgeUnseen(a, e.now);
        PurgingUnobservable(hash, Purged(a, e.now), b, events[1..], e.now);
        assert WithoutPurges(events) == WithoutPurges(events[1..]);
      } else {
        SameAnswers(hash, a, b, e);
        PurgingUnobservable(hash, Step(hash, a, e).0, Step(hash, b, e).0, events[1..], e.now);
        assert ([e] + WithoutPurges(events[1..]))[1..] == WithoutPurges(events[1..]);
      }
    }
  }

  lemma PurgesCanBeRemoved(hash: string -> string, events: seq<Event>, start: int)
    requires Ordered(events, start)
    ensures Answers(hash, map[], events) == Answers(hash, map[], WithoutPurges(events))
  {
    PurgingUnobservable(hash, map[], map[], events, start);
  }

  // ---------- answers are usable ----------

  ghost predicate AllValid(groups: Groups)
  {
    forall g, k :: g in groups && k in groups[g] ==>
      groups[g][k].signature != "" && ByteLength(groups[g][k].signature) >= MIN_SIGNATURE_LENGTH
  }

  lemma StepKeepsValid(hash: string -> string, groups: Groups, e: Event)
    requires AllValid(groups)
    ensures AllValid(Step(hash, groups, e).0)
    ensures e.op.Get? ==> Step(hash, groups, e).1 == "" || HasValidSignature(e.op.model, Step(hash, groups, e).1)
  {
    hide GetModelGroup, ByteLength;
  }

  function After(hash: string -> string, groups: Groups, events: seq<Event>): Groups
    decreases |events|
  {
    if events == [] then groups else After(hash, Step(hash, groups, events[0]).0, events[1..])
  }

  lemma {:induction false} AlwaysValid(hash: string -> string, groups: Groups, events: seq<Event>)
    requires AllValid(groups)
    ensures AllValid(After(hash, groups, events))
    decreases |events|
  {
    if events != [] {
      StepKeepsValid(hash, groups, events[0]);
      AlwaysValid(hash, Step(hash, groups, events[0]).0, events[1..]);
    }
  }

  /** After any history, an answer that is not empty is a valid signature for the model asked about. */
  lemma AnswersAreValid(hash: string -> string, events: seq<Event>, model: string, text: string, now: int)
    ensures var answer := Step(hash, After(hash, map[], events), Event(Get(model, text), now)).1;
      answer == "" || HasValidSignature(model, answer)
  {
    AlwaysValid(hash, map[], events);
    StepKeepsValid(hash, After(hash, map[], events), Event(Get(model, text), now));
  }

  // ---------- the sliding expiry ----------

  /** Reads of one key, each no later than TTL after the one before, the first no later than TTL after it was stored. */
  predicate KeptAlive(times: seq<int>, stored: int)
  {
    times == [] || (stored <= times[0] && times[0] - stored <= TTL && KeptAlive(times[1..], times[0]))
  }

  function Reads(model: string, text: string, times: seq<int>): seq<Event>
  {
    if times == [] then [] else [Event(Get(model, text), times[0])] + Reads(model, text, times[1..])
  }

  /** A signature read often enough is answered every time, however long ago it was stored. */
  lemma {:induction false} ReadsKeepAlive(hash: string -> string, groups: Groups, model: string, text: string,
                                          times: seq<int>,
                                          e: Entry, i: nat)
    requires text != "" && Live(groups, GetModelGroup(model), hash(text), e.stamp) == Some(e)
    requires KeptAlive(times, e.stamp) && i < |times|
    ensures |Answers(hash, groups, Reads(model, text, times))| == |times|
    ensures Answers(hash, groups, Reads(model, text, times))[i] == e.signature
    decreases |times|
  {
    hide GetModelGroup;
    var events := Reads(model, text, times);
    assert events[1..] == Reads(model, text, times[1..]);
    var groups' := Step(hash, groups, events[0]).0;
    var e' := e.(stamp := times[0]);
    assert Live(groups', GetModelGroup(model), hash(text), times[0]) == Some(e');
    if |times| == 1 {
      assert Answers(hash, groups', events[1..]) == [];
    } else {
      ReadsKeepAlive(hash, groups', model, text, times[1..], e', if i == 0 then 0 else i - 1);
    }
  }

  // ---------- what a read answers, told from the history alone ----------

  /** e keeps a signature for this group and hash. */
  predicate Keeps(hash: string -> string, e: Event, group: string, key: string)
  {
    && e.op.Cache? && GetModelGroup(e.op.model) == group && hash(e.op.text) == key
    && e.op.text != "" && e.op.signature != "" && ByteLength(e.op.signature) >= MIN_SIGNATURE_LENGTH
  }

  predicate Asks(hash: string -> string, e: Event, group: string, key: string)
  {
    e.op.Get? && GetModelGroup(e.op.model) == group && hash(e.op.text) == key && e.op.text != ""
  }

  predicate Forgets(e: Event, group: string)
  {
    e.op.Clear? && (e.op.model == "" || GetModelGroup(e.op.model) == group)
  }

  ghost predicate Sorted(events: seq<Event>)
  {
    forall x, y :: 0 <= x <= y < |events| ==> events[x].now <= events[y].now
  }

  ghost predicate InOrder(events: seq<Event>, until: int)
  {
    Sorted(events) && forall i :: 0 <= i < |events| ==> events[i].now <= until
  }

  /** Among the first n events the i-th is the last to keep a signature for this group and hash, and nothing has
      forgotten it since. */
  ghost predicate LastKept(hash: string -> string, events: seq<Event>, n: nat, i: nat, group: string, key: string)
    requires n <= |events|
  {
    && i < n && Keeps(hash, events[i], group, key)
    && forall j :: i < j < n ==> !Keeps(hash, events[j], group, key) && !Forgets(events[j], group)
  }

  /** What event i keeps is used by event k: kept or asked for. */
  ghost predicate Uses(hash: string -> string, events: seq<Event>, i: nat, k: nat, group: string, key: string)
    requires i <= k < |events|
  {
    k == i || Asks(hash, events[k], group, key)
  }

  /** Some use of what event i keeps comes before event j, and no more than TTL before time t. */
  ghost predicate UsedBefore(hash: string -> string, events: seq<Event>, i: nat, j: nat, group: string, key: string,
                             t: int)
    requires i < |events| && j <= |events|
  {
    exists k :: i <= k < j && Uses(hash, events, i, k, group, key) && t - events[k].now <= TTL
  }

  /** Among the first n events no gap between uses of what event i keeps exceeds TTL. */
  ghost predicate Unbroken(hash: string -> string, events: seq<Event>, n: nat, i: nat, group: string, key: string)
    requires i < n <= |events|
  {
    forall j :: i < j < n && Asks(hash, events[j], group, key) ==>
      UsedBefore(hash, events, i, j, group, key, events[j].now)
  }

  /** The signature that event i keeps can still be read at the end of the history, at time t. */
  ghost predicate Readable(hash: string -> string, events: seq<Event>, i: nat, group: string, key: string, t: int)
  {
    && LastKept(hash, events, |events|, i, group, key)
    && Unbroken(hash, events, |events|, i, group, key) && UsedBefore(hash, events, i, |events|, group, key, t)
  }

  /** One entry, from event to event. */
  function HeldNext(hash: string -> string, held: Option<Entry>, e: Event, group: string, key: string): Option<Entry>
  {
    if Keeps(hash, e, group, key) then Some(Entry(e.op.signature, e.now))
    else if Forgets(e, group) then None
    else if Asks(hash, e, group, key) && held.Some? then
      (if e.now - held.value.stamp <= TTL then Some(held.value.(stamp := e.now)) else None)
    else held
  }

  ghost function Held(hash: string -> string, events: seq<Event>, n: nat, group: string, key: string): Option<Entry>
    requires n <= |events|
  {
    if n == 0 then None else HeldNext(hash, Held(hash, events, n - 1, group, key), events[n - 1], group, key)
  }

  function AliveAt(held: Option<Entry>, t: int): Option<Entry>
  {
    if held.Some? && t - held.value.stamp <= TTL then held else None
  }

  lemma StepHeld(hash: string -> string, groups: Groups, e: Event, group: string, key: string, held: Option<Entry>,
                 t: int)
    requires t >= e.now && forall u :: u >= e.now ==> Live(groups, group, key, u) == AliveAt(held, u)
    ensures Live(Step(hash, groups, e).0, group, key, t) == AliveAt(HeldNext(hash, held, e, group, key), t)
  {
    hide GetModelGroup, ByteLength;
    assert Live(groups, group, key, t) == AliveAt(held, t);
    assert Live(groups, group, key, e.now) == AliveAt(held, e.now);
    if e.op.Purge? {
      PurgeUnseen(groups, e.now);
      SameLiveLater(Purged(groups, e.now), groups, e.now, t);
    }
  }

  lemma AfterOneMore(hash: string -> string, groups: Groups, events: seq<Event>, e: Event)
    ensures After(hash, groups, events + [e]) == Step(hash, After(hash, groups, events), e).0
    decreases |events|
  {
    hide Step;
    if events == [] {
      assert [] + [e] == [e] && [e][1..] == [];
    } else {
      assert (events + [e])[1..] == events[1..] + [e];
      AfterOneMore(hash, Step(hash, groups, events[0]).0, events[1..], e);
    }
  }

  lemma {:induction false} HeldIsLive(hash: string -> string, events: seq<Event>, n: nat, group: string, key: string,
                                      t: int)
    requires n <= |events| && InOrder(events, t)
    ensures Live(After(hash, map[], events[..n]), group, key, t) == AliveAt(Held(hash, events, n, group, key), t)
    decreases n
  {
    hide Step;
    if n > 0 {
      var e, before := events[n - 1], After(hash, map[], events[..n - 1]);
      assert events[..n] == events[..n - 1] + [e];
      AfterOneMore(hash, map[], events[..n - 1], e);
      forall u | u >= e.now
        ensures Live(before, group, key, u) == AliveAt(Held(hash, events, n - 1, group, key), u)
      {
        assert events[..n - 1] == events[..n][..n - 1];
        HeldAgain(hash, events, n - 1, group, key);
        HeldIsLive(hash, events[..n - 1], n - 1, group, key, u);
        assert events[..n - 1][..n - 1] == events[..n - 1];
      }
      StepHeld(hash, before, e, group, key, Held(hash, events, n - 1, group, key), t);
    }
  }

  lemma {:induction false} HeldAgain(hash: string -> string, events: seq<Event>, n: nat, group: string, key: string)
    requires n <= |events|
    ensures Held(hash, events[..n], n, group, key) == Held(hash, events, n, group, key)
    decreases n
  {
    if n > 0 {
      HeldAgain(hash, events, n - 1, group, key);
      HeldAgain(hash, events[..n], n - 1, group, key);
      assert events[..n][..n - 1] == events[..n - 1];
    }
  }

  /** held is what event i, the last keeping one, kept, stamped by its last use k; or none, as some use is broken. */
  ghost predicate Told(hash: string -> string, events: seq<Event>, n: nat, held: Option<Entry>, i: nat, k: nat,
                       group: string, key: string)
    requires n <= |events|
  {
    if held.Some? then
      && LastKept(hash, events, n, i, group, key) && Unbroken(hash, events, n, i, group, key)
      && i <= k < n && Uses(hash, events, i, k, group, key)
      && (forall j :: k < j < n ==> !Asks(hash, events[j], group, key))
      && held.value == Entry(events[i].op.signature, events[k].now)
    else forall x: nat :: LastKept(hash, events, n, x, group, key) ==> !Unbroken(hash, events, n, x, group, key)
  }

  lemma {:induction false} HeldTells(hash: string -> string, events: seq<Event>, n: nat, group: string, key: string)
    returns (i: nat, k: nat)
    requires n <= |events| && Sorted(events)
    ensures Told(hash, events, n, Held(hash, events, n, group, key), i, k, group, key)
    decreases n
  {
    hide Told, Sorted;
    if n == 0 {
      i, k := 0, 0;
      NothingTold(hash, events, group, key);
    } else {
      i, k := HeldTells(hash, events, n - 1, group, key);
      i, k := ToldNext(hash, events, n - 1, Held(hash, events, n - 1, group, key), i, k, group, key);
    }
  }

  lemma NothingTold(hash: string -> string, events: seq<Event>, group: string, key: string)
    ensures Told(hash, events, 0, None, 0, 0, group, key)
  {
  }

  lemma ToldNext(hash: string -> string, events: seq<Event>, m: nat, held: Option<Entry>, i: nat, k: nat,
                 group: string, key: string)
    returns (i': nat, k': nat)
    requires m < |events| && Sorted(events) && Told(hash, events, m, held, i, k, group, key)
    ensures Told(hash, events, m + 1, HeldNext(hash, held, events[m], group, key), i', k', group, key)
  {
    hide Keeps, Asks, Forgets, Sorted, LastKept, Unbroken;
    var e := events[m];
    KindsApart(hash, e, group, key);
    i', k' := i, k;
    if Keeps(hash, e, group, key) {
      i', k' := m, m;
      JustKept(hash, events, m, group, key);
    } else {
      NothingNew(hash, events, m, m + 1, group, key);
      if Asks(hash, e, group, key) && held.Some? {
        AskedAgain(hash, events, m, m + 1, i, k, group, key);
        k' := if e.now - events[k].now <= TTL then m else k;
      }
    }
  }

  lemma JustKept(hash: string -> string, events: seq<Event>, m: nat, group: string, key: string)
    requires m < |events| && Keeps(hash, events[m], group, key)
    ensures LastKept(hash, events, m + 1, m, group, key) && Unbroken(hash, events, m + 1, m, group, key)
  {
  }

  lemma KindsApart(hash: string -> string, e: Event, group: string, key: string)
    ensures Keeps(hash, e, group, key) ==> !Forgets(e, group) && !Asks(hash, e, group, key)
    ensures Forgets(e, group) ==> !Asks(hash, e, group, key)
  {
  }

  /** Unless it keeps something itself, an event leaves the last keeping one, and mends nothing. */
  lemma NothingNew(hash: string -> string, events: seq<Event>, m: nat, n: nat, group: string, key: string)
    requires n == m + 1 <= |events| && !Keeps(hash, events[m], group, key)
    ensures forall x: nat :: LastKept(hash, events, n, x, group, key) <==>
      LastKept(hash, events, m, x, group, key) && !Forgets(events[m], group)
    ensures forall x: nat :: x < m && Unbroken(hash, events, n, x, group, key) ==>
      Unbroken(hash, events, m, x, group, key)
    ensures forall x: nat :: x < m && !Asks(hash, events[m], group, key) ==>
      (Unbroken(hash, events, m, x, group, key) ==> Unbroken(hash, events, n, x, group, key))
    ensures forall x: nat :: LastKept(hash, events, m, x, group, key) ==> x < m
  {
    hide Keeps, Asks, Forgets;
  }

  /** A read of what is held breaks it exactly when its last use is too long ago. */
  lemma AskedAgain(hash: string -> string, events: seq<Event>, m: nat, n: nat, i: nat, k: nat, group: string,
                   key: string)
    requires n == m + 1 <= |events| && Sorted(events)
    requires LastKept(hash, events, m, i, group, key) && Unbroken(hash, events, m, i, group, key)
    requires i <= k < m && Uses(hash, events, i, k, group, key)
    requires forall j :: k < j < m ==> !Asks(hash, events[j], group, key)
    requires Asks(hash, events[m], group, key) && !Keeps(hash, events[m], group, key) && !Forgets(events[m], group)
    ensures LastKept(hash, events, n, i, group, key)
    ensures forall x: nat :: LastKept(hash, events, n, x, group, key) ==> x == i
    ensures Unbroken(hash, events, n, i, group, key) <==> events[m].now - events[k].now <= TTL
  {
    hide Keeps, Asks, Forgets;
    LastUse(hash, events, m, i, k, group, key, events[m].now);
  }

  lemma LastUse(hash: string -> string, events: seq<Event>, m: nat, i: nat, k: nat, group: string, key: string,
                t: int)
    requires m <= |events| && Sorted(events)
    requires i <= k < m && Uses(hash, events, i, k, group, key)
    requires forall j :: k < j < m ==> !Asks(hash, events[j], group, key)
    ensures UsedBefore(hash, events, i, m, group, key, t) <==> t - events[k].now <= TTL
  {
    hide Keeps, Asks, Forgets;
  }

  /** What a read answers, from the history alone: the signature that was last kept for its group and hash, if nothing
      has forgotten it since and no gap between its uses exceeds TTL; in every other case that there is none. */
  lemma AnswerFromHistory(hash: string -> string, events: seq<Event>, model: string, text: string, now: int)
    requires InOrder(events, now)
    ensures var answer := Step(hash, After(hash, map[], events), Event(Get(model, text), now)).1;
      var group, key := GetModelGroup(model), hash(text);
      && (forall i: nat :: text != "" && Readable(hash, events, i, group, key, now) ==>
            answer == events[i].op.signature)
      && (text == "" || (forall i: nat :: !Readable(hash, events, i, group, key, now)) ==>
            answer == if group == "gemini" then SENTINEL else "")
  {
    hide Keeps, Asks, Forgets, GetModelGroup, LastKept, Unbroken, UsedBefore;
    var group, key, n := GetModelGroup(model), hash(text), |events|;
    var i, k := HeldTells(hash, events, n, group, key);
    var held := Held(hash, events, n, group, key);
    HeldIsLive(hash, events, n, group, key, now);
    assert events[..n] == events;
    OnlyOneKept(hash, events, group, key);
    if held.Some? {
      LastUse(hash, events, n, i, k, group, key, now);
      assert Readable(hash, events, i, group, key, now) <==> AliveAt(held, now).Some?;
    }
  }

  lemma OnlyOneKept(hash: string -> string, events: seq<Event>, group: string, key: string)
    ensures forall x: nat, y: nat ::
      (LastKept(hash, events, |events|, x, group, key) && LastKept(hash, events, |events|, y, group, key)) ==> x == y
  {
  }

  /** A signature is valid for a model exactly when, kept for it, it can be read back. */
  lemma ValidIffReadBack(hash: string -> string, model: string, text: string, signature: string, now: int)
    requires text != "" && signature != ""
    ensures HasValidSignature(model, signature) <==>
      Step(hash, After(hash, map[], [Event(Cache(model, text, signature), now)]), Event(Get(model, text), now)).1
        == signature
  {
    hide GetModelGroup, ByteLength;
    AfterOne(hash, Event(Cache(model, text, signature), now));
    hide After;
  }

  lemma AfterOne(hash: string -> string, e: Event)
    ensures After(hash, map[], [e]) == Step(hash, map[], e).0
  {
    hide Step;
    assert [e][1..] == [];
  }
}
