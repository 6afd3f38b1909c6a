/** The model catalog: change detection per provider, and changes that wait while nobody listens. */
module ModelUpdater {
  import opened Strings

  /** A catalog model: its JSON encoding, and what the encoding leaves out. */
  datatype CatalogModel = CatalogModel(json: string, hidden: string)

  type Section = seq<CatalogModel>

  datatype Catalog = Catalog(
    claude: Section, gemini: Section, vertex: Section, geminiCli: Section, aistudio: Section,
    codexFree: Section, codexTeam: Section, codexPlus: Section, codexPro: Section,
    kimi: Section, antigravity: Section)

  const PROVIDERS: seq<string> :=
    ["claude", "gemini", "vertex", "gemini-cli", "aistudio", "codex", "kimi", "antigravity"]

  /** The sections a provider reads; the codex tiers belong to one provider. */
  function SectionsOf(c: Catalog, p: string): seq<Section>
  {
    if p == "claude" then [c.claude] else if p == "gemini" then [c.gemini]
    else if p == "vertex" then [c.vertex] else if p == "gemini-cli" then [c.geminiCli]
    else if p == "aistudio" then [c.aistudio]
    else if p == "codex" then [c.codexFree, c.codexTeam, c.codexPlus, c.codexPro]
    else if p == "kimi" then [c.kimi] else if p == "antigravity" then [c.antigravity]
    else []
  }

  /** The JSON text of a list stands for the texts of its elements. */
  function Encoded(s: Section): seq<string>
  {
    seq(|s|, i requires 0 <= i < |s| => s[i].json)
  }

  predicate SectionChanged(a: Section, b: Section)
  {
    if |a| != |b| then true else if |a| == 0 then false else Encoded(a) != Encoded(b)
  }

  /** Element for element the two sections have one JSON text. */
  predicate SameJson(a: Section, b: Section)
  {
    |a| == |b| && forall i :: 0 <= i < |a| ==> a[i].json == b[i].json
  }

  /** A section counts as changed exactly when the JSON texts differ, whatever the encoding leaves out. */
  lemma ChangedIffJsonDiffers(a: Section, b: Section)
    ensures SectionChanged(a, b) <==> !SameJson(a, b)
  {
    if !SectionChanged(a, b) {
      forall i | 0 <= i < |a| ensures a[i].json == b[i].json {
        assert Encoded(a)[i] == Encoded(b)[i];
      }
    }
    if SameJson(a, b) { assert Encoded(a) == Encoded(b); }
  }

  predicate SameSections(a: seq<Section>, b: seq<Section>)
  {
    |a| == |b| && forall i :: 0 <= i < |a| ==> SameJson(a[i], b[i])
  }

  /** Every section of the catalog is compared under its own provider. */
  lemma SectionsBelong(a: Catalog, b: Catalog)
    ensures SameSections(SectionsOf(a, "claude"), SectionsOf(b, "claude")) <==> SameJson(a.claude, b.claude)
    ensures SameSections(SectionsOf(a, "gemini"), SectionsOf(b, "gemini")) <==> SameJson(a.gemini, b.gemini)
    ensures SameSections(SectionsOf(a, "vertex"), SectionsOf(b, "vertex")) <==> SameJson(a.vertex, b.vertex)
    ensures SameSections(SectionsOf(a, "gemini-cli"), SectionsOf(b, "gemini-cli")) <==>
      SameJson(a.geminiCli, b.geminiCli)
    ensures SameSections(SectionsOf(a, "aistudio"), SectionsOf(b, "aistudio")) <==> SameJson(a.aistudio, b.aistudio)
    ensures SameSections(SectionsOf(a, "kimi"), SectionsOf(b, "kimi")) <==> SameJson(a.kimi, b.kimi)
    ensures SameSections(SectionsOf(a, "antigravity"), SectionsOf(b, "antigravity")) <==>
      SameJson(a.antigravity, b.antigravity)
    ensures SameSections(SectionsOf(a, "codex"), SectionsOf(b, "codex")) <==>
      && SameJson(a.codexFree, b.codexFree) && SameJson(a.codexTeam, b.codexTeam)
      && SameJson(a.codexPlus, b.codexPlus) && SameJson(a.codexPro, b.codexPro)
  {
    hide SameJson;
    forall x: Section, y: Section
      ensures SameSections([x], [y]) <==> SameJson(x, y)
    {
      assert [x][0] == x && [y][0] == y;
    }
    var x, y := SectionsOf(a, "codex"), SectionsOf(b, "codex");
    assert x[0] == a.codexFree && x[1] == a.codexTeam && x[2] == a.codexPlus && x[3] == a.codexPro;
    assert y[0] == b.codexFree && y[1] == b.codexTeam && y[2] == b.codexPlus && y[3] == b.codexPro;
  }

  lemma SameSectionsTransitive(a: seq<Section>, b: seq<Section>, c: seq<Section>)
    requires SameSections(a, b) && SameSections(b, c)
    ensures SameSections(a, c)
  {
    forall i | 0 <= i < |a|
      ensures SameJson(a[i], c[i])
    {
      assert SameJson(a[i], b[i]) && SameJson(b[i], c[i]);
    }
  }

  lemma SameSectionsReflexive(a: seq<Section>)
    ensures SameSections(a, a)
  {
  }

  datatype Pair = Pair(provider: string, before: Section, after: Section)

  /** The comparisons in the order they are made. */
  function Pairs(a: Catalog, b: Catalog): seq<Pair>
  {
    [Pair("claude", a.claude, b.claude), Pair("gemini", a.gemini, b.gemini), Pair("vertex", a.vertex, b.vertex),
     Pair("gemini-cli", a.geminiCli, b.geminiCli), Pair("aistudio", a.aistudio, b.aistudio),
     Pair("codex", a.codexFree, b.codexFree), Pair("codex", a.codexTeam, b.codexTeam),
     Pair("codex", a.codexPlus, b.codexPlus), Pair("codex", a.codexPro, b.codexPro),
     Pair("kimi", a.kimi, b.kimi), Pair("antigravity", a.antigravity, b.antigravity)]
  }

  ghost predicate SomePairChanged(pairs: seq<Pair>, p: string)
  {
    exists i :: 0 <= i < |pairs| && pairs[i].provider == p && SectionChanged(pairs[i].before, pairs[i].after)
  }

  ghost predicate NoRepeats(names: seq<string>)
  {
    forall i, j :: 0 <= i < j < |names| ==> names[i] != names[j]
  }

  /** A provider has a changed comparison exactly when its sections differ. */
  lemma PairsCoverSections(a: Catalog, b: Catalog, p: string)
    ensures SomePairChanged(Pairs(a, b), p) <==> p in PROVIDERS && !SameSections(SectionsOf(a, p), SectionsOf(b, p))
  {
    hide SectionChanged, SameJson;
    var pairs, x, y := Pairs(a, b), SectionsOf(a, p), SectionsOf(b, p);
    if p in PROVIDERS && !SameSections(x, y) {
      var k :| 0 <= k < |x| && !SameJson(x[k], y[k]);
      var i := if p == "claude" then 0 else if p == "gemini" then 1 else if p == "vertex" then 2
               else if p == "gemini-cli" then 3 else if p == "aistudio" then 4 else if p == "codex" then 5 + k
               else if p == "kimi" then 9 else 10;
      assert pairs[i] == Pair(p, x[k], y[k]);
      ChangedIffJsonDiffers(x[k], y[k]);
    }
    if SomePairChanged(pairs, p) {
      var i :| 0 <= i < |pairs| && pairs[i].provider == p && SectionChanged(pairs[i].before, pairs[i].after);
      var k := if 5 <= i <= 8 then i - 5 else 0;
      assert pairs[i] == Pair(p, x[k], y[k]);
      ChangedIffJsonDiffers(x[k], y[k]);
    }
  }

  /** Names exactly the providers whose definitions differ, each once. */
  method DetectChangedProviders(oldData: Catalog, newData: Catalog) returns (changed: seq<string>)
    ensures NoRepeats(changed)
    ensures forall p :: p in changed <==>
      p in PROVIDERS && !SameSections(SectionsOf(oldData, p), SectionsOf(newData, p))
  {
    hide SectionChanged, SectionsOf, SameSections;
    var sections := Pairs(oldData, newData);
    var seen: set<string> := {};
    changed := [];
    for i := 0 to |sections|
      invariant NoRepeats(changed) && forall p :: p in seen <==> p in changed
      invariant forall p :: p in changed <==> SomePairChanged(sections[..i], p)
    {
      PairsOneMore(sections, i);
      var s := sections[i];
      if s.provider in seen {
        continue;
      }
      if SectionChanged(s.before, s.after) {
        changed := changed + [s.provider];
        seen := seen + {s.provider};
      }
    }
    assert sections[..|sections|] == sections;
    forall p
      ensures p in changed <==> p in PROVIDERS && !SameSections(SectionsOf(oldData, p), SectionsOf(newData, p))
    {
      PairsCoverSections(oldData, newData, p);
    }
  }

  lemma PairsOneMore(pairs: seq<Pair>, i: nat)
    requires i < |pairs|
    ensures forall p :: SomePairChanged(pairs[..i + 1], p) <==>
      SomePairChanged(pairs[..i], p) || (pairs[i].provider == p && SectionChanged(pairs[i].before, pairs[i].after))
  {
    hide SectionChanged;
    var more, less := pairs[..i + 1], pairs[..i];
    forall p
      ensures SomePairChanged(more, p) <==>
        SomePairChanged(less, p) || (pairs[i].provider == p && SectionChanged(pairs[i].before, pairs[i].after))
    {
      if SomePairChanged(less, p) {
        var k :| 0 <= k < |less| && less[k].provider == p && SectionChanged(less[k].before, less[k].after);
        assert more[k] == less[k];
      }
      if pairs[i].provider == p && SectionChanged(pairs[i].before, pairs[i].after) {
        assert more[i] == pairs[i];
      }
      if SomePairChanged(more, p) {
        var k :| 0 <= k < |more| && more[k].provider == p && SectionChanged(more[k].before, more[k].after);
        if k < i { assert less[k] == more[k]; }
      }
    }
  }

  function Normal(name: string): string
  {
    ToLower(TrimSpace(name))
  }

  /** Append the names not yet there, in normal form, blank ones dropped. */
  method AppendNames(merged: seq<string>, names: seq<string>) returns (r: seq<string>)
    requires NoRepeats(merged)
    ensures NoRepeats(r) && merged <= r
    ensures forall n :: n in r <==> n in merged || (n != "" && exists i :: 0 <= i < |names| && Normal(names[i]) == n)
  {
    hide Normal;
    r := merged;
    for i := 0 to |names|
      invariant NoRepeats(r) && merged <= r
      invariant forall n :: n in r <==> n in merged || (n != "" && exists k :: 0 <= k < i && Normal(names[k]) == n)
    {
      var name := Normal(names[i]);
      if name == "" || name in r {
        continue;
      }
      r := r + [name];
    }
  }

  /** The union in normal form, existing names first. */
  method MergeProviderNames(existing: seq<string>, incoming: seq<string>) returns (merged: seq<string>)
    ensures incoming == [] ==> merged == existing
    ensures incoming != [] ==> NoRepeats(merged)
    ensures incoming != [] ==> forall n :: n in merged <==>
      n != "" && exists i :: 0 <= i < |existing + incoming| && Normal((existing + incoming)[i]) == n
  {
    if incoming == [] {
      return existing;
    }
    var first := AppendNames([], existing);
    merged := AppendNames(first, incoming);
    hide Normal;
    var all := existing + incoming;
    forall n
      ensures n in merged <==> n != "" && exists i :: 0 <= i < |all| && Normal(all[i]) == n
    {
      if i :| 0 <= i < |incoming| && Normal(incoming[i]) == n {
        assert all[|existing| + i] == incoming[i];
      }
      if i :| 0 <= i < |existing| && Normal(existing[i]) == n {
        assert all[i] == existing[i];
      }
      if i :| 0 <= i < |all| && Normal(all[i]) == n {
        if i < |existing| { assert existing[i] == all[i]; } else { assert incoming[i - |existing|] == all[i]; }
      }
    }
  }

  lemma ProvidersAreNormal()
    ensures forall p :: p in PROVIDERS ==> p != "" && Normal(p) == p
  {
    forall i | 0 <= i < |PROVIDERS|
      ensures Normal(PROVIDERS[i]) == PROVIDERS[i]
    {
      var p := PROVIDERS[i];
      assert Trimmed(p);
      assert forall k :: 0 <= k < |p| ==> LowerChar(p[k]) == p[k];
      assert ToLower(p) == p;
    }
  }

  /** For every provider that is not waiting, what the listener last read encodes what the catalog holds. */
  ghost predicate InSync(data: Catalog, pending: seq<string>, view: map<string, seq<Section>>)
  {
    forall p :: p in PROVIDERS && p !in pending ==> p in view && SameSections(view[p], SectionsOf(data, p))
  }

  predicate ReadAnew(view: map<string, seq<Section>>, data: Catalog, p: string)
  {
    p in view && view[p] == SectionsOf(data, p)
  }

  predicate Kept(before: map<string, seq<Section>>, after: map<string, seq<Section>>, p: string)
  {
    (p in after <==> p in before) && (p in after ==> after[p] == before[p])
  }

  predicate Differs(a: Catalog, b: Catalog, p: string)
  {
    p in PROVIDERS && !SameSections(SectionsOf(a, p), SectionsOf(b, p))
  }

  class Updater {
    var data: Catalog
    var listening: bool
    var pending: seq<string>

    /** The listener's copy: it re-reads exactly the providers named to it. */
    var view: map<string, seq<Section>>

    ghost predicate Valid()
      reads this
    {
      && (forall p :: p in pending ==> p in PROVIDERS)
      && (listening ==> pending == [])
      && InSync(data, pending, view)
    }

    constructor (embedded: Catalog)
      ensures Valid() && data == embedded && !listening && pending == []
    {
      data, listening, pending := embedded, false, [];
      view := map p | p in PROVIDERS :: SectionsOf(embedded, p);
      new;
      forall p | p in PROVIDERS ensures SameSections(view[p], SectionsOf(data, p)) {
        SameSectionsReflexive(SectionsOf(embedded, p));
      }
    }

    /** The callback itself. */
    method Listen(changedProviders: seq<string>)
      modifies this`view
      ensures forall p :: p in changedProviders ==> ReadAnew(view, data, p)
      ensures forall p :: p !in changedProviders ==> Kept(old(view), view, p)
    {
      hide SectionsOf;
      for i := 0 to |changedProviders|
        invariant forall p :: p in changedProviders[..i] ==> ReadAnew(view, data, p)
        invariant forall p :: p !in changedProviders[..i] ==> Kept(old(view), view, p)
      {
        assert changedProviders[..i + 1] == changedProviders[..i] + [changedProviders[i]];
        view := view[changedProviders[i] := SectionsOf(data, changedProviders[i])];
      }
      assert changedProviders[..|changedProviders|] == changedProviders;
    }

    method SetModelRefreshCallback(present: bool)
      requires Valid()
      modifies this`listening, this`pending, this`view
      ensures Valid() && listening == present
      ensures pending == if present then [] else old(pending)
      ensures forall p :: present && p in old(pending) ==> ReadAnew(view, data, p)
      ensures forall p :: !(present && p in old(pending)) ==> Kept(old(view), view, p)
    {
      hide SectionsOf, SameSections;
      listening := present;
      var flushed: seq<string> := [];
      if present && |pending| > 0 {
        flushed := pending;
        pending := [];
      }
      if present && |flushed| > 0 {
        Listen(flushed);
        forall p | p in PROVIDERS && p !in pending
          ensures p in view && SameSections(view[p], SectionsOf(data, p))
        {
          if p in flushed { SameSectionsReflexive(SectionsOf(data, p)); }
        }
      }
    }

    method NotifyModelRefresh(changedProviders: seq<string>)
      requires forall p :: p in changedProviders ==> p in PROVIDERS
      requires forall p :: p in pending ==> p in PROVIDERS
      requires listening ==> pending == []
      requires InSync(data, pending + changedProviders, view)
      modifies this`pending, this`view
      ensures Valid()
      ensures forall p :: listening && p in changedProviders ==> ReadAnew(view, data, p)
      ensures forall p :: !(listening && p in changedProviders) ==> Kept(old(view), view, p)
      ensures forall p :: p in pending <==> p in old(pending) || (!listening && p in changedProviders)
    {
      hide SectionsOf, SameSections;
      if changedProviders == [] {
        assert pending + changedProviders == pending;
        return;
      }
      if !listening {
        ghost var all := pending + changedProviders;
        pending := MergeProviderNames(pending, changedProviders);
        MergedCovers(all, pending);
        return;
      }
      Listen(changedProviders);
      forall p | p in PROVIDERS && p !in pending
        ensures p in view && SameSections(view[p], SectionsOf(data, p))
      {
        if p in changedProviders { SameSectionsReflexive(SectionsOf(data, p)); }
      }
    }

    /** No change is lost: whatever is fetched, every provider that is not waiting stays in step with the catalog. */
    method TryRefreshModels(fetched: Option<Catalog>)
      requires Valid()
      modifies this`data, this`pending, this`view
      ensures Valid()
      ensures data == if fetched.Some? then fetched.value else old(data)
      ensures forall p :: listening && Differs(old(data), data, p) ==> ReadAnew(view, data, p)
      ensures forall p :: !(listening && Differs(old(data), data, p)) ==> Kept(old(view), view, p)
      ensures forall p :: p in pending <==> p in old(pending) || (!listening && Differs(old(data), data, p))
    {
      hide SectionsOf, SameSections;
      if fetched.None? {
        forall p ensures !Differs(data, data, p) { SameSectionsReflexive(SectionsOf(data, p)); }
        return;
      }
      var changed := DetectChangedProviders(data, fetched.value);
      data := fetched.value;
      RefreshKeepsSync(old(data), data, pending, view, changed);
      if changed == [] {
        assert pending + changed == pending;
        return;
      }
      NotifyModelRefresh(changed);
    }
  }

  lemma MergedCovers(all: seq<string>, merged: seq<string>)
    requires forall p :: p in all ==> p in PROVIDERS
    requires forall n :: n in merged <==> n != "" && exists i :: 0 <= i < |all| && Normal(all[i]) == n
    ensures forall p :: p in merged <==> p in all
  {
    ProvidersAreNormal();
    hide Normal;
    forall p
      ensures p in merged <==> p in all
    {
      if p in all {
        var i :| 0 <= i < |all| && all[i] == p;
        assert Normal(all[i]) == p;
      }
      if p in merged {
        var i :| 0 <= i < |all| && Normal(all[i]) == p;
        assert all[i] in PROVIDERS;
      }
    }
  }

  /** After the catalog is replaced, a listener that re-reads the changed providers is in step with the new one. */
  lemma RefreshKeepsSync(before: Catalog, after: Catalog, pending: seq<string>, view: map<string, seq<Section>>,
                         changed: seq<string>)
    requires InSync(before, pending, view)
    requires forall p :: p in changed <==> p in PROVIDERS && !SameSections(SectionsOf(before, p), SectionsOf(after, p))
    ensures InSync(after, pending + changed, view)
  {
    hide SectionsOf, SameSections;
    forall p | p in PROVIDERS && p !in pending + changed
      ensures p in view && SameSections(view[p], SectionsOf(after, p))
    {
      SameSectionsTransitive(view[p], SectionsOf(before, p), SectionsOf(after, p));
    }
  }
}
