/** The records of the usage statistics, and the key under which an import recognises a record it has seen. */
module UsageKeys {

  datatype Tokens = Tokens(input: int, output: int, reasoning: int, cached: int, total: int)

  type Hour = h: int | 0 <= h < 24

  /** A point in time: its RFC 3339 text in UTC, which names the instant, and its calendar day and hour in its own
      zone. */
  datatype Stamp = Stamp(utc: string, day: string, hour: Hour) {
    predicate IsZero() { utc == "0001-01-01T00:00:00Z" }
  }

  datatype Detail = Detail(stamp: Stamp, latency: int, source: string, auth: string, tokens: Tokens, failed: bool)

  /** One stored record and how it came: by Record, or from a snapshot. */
  datatype Event = Event(api: string, model: string, detail: Detail, imported: bool)

  function NormalTokens(t: Tokens): Tokens
  {
    var t := if t.total == 0 then t.(total := t.input + t.output + t.reasoning) else t;
    if t.total == 0 then t.(total := t.input + t.output + t.reasoning + t.cached) else t
  }

  /** Only the total is filled in: a reported one stays, else it is the sum of input, output and reasoning, and where
      that is nothing, what was cached. */
  lemma NormalTotal(t: Tokens)
    ensures var n := NormalTokens(t);
      && n == t.(total := n.total)
      && (t.total != 0 ==> n.total == t.total)
      && (t.total == 0 && t.input + t.output + t.reasoning != 0 ==> n.total == t.input + t.output + t.reasoning)
      && (t.total == 0 && t.input + t.output + t.reasoning == 0 ==> n.total == t.cached)
  {
  }

  lemma NormalTokensTwice(t: Tokens)
    ensures NormalTokens(NormalTokens(t)) == NormalTokens(t)
  {
  }

  // ---------- the key ----------

  function Digit(n: int): char
    requires 0 <= n < 10
  {
    '0' + n as char
  }

  function DecimalNat(n: nat): string
  {
    if n < 10 then [Digit(n)] else DecimalNat(n / 10) + [Digit(n % 10)]
  }

  function Decimal(n: int): string
  {
    if n < 0 then "-" + DecimalNat(-n) else DecimalNat(n)
  }

  function Truth(b: bool): string
  {
    if b then "true" else "false"
  }

  /** Fields joined by a bar, each after the other. */
  function Join(prefix: string, field: string): string
  {
    prefix + "|" + field
  }

  function TokenFields(prefix: string, failed: bool, t: Tokens): string
  {
    Join(Join(Join(Join(Join(Join(prefix, Truth(failed)), Decimal(t.input)), Decimal(t.output)),
              Decimal(t.reasoning)), Decimal(t.cached)), Decimal(t.total))
  }

  function NameFields(api: string, model: string, d: Detail): string
  {
    Join(Join(Join(Join(api, model), d.stamp.utc), d.source), d.auth)
  }

  /** Latency is not part of the key. */
  function DedupKey(api: string, model: string, d: Detail): string
  {
    TokenFields(NameFields(api, model, d), d.failed, NormalTokens(d.tokens))
  }

  function Key(e: Event): string
  {
    DedupKey(e.api, e.model, e.detail)
  }

  // ---------- what the key still tells ----------

  predicate NoBar(s: string)
  {
    forall i :: 0 <= i < |s| ==> s[i] != '|'
  }

  /** The bar before the last field is the last one. */
  lemma LastBar(x: string, a: string)
    requires NoBar(a)
    ensures Join(x, a)[|x|] == '|' && forall j :: |x| < j < |Join(x, a)| ==> Join(x, a)[j] != '|'
  {
    forall j | |x| < j < |Join(x, a)|
      ensures Join(x, a)[j] != '|'
    {
      assert Join(x, a)[j] == a[j - |x| - 1];
    }
  }

  /** The last field can be split off again. */
  lemma LastField(x: string, a: string, y: string, b: string)
    requires NoBar(a) && NoBar(b) && Join(x, a) == Join(y, b)
    ensures x == y && a == b
  {
    LastBar(x, a);
    LastBar(y, b);
    var s := Join(x, a);
    assert |x| == |y|;
    assert x == s[..|x|] && a == s[|x| + 1..];
    assert y == s[..|y|] && b == s[|y| + 1..];
  }

  lemma {:induction false} DecimalNatPlain(n: nat)
    ensures if n < 10 then |DecimalNat(n)| == 1 else |DecimalNat(n)| > 1
    ensures forall i :: 0 <= i < |DecimalNat(n)| ==> '0' <= DecimalNat(n)[i] <= '9'
  {
    if n >= 10 {
      DecimalNatPlain(n / 10);
    }
  }

  lemma DecimalPlain(n: int)
    ensures NoBar(Decimal(n))
  {
    DecimalNatPlain(if n < 0 then -n else n);
  }

  lemma {:induction false} DecimalNatInjective(m: nat, n: nat)
    requires DecimalNat(m) == DecimalNat(n)
    ensures m == n
    decreases m
  {
    DecimalNatPlain(m);
    DecimalNatPlain(n);
    if m >= 10 && n >= 10 {
      var s := DecimalNat(m);
      assert s[..|s| - 1] == DecimalNat(m / 10) && s[..|s| - 1] == DecimalNat(n / 10);
      assert s[|s| - 1] == Digit(m % 10) && s[|s| - 1] == Digit(n % 10);
      DecimalNatInjective(m / 10, n / 10);
    }
  }

  lemma DecimalInjective(m: int, n: int)
    requires Decimal(m) == Decimal(n)
    ensures m == n
  {
    var a, b := if m < 0 then -m else m, if n < 0 then -n else n;
    DecimalNatPlain(a);
    DecimalNatPlain(b);
    assert Decimal(m)[0] == '-' <==> m < 0;
    assert Decimal(n)[0] == '-' <==> n < 0;
    if m < 0 {
      assert Decimal(m)[1..] == DecimalNat(a) && Decimal(n)[1..] == DecimalNat(b);
    }
    DecimalNatInjective(a, b);
  }

  lemma NumberField(x: string, m: int, y: string, n: int)
    requires Join(x, Decimal(m)) == Join(y, Decimal(n))
    ensures x == y && m == n
  {
    DecimalPlain(m);
    DecimalPlain(n);
    LastField(x, Decimal(m), y, Decimal(n));
    DecimalInjective(m, n);
  }

  lemma TokenFieldsTell(x: string, f: bool, s: Tokens, y: string, g: bool, t: Tokens)
    requires TokenFields(x, f, s) == TokenFields(y, g, t)
    ensures x == y && f == g && s == t
  {
    hide Join, Decimal;
    var x1, y1 := Join(x, Truth(f)), Join(y, Truth(g));
    var x2, y2 := Join(x1, Decimal(s.input)), Join(y1, Decimal(t.input));
    var x3, y3 := Join(x2, Decimal(s.output)), Join(y2, Decimal(t.output));
    var x4, y4 := Join(x3, Decimal(s.reasoning)), Join(y3, Decimal(t.reasoning));
    var x5, y5 := Join(x4, Decimal(s.cached)), Join(y4, Decimal(t.cached));
    NumberField(x5, s.total, y5, t.total);
    NumberField(x4, s.cached, y4, t.cached);
    NumberField(x3, s.reasoning, y3, t.reasoning);
    NumberField(x2, s.output, y2, t.output);
    NumberField(x1, s.input, y1, t.input);
    LastField(x, Truth(f), y, Truth(g));
    assert Truth(true)[0] != Truth(false)[0];
  }

  /** The names may run into each other, but equal keys mean equal outcome and equal tokens. */
  lemma KeyTells(a: Event, b: Event)
    requires Key(a) == Key(b)
    ensures a.detail.failed == b.detail.failed
    ensures NormalTokens(a.detail.tokens) == NormalTokens(b.detail.tokens)
  {
    TokenFieldsTell(NameFields(a.api, a.model, a.detail), a.detail.failed, NormalTokens(a.detail.tokens),
                    NameFields(b.api, b.model, b.detail), b.detail.failed, NormalTokens(b.detail.tokens));
  }

  // ---------- when the key tells everything ----------

  function Bars(s: string): nat
  {
    if s == [] then 0 else (if s[|s| - 1] == '|' then 1 else 0) + Bars(s[..|s| - 1])
  }

  lemma {:induction false} BarsConcat(s: string, t: string)
    ensures Bars(s + t) == Bars(s) + Bars(t)
    decreases |t|
  {
    if t == [] {
      assert s + t == s;
    } else {
      assert (s + t)[..|s + t| - 1] == s + t[..|t| - 1];
      BarsConcat(s, t[..|t| - 1]);
    }
  }

  lemma {:induction false} NoBars(s: string)
    ensures NoBar(s) <==> Bars(s) == 0
  {
    if s != [] {
      var front := s[..|s| - 1];
      NoBars(front);
      assert forall i :: 0 <= i < |front| ==> front[i] == s[i];
    }
  }

  lemma BarsJoin(x: string, y: string)
    ensures Bars(Join(x, y)) == Bars(x) + Bars(y) + 1
  {
    BarsConcat(x, "|");
    BarsConcat(x + "|", y);
    assert "|"[..0] == "";
  }

  lemma BarsNames(api: string, model: string, d: Detail)
    ensures Bars(NameFields(api, model, d))
      == Bars(api) + Bars(model) + Bars(d.stamp.utc) + Bars(d.source) + Bars(d.auth) + 4
  {
    BarsJoin(api, model);
    BarsJoin(Join(api, model), d.stamp.utc);
    BarsJoin(Join(Join(api, model), d.stamp.utc), d.source);
    BarsJoin(Join(Join(Join(api, model), d.stamp.utc), d.source), d.auth);
  }

  /** No name field holds a bar; a time, written as RFC 3339 has it, never does. */
  predicate PlainNames(e: Event)
  {
    NoBar(e.api) && NoBar(e.model) && NoBar(e.detail.source) && NoBar(e.detail.auth)
  }

  predicate SameNames(a: Event, b: Event)
  {
    a.api == b.api && a.model == b.model && a.detail.stamp.utc == b.detail.stamp.utc
    && a.detail.source == b.detail.source && a.detail.auth == b.detail.auth
  }

  /** From a record with plain names every field of the key can be read off, whatever the other record looks like. */
  lemma PlainNamesTell(a: Event, b: Event)
    requires PlainNames(a) && NoBar(a.detail.stamp.utc)
    ensures Key(a) == Key(b) <==>
      SameNames(a, b) && a.detail.failed == b.detail.failed
        && NormalTokens(a.detail.tokens) == NormalTokens(b.detail.tokens)
  {
    hide NameFields, NormalTokens, TokenFields, NoBar;
    if Key(a) == Key(b) {
      TokenFieldsTell(NameFields(a.api, a.model, a.detail), a.detail.failed, NormalTokens(a.detail.tokens),
                      NameFields(b.api, b.model, b.detail), b.detail.failed, NormalTokens(b.detail.tokens));
      NamesPlain(a, b);
      NamesTell(a, b);
    } else if SameNames(a, b) {
      SameNameFields(a, b);
    }
  }

  lemma SameNameFields(a: Event, b: Event)
    requires SameNames(a, b)
    ensures NameFields(a.api, a.model, a.detail) == NameFields(b.api, b.model, b.detail)
  {
  }

  /** Equally many bars in all: where one record's names have none, the other's have none. */
  lemma NamesPlain(a: Event, b: Event)
    requires NameFields(a.api, a.model, a.detail) == NameFields(b.api, b.model, b.detail)
    requires PlainNames(a) && NoBar(a.detail.stamp.utc)
    ensures PlainNames(b) && NoBar(b.detail.stamp.utc)
  {
    hide NameFields, NoBar, Bars;
    BarsNames(a.api, a.model, a.detail);
    BarsNames(b.api, b.model, b.detail);
    NoBars(a.api); NoBars(a.model); NoBars(a.detail.stamp.utc); NoBars(a.detail.source); NoBars(a.detail.auth);
    NoBars(b.api); NoBars(b.model); NoBars(b.detail.stamp.utc); NoBars(b.detail.source); NoBars(b.detail.auth);
  }

  lemma NamesTell(a: Event, b: Event)
    requires NameFields(a.api, a.model, a.detail) == NameFields(b.api, b.model, b.detail)
    requires NoBar(a.api) && NoBar(a.model) && NoBar(a.detail.stamp.utc) && NoBar(a.detail.source)
      && NoBar(a.detail.auth)
    requires NoBar(b.api) && NoBar(b.model) && NoBar(b.detail.stamp.utc) && NoBar(b.detail.source)
      && NoBar(b.detail.auth)
    ensures SameNames(a, b)
  {
    hide Join, NoBar;
    var d, d' := a.detail, b.detail;
    var x1, y1 := Join(a.api, a.model), Join(b.api, b.model);
    var x2, y2 := Join(x1, d.stamp.utc), Join(y1, d'.stamp.utc);
    var x3, y3 := Join(x2, d.source), Join(y2, d'.source);
    LastField(x3, d.auth, y3, d'.auth);
    LastField(x2, d.source, y2, d'.source);
    LastField(x1, d.stamp.utc, y1, d'.stamp.utc);
    LastField(a.api, a.model, b.api, b.model);
  }

  // ---------- among records that a store can hold ----------

  /** No store holds a record without an API name, a model name or a time. */
  predicate Storable(e: Event)
  {
    e.api != "" && e.model != "" && e.detail.stamp.utc != "" && NoBar(e.detail.stamp.utc)
  }

  predicate BarOnlyFirst(s: string)
  {
    forall i :: 0 <= i < |s| && s[i] == '|' ==> i == 0
  }

  predicate BarOnlyLast(s: string)
  {
    forall i :: 0 <= i < |s| && s[i] == '|' ==> i == |s| - 1
  }

  /** No border between names can move without leaving a name empty. */
  predicate FirmBorders(e: Event)
  {
    BarOnlyFirst(e.api) && BarOnlyLast(e.model) && NoBar(e.detail.source) && NoBar(e.detail.auth)
  }

  lemma MovesLeft(x: string, y: string, i: nat)
    requires i < |x| && x[i] == '|'
    ensures Join(x[..i], Join(x[i + 1..], y)) == Join(x, y)
  {
    assert x == x[..i] + "|" + x[i + 1..];
  }

  lemma MovesRight(x: string, y: string, i: nat)
    requires i < |y| && y[i] == '|'
    ensures Join(Join(x, y[..i]), y[i + 1..]) == Join(x, y)
  {
    assert y == y[..i] + "|" + y[i + 1..];
  }

  /** A border moves over a bar of the field before it or behind it. */
  lemma BorderMoves(x: string, y: string) returns (x': string, y': string)
    requires !NoBar(x) || !NoBar(y)
    ensures Join(x', y') == Join(x, y) && |x'| != |x|
    ensures !(BarOnlyFirst(x) && BarOnlyLast(y)) ==> x' != "" && y' != ""
  {
    if i :| 0 < i < |x| && x[i] == '|' {
      x', y' := x[..i], Join(x[i + 1..], y);
      MovesLeft(x, y, i);
    } else if i :| 0 <= i < |y| - 1 && y[i] == '|' {
      x', y' := Join(x, y[..i]), y[i + 1..];
      MovesRight(x, y, i);
    } else if |x| > 0 && x[0] == '|' {
      x', y' := "", Join(x[1..], y);
      MovesLeft(x, y, 0);
    } else {
      x', y' := Join(x, y[..|y| - 1]), "";
      MovesRight(x, y, |y| - 1);
    }
  }

  /** Where a border can move there is another record of the same key that a store can hold. */
  lemma BarCollides(a: Event) returns (b: Event)
    requires Storable(a) && !FirmBorders(a)
    ensures Storable(b) && Key(b) == Key(a) && b.detail.stamp == a.detail.stamp && !SameNames(a, b)
  {
    var d := a.detail;
    if !BarOnlyFirst(a.api) || !BarOnlyLast(a.model) {
      var x, y := BorderMoves(a.api, a.model);
      b := Event(x, y, d, a.imported);
    } else {
      var x, y := BorderMoves(d.source, d.auth);
      b := Event(a.api, a.model, d.(source := x, auth := y), a.imported);
      var front := Join(Join(a.api, a.model), d.stamp.utc);
      assert Join(Join(front, x), y) == front + "|" + Join(x, y);
      assert Join(Join(front, d.source), d.auth) == front + "|" + Join(d.source, d.auth);
    }
  }

  lemma OneBarAtMost(s: string)
    ensures BarOnlyFirst(s) ==> Bars(s) <= 1 && (Bars(s) == 1 ==> s[0] == '|')
    ensures BarOnlyLast(s) ==> Bars(s) <= 1 && (Bars(s) == 1 ==> s[|s| - 1] == '|')
    ensures s != "" && s[0] == '|' ==> Bars(s) >= 1
  {
    NoBars(s);
    if s != "" {
      var head, tail, front := s[..1], s[1..], s[..|s| - 1];
      assert s == head + tail && head[..0] == "";
      BarsConcat(head, tail);
      NoBars(tail);
      NoBars(front);
    }
  }

  /** Of two ways to split one string at a bar, the longer end contains the shorter one. */
  lemma LongerEnd(x: string, s: string, y: string, t: string) returns (z: string)
    requires Join(x, s) == Join(y, t) && |s| < |t|
    ensures t == Join(z, s) && x == Join(y, z)
  {
    var whole, cut := Join(x, s), |t| - |s| - 1;
    z := t[..cut];
    assert whole[|x|] == '|' && whole[|y| + 1..] == t && |x| == |y| + 1 + cut;
    assert t[cut] == '|' && t[cut + 1..] == whole[|x| + 1..] == s;
    assert x == whole[..|x|] && x[|y|] == '|' && x[|y| + 1..] == t[..cut] && x[..|y|] == y;
  }

  lemma NamesInTwo(api: string, model: string, d: Detail)
    ensures NameFields(api, model, d) == Join(Join(Join(api, model), d.stamp.utc), Join(d.source, d.auth))
  {
  }

  lemma OtherBorder(x: string, m: string, y: string, n: string)
    requires Join(x, m) == Join(y, n)
    ensures |y| < |x| ==> x[|y|] == '|'
    ensures |y| > |x| ==> |y| - |x| - 1 < |m| - |n| && m[|y| - |x| - 1] == '|'
    ensures |y| == |x| ==> x == y && m == n
  {
    var s := Join(x, m);
    assert x == s[..|x|] && y == s[..|y|] && m == s[|x| + 1..] && n == s[|y| + 1..] && s[|y|] == '|';
  }

  /** With firm borders the first border is where it is. */
  lemma FirstBorder(a: Event, b: Event)
    requires Storable(a) && Storable(b) && FirmBorders(a) && Join(a.api, a.model) == Join(b.api, b.model)
    ensures a.api == b.api && a.model == b.model
  {
    hide Join;
    OtherBorder(a.api, a.model, b.api, b.model);
  }

  lemma LastOfJoin(x: string, y: string)
    requires y != ""
    ensures Join(x, y)[|Join(x, y)| - 1] == y[|y| - 1]
    ensures x != "" ==> Join(x, y)[0] == x[0]
  {
  }

  /** The time of b cannot lie within the names of a. */
  lemma TimeInPlace(a: Event, b: Event, z: string)
    requires Storable(a) && Storable(b) && FirmBorders(a)
    ensures Join(Join(a.api, a.model), a.detail.stamp.utc)
            != Join(Join(Join(b.api, b.model), b.detail.stamp.utc), z)
  {
    hide Bars;
    var p, q, u, v := Join(a.api, a.model), Join(b.api, b.model), a.detail.stamp.utc, b.detail.stamp.utc;
    LastOfJoin(a.api, a.model);
    LastOfJoin(q, v);
    BarsJoin(a.api, a.model); BarsJoin(b.api, b.model);
    BarsJoin(p, u); BarsJoin(q, v); BarsJoin(Join(q, v), z);
    NoBars(u); NoBars(v); NoBars(z);
    OneBarAtMost(a.api); OneBarAtMost(a.model); OneBarAtMost(b.api);
    assert Join(p, u)[0] == a.api[0] && Join(Join(q, v), z)[0] == b.api[0];
    if Join(p, u) == Join(Join(q, v), z) && NoBar(z) {
      LastField(p, u, Join(q, v), z);
    }
  }

  lemma FirmBordersTell(a: Event, b: Event)
    requires Storable(a) && Storable(b) && FirmBorders(a)
    requires NameFields(a.api, a.model, a.detail) == NameFields(b.api, b.model, b.detail)
    ensures SameNames(a, b)
  {
    hide Bars, NameFields, Join, BarOnlyFirst, BarOnlyLast;
    var d, d' := a.detail, b.detail;
    NamesInTwo(a.api, a.model, d);
    NamesInTwo(b.api, b.model, d');
    var x, s := Join(Join(a.api, a.model), d.stamp.utc), Join(d.source, d.auth);
    var y, t := Join(Join(b.api, b.model), d'.stamp.utc), Join(d'.source, d'.auth);
    BarsJoin(d.source, d.auth);
    BarsJoin(d'.source, d'.auth);
    NoBars(d.source); NoBars(d.auth); NoBars(d'.source); NoBars(d'.auth);
    if |t| < |s| {
      var z := LongerEnd(y, t, x, s);
      BarsJoin(z, t);
    } else if |s| < |t| {
      var z := LongerEnd(x, s, y, t);
      TimeInPlace(a, b, z);
    } else {
      SameEnd(x, s, y, t);
      LastField(d.source, d.auth, d'.source, d'.auth);
      LastField(Join(a.api, a.model), d.stamp.utc, Join(b.api, b.model), d'.stamp.utc);
      FirstBorder(a, b);
    }
  }

  lemma SameEnd(x: string, s: string, y: string, t: string)
    requires Join(x, s) == Join(y, t) && |s| == |t|
    ensures x == y && s == t
  {
    var whole := Join(x, s);
    assert x == whole[..|x|] && y == whole[..|y|] && s == whole[|x| + 1..] && t == whole[|y| + 1..];
  }

  /** Every record of the same key that a store can hold has the same names and time. */
  ghost predicate Tells(a: Event)
  {
    forall b :: Storable(b) && Key(b) == Key(a) ==> SameNames(a, b)
  }

  /** Among records that a store can hold, a key tells names and time exactly when no border between names can move. */
  lemma KeyTellsNames(a: Event)
    requires Storable(a)
    ensures Tells(a) <==> FirmBorders(a)
  {
    hide NameFields, TokenFields, NormalTokens, FirmBorders, Storable, SameNames;
    if FirmBorders(a) {
      forall b | Storable(b) && Key(b) == Key(a)
        ensures SameNames(a, b)
      {
        TokenFieldsTell(NameFields(a.api, a.model, a.detail), a.detail.failed, NormalTokens(a.detail.tokens),
                        NameFields(b.api, b.model, b.detail), b.detail.failed, NormalTokens(b.detail.tokens));
        FirmBordersTell(a, b);
      }
    } else {
      var b := BarCollides(a);
    }
  }

  /** One such pair of records. */
  lemma NamesCanCollide(d: Detail)
    ensures DedupKey("a|b", "c", d) == DedupKey("a", "b|c", d)
  {
    assert Join("a|b", "c") == Join("a", "b|c");
  }
}
