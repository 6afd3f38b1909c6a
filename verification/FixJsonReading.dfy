/** What FixJSON writes, told by a reader that splits a text into tokens and a string into characters and escapes. */
module FixJsonReading {
  import opened FixJson

  // ---------- tokens ----------

  /** How far a string body reaches: up to its closing quote, where a backslash takes the next code point with it. */
  function BodyLength(q: char, s: string): (n: nat)
    ensures n <= |s| && (n < |s| ==> s[n] == q)
    decreases |s|
  {
    if s == "" || s[0] == q then 0
    else if s[0] == '\\' && |s| >= 2 then 2 + BodyLength(q, s[2..])
    else 1 + BodyLength(q, s[1..])
  }

  function Quoted(q: char, body: string, closed: bool): Token
  {
    if q == '"' then DoubleString(body, closed) else SingleString(body, closed)
  }

  function Read(s: string): seq<Token>
    decreases |s|
  {
    if s == "" then []
    else if s[0] == '"' || s[0] == '\'' then
      var n := BodyLength(s[0], s[1..]);
      if n + 1 < |s| then [Quoted(s[0], s[1..n + 1], true)] + Read(s[n + 2..])
      else [Quoted(s[0], s[1..], false)]
    else [Plain(s[0])] + Read(s[1..])
  }

  function Spelled(t: Token): string
  {
    match t
    case Plain(c) => [c]
    case DoubleString(body, closed) => "\"" + body + (if closed then "\"" else "")
    case SingleString(body, closed) => "'" + body + (if closed then "'" else "")
  }

  function Text(ts: seq<Token>): string
  {
    if ts == [] then "" else Spelled(ts[0]) + Text(ts[1..])
  }

  lemma TextFirst(t: Token, ts: seq<Token>)
    ensures Text([t] + ts) == Spelled(t) + Text(ts)
  {
    assert ([t] + ts)[1..] == ts;
  }

  lemma QuotedText(q: char, body: string, closed: bool)
    requires q == '"' || q == '\''
    ensures Spelled(Quoted(q, body, closed)) == [q] + body + if closed then [q] else []
  {
  }

  /** The tokens of a text are all there is to it. */
  lemma {:induction false} TextOfTokens(s: string)
    ensures Text(Read(s)) == s
    decreases |s|
  {
    hide Text, Spelled, Quoted, BodyLength;
    if s == "" {
      NoText();
    } else if s[0] == '"' || s[0] == '\'' {
      var q, n := s[0], BodyLength(s[0], s[1..]);
      if n + 1 < |s| {
        var rest := s[n + 2..];
        TextOfTokens(rest);
        TextFirst(Quoted(q, s[1..n + 1], true), Read(rest));
        QuotedText(q, s[1..n + 1], true);
        assert s[n + 1] == s[1..][n] == q;
        assert s == [q] + s[1..n + 1] + [q] + rest;
      } else {
        TextFirst(Quoted(q, s[1..], false), []);
        QuotedText(q, s[1..], false);
        NoText();
        assert [Quoted(q, s[1..], false)] + [] == [Quoted(q, s[1..], false)];
      }
    } else {
      TextOfTokens(s[1..]);
      TextFirst(Plain(s[0]), Read(s[1..]));
      PlainText(s[0]);
    }
  }

  lemma NoText()
    ensures Text([]) == ""
  {
  }

  lemma PlainText(c: char)
    ensures Spelled(Plain(c)) == [c]
  {
  }

  function OpenMode(q: char): Mode { if q == '"' then Double else Single }

  /** Inside a string the transducer reads on to the end that the reader finds. */
  ghost predicate ReadsOn(q: char, body: string, s: string)
  {
    var n := BodyLength(q, s);
    Tokens(OpenMode(q), body, s) ==
    if n < |s| then [Quoted(q, body + s[..n], true)] + Tokens(Outside, "", s[n + 1..])
    else [Quoted(q, body + s, false)]
  }

  lemma {:induction false} TokensOfString(q: char, body: string, s: string)
    requires q == '"' || q == '\''
    ensures ReadsOn(q, body, s)
    decreases |s|
  {
    hide ReadsOn;
    if s == "" || s[0] == q || s == "\\" {
      StringEnds(q, body, s);
    } else {
      var k := if s[0] == '\\' then 2 else 1;
      TokensOfString(q, body + s[..k], s[k..]);
      StringGoesOn(q, body, s, k);
    }
  }

  lemma StringEnds(q: char, body: string, s: string)
    requires (q == '"' || q == '\'') && (s == "" || s[0] == q || s == "\\")
    ensures ReadsOn(q, body, s)
  {
    hide ReadsOn;
    if s == "" {
      EndsOpen(q, body, s);
    } else if s[0] == q {
      EndsClosed(q, body, s);
    } else {
      EndsInBackslash(q, body, s);
    }
  }

  lemma EndsOpen(q: char, body: string, s: string)
    requires (q == '"' || q == '\'') && s == []
    ensures ReadsOn(q, body, s)
  {
    NothingFollows(OpenMode(q), body, s);
    assert body + s == body;
  }

  lemma EndsClosed(q: char, body: string, s: string)
    requires (q == '"' || q == '\'') && s != "" && s[0] == q
    ensures ReadsOn(q, body, s)
  {
    assert body + s[..0] == body;
  }

  lemma EndsInBackslash(q: char, body: string, s: string)
    requires (q == '"' || q == '\'') && |s| == 1 && s[0] == '\\'
    ensures ReadsOn(q, body, s)
  {
    BackslashLength(q, s);
    BackslashTokens(q, body, s);
    hide Tokens, BodyLength, OpenMode, Quoted;
  }

  lemma BackslashTokens(q: char, body: string, s: string)
    requires (q == '"' || q == '\'') && |s| == 1 && s[0] == '\\'
    ensures Tokens(OpenMode(q), body, s) == [Quoted(q, body + s, false)]
  {
    hide Tokens;
    var m := if q == '"' then DoubleEscape else SingleEscape;
    assert [s[0]] == s;
    OneStep(OpenMode(q), body, s);
    NothingFollows(m, body + s, s[1..]);
  }

  lemma BackslashLength(q: char, s: string)
    requires |s| == 1 && s[0] == '\\' && q != '\\'
    ensures BodyLength(q, s) == 1
  {
  }

  lemma NothingFollows(m: Mode, body: string, s: string)
    requires s == []
    ensures m != Outside ==> Tokens(m, body, s) == [if InSingle(m) then SingleString(body, false)
                                                    else DoubleString(body, false)]
  {
  }

  lemma OneStep(m: Mode, body: string, s: string)
    requires s != "" && m != Outside && Step(m, s[0]).0 != Outside
    ensures Tokens(m, body, s) == Tokens(Step(m, s[0]).0, body + [s[0]], s[1..])
  {
  }

  lemma StringGoesOn(q: char, body: string, s: string, k: nat)
    requires (q == '"' || q == '\'') && s != "" && s[0] != q && k == (if s[0] == '\\' then 2 else 1) <= |s|
    requires ReadsOn(q, body + s[..k], s[k..])
    ensures ReadsOn(q, body, s)
  {
    var n := BodyLength(q, s[k..]);
    assert BodyLength(q, s) == n + k;
    assert body + s[..k] + s[k..][..n] == body + s[..n + k] && body + s[..k] + s[k..] == body + s;
    assert n < |s[k..]| ==> s[k..][n + 1..] == s[n + k + 1..];
    ModeStays(q, body, s, k);
  }

  lemma ModeStays(q: char, body: string, s: string, k: nat)
    requires (q == '"' || q == '\'') && s != "" && s[0] != q && k == (if s[0] == '\\' then 2 else 1) <= |s|
    ensures Tokens(OpenMode(q), body, s) == Tokens(OpenMode(q), body + s[..k], s[k..])
  {
    if k == 2 {
      assert s[1..][1..] == s[2..] && body + [s[0]] + [s[1]] == body + s[..2];
    } else {
      assert s[..1] == [s[0]];
    }
  }

  lemma TokensFirst(s: string)
    requires s != ""
    ensures s[0] == '"' || s[0] == '\'' ==> Tokens(Outside, "", s) == Tokens(OpenMode(s[0]), "", s[1..])
    ensures s[0] != '"' && s[0] != '\'' ==> Tokens(Outside, "", s) == [Plain(s[0])] + Tokens(Outside, "", s[1..])
  {
    assert [] + Tokens(Step(Outside, s[0]).0, "", s[1..]) == Tokens(Step(Outside, s[0]).0, "", s[1..]);
  }

  /** The transducer's own tokens are those of the reader. */
  lemma {:induction false} LexReads(s: string)
    ensures Lex(s) == Read(s)
    decreases |s|
  {
    hide Tokens, BodyLength, Quoted, OpenMode;
    if s == "" {
      NothingRead(s);
    } else if s[0] == '"' || s[0] == '\'' {
      TokensFirst(s);
      TokensOfString(s[0], "", s[1..]);
      var n := BodyLength(s[0], s[1..]);
      assert "" + s[1..] == s[1..] && "" + s[1..][..n] == s[1..n + 1];
      if n + 1 < |s| {
        assert s[1..][n + 1..] == s[n + 2..];
        LexReads(s[n + 2..]);
      }
    } else {
      TokensFirst(s);
      LexReads(s[1..]);
    }
  }

  lemma NothingRead(s: string)
    requires s == []
    ensures Tokens(Outside, "", s) == []
  {
  }

  // ---------- the inside of a string ----------

  datatype Item = Char(c: char) | Pair(c: char) | Dangling

  function Items(b: string): seq<Item>
    decreases |b|
  {
    if b == "" then []
    else if b[0] != '\\' then [Char(b[0])] + Items(b[1..])
    else if |b| == 1 then [Dangling]
    else [Pair(b[1])] + Items(b[2..])
  }

  function Body(items: seq<Item>): string
  {
    if items == [] then ""
    else (match items[0] case Char(c) => [c] case Pair(c) => ['\\', c] case Dangling => "\\") + Body(items[1..])
  }

  /** The items of a body are all there is to it. */
  lemma {:induction false} BodyOfItems(b: string)
    ensures Body(Items(b)) == b
    decreases |b|
  {
    if b != "" {
      if b[0] != '\\' {
        BodyOfItems(b[1..]);
        assert Items(b)[1..] == Items(b[1..]) && b == [b[0]] + b[1..];
      } else if |b| == 1 {
        assert Items(b)[1..] == [] && b == "\\";
      } else {
        BodyOfItems(b[2..]);
        assert Items(b)[1..] == Items(b[2..]) && b == [b[0], b[1]] + b[2..];
      }
    }
  }

  /** A quote that was escaped stands by itself, a double quote is escaped, a dangling backslash goes; every other
      character and every other escape, known or unknown, stays. */
  function Rewritten(item: Item): seq<Item>
  {
    match item
    case Char(c) => if c == '"' then [Pair('"')] else [item]
    case Pair(c) => if c == '\'' then [Char('\'')] else [item]
    case Dangling => []
  }

  function AllRewritten(items: seq<Item>): seq<Item>
  {
    if items == [] then [] else Rewritten(items[0]) + AllRewritten(items[1..])
  }

  /** What the transducer makes of a body that no quote ends, item by item. */
  lemma {:induction false} ConvertRewrites(b: string)
    requires BodyLength('\'', b) == |b|
    ensures Items(Convert(Single, b)) == AllRewritten(Items(b))
    decreases |b|
  {
    hide Convert, BodyLength;
    ConvertFirst(b);
    BodyRest(b);
    if b != "" {
      if b[0] != '\\' {
        var rest := Convert(Single, b[1..]);
        ConvertRewrites(b[1..]);
        assert Items(b)[1..] == Items(b[1..]);
        if b[0] == '"' {
          assert Convert(Single, b) == ['\\', '"'] + rest && (['\\', '"'] + rest)[2..] == rest;
        } else {
          assert Convert(Single, b) == [b[0]] + rest && ([b[0]] + rest)[1..] == rest;
        }
      } else if |b| >= 2 {
        var rest := Convert(Single, b[2..]);
        ConvertRewrites(b[2..]);
        assert Items(b)[1..] == Items(b[2..]);
        if b[1] == '\'' {
          assert (['\''] + rest)[1..] == rest;
        } else {
          assert (['\\', b[1]] + rest)[2..] == rest;
        }
      } else {
        assert Items(b)[1..] == [];
      }
    }
  }

  lemma ConvertFirst(b: string)
    ensures b == "" ==> Convert(Single, b) == ""
    ensures b != "" && b[0] != '\\' && b[0] != '\'' ==>
      Convert(Single, b) == (if b[0] == '"' then ['\\', '"'] else [b[0]]) + Convert(Single, b[1..])
    ensures |b| >= 2 && b[0] == '\\' ==>
      Convert(Single, b) == (if b[1] == '\'' then ['\''] else ['\\', b[1]]) + Convert(Single, b[2..])
    ensures |b| == 1 && b[0] == '\\' ==> Convert(Single, b) == ""
  {
    if |b| >= 2 { assert b[1..][1..] == b[2..]; }
    if |b| == 1 { assert b[1..] == ""; }
  }

  lemma BodyRest(b: string)
    requires BodyLength('\'', b) == |b|
    ensures b != "" ==> b[0] != '\''
    ensures b != "" && b[0] != '\\' ==> BodyLength('\'', b[1..]) == |b[1..]|
    ensures |b| >= 2 && b[0] == '\\' ==> BodyLength('\'', b[2..]) == |b[2..]|
  {
  }

  lemma {:induction false} PrefixIsBody(q: char, s: string)
    ensures var n := BodyLength(q, s); BodyLength(q, s[..n]) == n
    decreases |s|
  {
    var n := BodyLength(q, s);
    if s != "" && s[0] != q {
      if s[0] == '\\' && |s| >= 2 {
        PrefixIsBody(q, s[2..]);
        assert s[..n][2..] == s[2..][..n - 2];
      } else {
        PrefixIsBody(q, s[1..]);
        assert s[..n][1..] == s[1..][..n - 1];
      }
    }
  }

  lemma {:induction false} BodiesAreUnended(s: string, i: nat)
    requires i < |Read(s)| && Read(s)[i].SingleString?
    ensures BodyLength('\'', Read(s)[i].body) == |Read(s)[i].body|
    decreases |s|
  {
    if s[0] == '"' || s[0] == '\'' {
      var n := BodyLength(s[0], s[1..]);
      PrefixIsBody(s[0], s[1..]);
      assert s[1..][..n] == s[1..n + 1];
      if n + 1 == |s| { assert s[1..n + 1] == s[1..]; }
      if i > 0 { BodiesAreUnended(s[n + 2..], i - 1); }
    } else {
      BodiesAreUnended(s[1..], i - 1);
    }
  }

  // ---------- what FixJSON writes ----------

  /** What becomes of a token. */
  function Fixed(t: Token): Token
  {
    if t.SingleString? then DoubleString(Body(AllRewritten(Items(t.body))), true) else t
  }

  function AllFixed(ts: seq<Token>): (r: seq<Token>)
    ensures |r| == |ts| && forall i :: 0 <= i < |ts| ==> r[i] == Fixed(ts[i])
  {
    if ts == [] then [] else [Fixed(ts[0])] + AllFixed(ts[1..])
  }

  lemma FixedIsImage(s: string, i: nat)
    requires i < |Read(s)|
    ensures Fixed(Read(s)[i]) == Image(Read(s)[i])
  {
    var t := Read(s)[i];
    if t.SingleString? {
      BodiesAreUnended(s, i);
      ConvertRewrites(t.body);
      BodyOfItems(Convert(Single, t.body));
    }
  }

  /** For every input: the tokens of the output are those of the input, each single-quoted string rewritten item by
      item; and so the output is their text. */
  lemma FixWrites(s: string)
    ensures Read(Fix(s)) == AllFixed(Read(s))
    ensures Fix(s) == Text(AllFixed(Read(s)))
  {
    hide Fix, Read, Fixed;
    FixKeepsTokens(s);
    LexReads(s);
    LexReads(Fix(s));
    forall i | 0 <= i < |Read(s)| ensures Fixed(Read(s)[i]) == Image(Read(s)[i]) { FixedIsImage(s, i); }
    assert Images(Read(s)) == AllFixed(Read(s));
    TextOfTokens(Fix(s));
  }

  /** Inside a single-quoted token, ended or not, decodable or not, exactly the items change that have to. */
  lemma FixRewrites(s: string, i: nat)
    requires i < |Read(s)| && Read(s)[i].SingleString?
    ensures |Read(Fix(s))| == |Read(s)| && Read(Fix(s))[i].DoubleString? && Read(Fix(s))[i].closed
    ensures Items(Read(Fix(s))[i].body) == AllRewritten(Items(Read(s)[i].body))
  {
    hide Fix, Read;
    FixWrites(s);
    BodiesAreUnended(s, i);
    ConvertRewrites(Read(s)[i].body);
    FixedIsImage(s, i);
  }

  /** The identity on exactly the texts without a single-quoted string. */
  lemma FixLeaves(s: string)
    ensures Fix(s) == s <==> forall i :: 0 <= i < |Read(s)| ==> !Read(s)[i].SingleString?
  {
    hide Fix, Read, Text;
    FixWrites(s);
    TextOfTokens(s);
    if forall i :: 0 <= i < |Read(s)| ==> !Read(s)[i].SingleString? {
      assert AllFixed(Read(s)) == Read(s);
    }
    if i :| 0 <= i < |Read(s)| && Read(s)[i].SingleString? {
      assert AllFixed(Read(s))[i].DoubleString?;
    }
  }
}
