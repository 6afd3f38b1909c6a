/** Single-quoted pseudo-JSON turned into JSON strings (section 7 of RFC 8259). */
module FixJson {
  import opened Strings

  datatype Mode = Outside | Double | DoubleEscape | Single | SingleEscape

  /** One code point: the next mode and what is written. */
  function Step(m: Mode, c: char): (Mode, string)
  {
    match m
    case Outside => if c == '"' then (Double, [c]) else if c == '\'' then (Single, "\"") else (Outside, [c])
    case Double => (if c == '\\' then DoubleEscape else if c == '"' then Outside else Double, [c])
    case DoubleEscape => (Double, [c])
    case Single =>
      if c == '\\' then (SingleEscape, "") else if c == '\'' then (Outside, "\"")
      else if c == '"' then (Single, "\\\"") else (Single, [c])
    case SingleEscape => (Single, if c == '\'' then [c] else ['\\', c])
  }

  /** The transducer: no lookahead, one code point at a time. */
  function Convert(m: Mode, s: string): string
    decreases |s|
  {
    if s == [] then "" else Step(m, s[0]).1 + Convert(Step(m, s[0]).0, s[1..])
  }

  function EndMode(m: Mode, s: string): Mode
    decreases |s|
  {
    if s == [] then m else EndMode(Step(m, s[0]).0, s[1..])
  }

  predicate InSingle(m: Mode)
  {
    m == Single || m == SingleEscape
  }

  /** What is left to write when s is read from mode m to its end. */
  function Finish(m: Mode, s: string): string
  {
    Convert(m, s) + (if InSingle(EndMode(m, s)) then "\"" else "")
  }

  function Fix(s: string): string
  {
    Finish(Outside, s)
  }

  lemma FinishStep(m: Mode, s: string)
    ensures s == [] ==> Finish(m, s) == if InSingle(m) then "\"" else ""
    ensures s != [] ==> Finish(m, s) == Step(m, s[0]).1 + Finish(Step(m, s[0]).0, s[1..])
  {
  }

  predicate IsHex(c: char)
  {
    '0' <= c <= '9' || 'a' <= c <= 'f' || 'A' <= c <= 'F'
  }

  /** The mode that the three flags of the loop stand for. */
  function ModeOf(inDouble: bool, inSingle: bool, escaped: bool): Mode
  {
    if inDouble then (if escaped then DoubleEscape else Double)
    else if inSingle then (if escaped then SingleEscape else Single)
    else Outside
  }

  /** The loop with its flags, its escape table and its lookahead over \uXXXX writes exactly what the transducer
      writes. */
  method FixJSON(input: string) returns (out: string)
    ensures out == Fix(input)
  {
    hide Finish;
    out := "";
    var inDouble, inSingle, escaped := false, false, false;
    var i := 0;
    assert input[0..] == input;
    while i < |input|
      invariant 0 <= i <= |input|
      invariant !(inDouble && inSingle) && (escaped ==> inDouble || inSingle)
      invariant out + Finish(ModeOf(inDouble, inSingle, escaped), input[i..]) == Fix(input)
    {
      var r := input[i];
      ghost var m, rest := ModeOf(inDouble, inSingle, escaped), input[i + 1..];
      FinishStep(m, input[i..]);
      assert input[i..][1..] == rest;
      assert (out + Step(m, r).1) + Finish(Step(m, r).0, rest) == Fix(input);
      if inDouble {
        out := out + [r];
        if escaped {
          escaped := false;
        } else if r == '\\' {
          escaped := true;
        } else if r == '"' {
          inDouble := false;
        }
      } else if inSingle {
        if escaped {
          escaped := false;
          if r == 'n' || r == 'r' || r == 't' || r == 'b' || r == 'f' || r == '/' || r == '"' {
            out := out + ['\\', r];
          } else if r == '\\' {
            out := out + ['\\', '\\'];
          } else if r == '\'' {
            out := out + ['\''];
          } else if r == 'u' {
            out := out + ['\\', 'u'];
            i, out := CopyHex(input, i, out);
          } else {
            out := out + ['\\', r];
          }
        } else if r == '\\' {
          escaped := true;
        } else if r == '\'' {
          out := out + ['"'];
          inSingle := false;
        } else if r == '"' {
          out := out + ['\\', '"'];
        } else {
          out := out + [r];
        }
      } else if r == '"' {
        inDouble := true;
        out := out + [r];
      } else if r == '\'' {
        inSingle := true;
        out := out + ['"'];
      } else {
        out := out + [r];
      }
      i := i + 1;
    }
    FinishStep(ModeOf(inDouble, inSingle, escaped), input[|input|..]);
    if inSingle {
      out := out + ['"'];
    }
  }

  /** The lookahead of \uXXXX: up to four hexadecimal digits after position i are copied as they stand. */
  method CopyHex(input: string, i: nat, out: string) returns (i': nat, out': string)
    requires i < |input| && out + Finish(Single, input[i + 1..]) == Fix(input)
    ensures i <= i' < |input| && i' - i <= 4 && out' == out + input[i + 1..i' + 1]
    ensures forall j :: i < j <= i' ==> IsHex(input[j])
    ensures i' - i < 4 && i' + 1 < |input| ==> !IsHex(input[i' + 1])
    ensures out' + Finish(Single, input[i' + 1..]) == Fix(input)
  {
    hide Finish, Fix;
    i', out' := i, out;
    while i' - i < 4 && i' + 1 < |input| && IsHex(input[i' + 1])
      invariant i <= i' < |input| && i' - i <= 4 && out' == out + input[i + 1..i' + 1]
      invariant forall j :: i < j <= i' ==> IsHex(input[j])
      invariant out' + Finish(Single, input[i' + 1..]) == Fix(input)
    {
      FinishStep(Single, input[i' + 1..]);
      assert input[i' + 1..][1..] == input[i' + 2..];
      assert (out' + [input[i' + 1]]) + Finish(Single, input[i' + 2..]) == Fix(input);
      out', i' := out' + [input[i' + 1]], i' + 1;
    }
  }

  // ---------- what is already JSON stays ----------

  /** No single quote stands outside a double-quoted string, reading s from mode m. */
  predicate Clean(m: Mode, s: string)
    decreases |s|
  {
    s == [] || (!InSingle(m) && !(m == Outside && s[0] == '\'') && Clean(Step(m, s[0]).0, s[1..]))
  }

  /** The mode in which a reader of the output is. */
  function OutMode(m: Mode): Mode
  {
    if InSingle(m) then Double else m
  }

  /** The output never has a single quote outside a double-quoted string. */
  lemma {:induction false} OutputClean(m: Mode, s: string)
    ensures Clean(OutMode(m), Finish(m, s))
    decreases |s|
  {
    hide Finish;
    FinishStep(m, s);
    if s != [] {
      var (m', w) := Step(m, s[0]);
      OutputClean(m', s[1..]);
      var rest := Finish(m', s[1..]);
      assert Finish(m, s) == w + rest;
      if w == "" {
        assert w + rest == rest;
      } else if |w| == 1 {
        assert (w + rest)[1..] == rest;
      } else {
        assert (w + rest)[1..] == [w[1]] + rest;
        assert ([w[1]] + rest)[1..] == rest;
      }
    } else if InSingle(m) {
      assert Finish(m, s) == "\"";
    }
  }

  lemma {:induction false} CleanKept(m: Mode, s: string)
    requires !InSingle(m)
    ensures Finish(m, s) == s <==> Clean(m, s)
    ensures Clean(m, s) ==> !InSingle(EndMode(m, s))
    decreases |s|
  {
    if s != [] {
      FinishStep(m, s);
      var (m', w) := Step(m, s[0]);
      assert |w| == 1;
      var rest := Finish(m', s[1..]);
      assert (w + rest)[0] == w[0] && (w + rest)[1..] == rest;
      assert s == [s[0]] + s[1..];
      if !InSingle(m') {
        CleanKept(m', s[1..]);
      }
    }
  }

  /** Fix is the identity on exactly the inputs without a single quote outside a double-quoted string. */
  lemma FixIdentity(s: string)
    ensures Fix(s) == s <==> Clean(Outside, s)
  {
    CleanKept(Outside, s);
  }

  lemma FixIdempotent(s: string)
    ensures Fix(Fix(s)) == Fix(s)
  {
    OutputClean(Outside, s);
    CleanKept(Outside, Fix(s));
  }

  // ---------- tokens ----------

  /** Text outside strings one code point at a time, and strings with their raw bodies. */
  datatype Token = Plain(c: char) | DoubleString(body: string, closed: bool) | SingleString(body: string, closed: bool)

  /** The tokens of s read from mode m, where body is what has been read of the current string. */
  function Tokens(m: Mode, body: string, s: string): seq<Token>
    decreases |s|
  {
    if s == [] then
      (if m == Outside then [] else if InSingle(m) then [SingleString(body, false)] else [DoubleString(body, false)])
    else
      var m' := Step(m, s[0]).0;
      if m == Outside then (if m' == Outside then [Plain(s[0])] else []) + Tokens(m', "", s[1..])
      else if m' == Outside then
        [if InSingle(m) then SingleString(body, true) else DoubleString(body, true)] + Tokens(m', "", s[1..])
      else Tokens(m', body + [s[0]], s[1..])
  }

  function Lex(s: string): seq<Token>
  {
    Tokens(Outside, "", s)
  }

  /** A single-quoted string becomes a terminated double-quoted one; all other tokens are kept. */
  function Image(t: Token): Token
  {
    if t.SingleString? then DoubleString(Convert(Single, t.body), true) else t
  }

  function Images(ts: seq<Token>): (r: seq<Token>)
    ensures |r| == |ts| && forall i :: 0 <= i < |ts| ==> r[i] == Image(ts[i])
  {
    if ts == [] then [] else [Image(ts[0])] + Images(ts[1..])
  }

  lemma {:induction false} ConvertOneMore(m: Mode, b: string, c: char)
    ensures Convert(m, b + [c]) == Convert(m, b) + Step(EndMode(m, b), c).1
    ensures EndMode(m, b + [c]) == Step(EndMode(m, b), c).0
    decreases |b|
  {
    if b != [] {
      assert (b + [c])[1..] == b[1..] + [c];
      ConvertOneMore(Step(m, b[0]).0, b[1..], c);
    }
  }

  /** Reading on past code points that end no string only grows the body. */
  lemma TokensGrow(m: Mode, body: string, w: string, rest: string)
    requires m == Double && 0 < |w| <= 2
    requires w[0] != '"' && (|w| == 2 <==> w[0] == '\\')
    ensures Tokens(m, body, w + rest) == Tokens(Double, body + w, rest)
  {
    assert (w + rest)[1..] == w[1..] + rest;
    if |w| == 2 {
      assert (w[1..] + rest)[1..] == rest;
      assert body + [w[0]] + [w[1]] == body + w;
    } else {
      assert w[1..] + rest == rest && body + [w[0]] == body + w;
    }
  }

  lemma ImagesConcat(a: seq<Token>, b: seq<Token>)
    ensures Images(a + b) == Images(a) + Images(b)
  {
  }

  /** Inside a single-quoted string, of which `body` has been read. */
  lemma {:induction false} TokensInSingle(m: Mode, body: string, s: string)
    requires InSingle(m) && m == EndMode(Single, body)
    ensures Tokens(Double, Convert(Single, body), Finish(m, s)) == Images(Tokens(m, body, s))
    decreases |s|
  {
    hide Finish, Convert;
    FinishStep(m, s);
    if s == [] {
      assert Finish(m, s) == "\"";
      assert Finish(m, s)[1..] == "";
    } else {
      var (m', w) := Step(m, s[0]);
      var rest := Finish(m', s[1..]);
      if m' == Outside {
        assert (w + rest)[1..] == rest;
        TokensOutside(m', "", s[1..]);
        ImagesConcat([SingleString(body, true)], Tokens(m', "", s[1..]));
      } else {
        ConvertOneMore(Single, body, s[0]);
        TokensInSingle(m', body + [s[0]], s[1..]);
        if w != "" {
          TokensGrow(Double, Convert(Single, body), w, rest);
        } else {
          assert w + rest == rest && Convert(Single, body) + w == Convert(Single, body);
        }
      }
    }
  }

  lemma {:induction false} TokensOutside(m: Mode, body: string, s: string)
    requires !InSingle(m)
    ensures Tokens(m, body, Finish(m, s)) == Images(Tokens(m, body, s))
    decreases |s|
  {
    if s != [] {
      FinishStep(m, s);
      var (m', w) := Step(m, s[0]);
      var rest := Finish(m', s[1..]);
      assert (w + rest)[1..] == rest;
      if InSingle(m') {
        TokensInSingle(m', "", s[1..]);
      } else if m == Outside {
        TokensOutside(m', "", s[1..]);
        if m' == Outside { ImagesConcat([Plain(s[0])], Tokens(m', "", s[1..])); }
      } else if m' == Outside {
        TokensOutside(m', "", s[1..]);
        ImagesConcat([DoubleString(body, true)], Tokens(m', "", s[1..]));
      } else {
        TokensOutside(m', body + [s[0]], s[1..]);
      }
    }
  }

  /** Token for token: the output has the input's tokens, each single-quoted string converted on its own. */
  lemma FixKeepsTokens(s: string)
    ensures Lex(Fix(s)) == Images(Lex(s))
  {
    TokensOutside(Outside, "", s);
  }

  // ---------- meaning ----------

  function Utf16(c: char): seq<int>
  {
    var n := c as int;
    if n < 0x10000 then [n] else [0xD800 + (n - 0x10000) / 0x400, 0xDC00 + (n - 0x10000) % 0x400]
  }

  function HexValue(c: char): int
    requires IsHex(c)
  {
    if c <= '9' then c as int - '0' as int
    else if c <= 'F' then c as int - 'A' as int + 10
    else c as int - 'a' as int + 10
  }

  predicate HexRun(s: string, k: nat)
  {
    k <= |s| && forall i :: 0 <= i < k ==> IsHex(s[i])
  }

  function CodeUnit(s: string): int
    requires HexRun(s, 4)
  {
    HexValue(s[0]) * 0x1000 + HexValue(s[1]) * 0x100 + HexValue(s[2]) * 0x10 + HexValue(s[3])
  }

  function Escape(c: char): Option<int>
  {
    match c
    case '"' => Some(0x22) case '\\' => Some(0x5C) case '/' => Some(0x2F)
    case 'b' => Some(0x08) case 'f' => Some(0x0C) case 'n' => Some(0x0A) case 'r' => Some(0x0D) case 't' => Some(0x09)
    case _ => None
  }

  /** A string body between quotes q as UTF-16 code units: the escapes of section 7 of RFC 8259, and \' between single
      quotes. */
  function Decode(q: char, b: string): Option<seq<int>>
    decreases |b|
  {
    if b == [] then Some([])
    else if b[0] == '\\' then
      if |b| == 1 then None
      else if b[1] == 'u' then
        if HexRun(b[2..], 4) then
          Prepend([CodeUnit(b[2..])], Decode(q, b[6..]))
        else None
      else if b[1] == '\'' && q == '\'' then Prepend([0x27], Decode(q, b[2..]))
      else if Escape(b[1]).Some? then Prepend([Escape(b[1]).value], Decode(q, b[2..]))
      else None
    else if b[0] == q || b[0] < ' ' then None
    else Prepend(Utf16(b[0]), Decode(q, b[1..]))
  }

  function Prepend(head: seq<int>, tail: Option<seq<int>>): Option<seq<int>>
  {
    if tail.None? then None else Some(head + tail.value)
  }

  lemma {:induction false} HexRunConverts(b: string, k: nat)
    ensures HexRun(Convert(Single, b), k) <==> HexRun(b, k)
    ensures HexRun(b, k) ==> Convert(Single, b)[..k] == b[..k] && Convert(Single, b)[k..] == Convert(Single, b[k..])
    decreases k
  {
    if k > 0 && b != [] {
      var w, rest := Step(Single, b[0]).1, Convert(Step(Single, b[0]).0, b[1..]);
      assert Convert(Single, b) == w + rest;
      if IsHex(b[0]) {
        HexRunConverts(b[1..], k - 1);
        assert w == [b[0]] && (w + rest)[1..] == rest;
        assert HexRun(b, k) <==> HexRun(b[1..], k - 1) by { HexRunTail(b, k); }
        assert HexRun(w + rest, k) <==> HexRun(rest, k - 1) by { HexRunTail(w + rest, k); }
        if HexRun(b, k) {
          assert (w + rest)[..k] == [b[0]] + rest[..k - 1];
          assert b[1..][k - 1..] == b[k..] && (w + rest)[k..] == rest[k - 1..];
        }
      } else if b[0] == '\\' {
        EscapedIsNoHex(b[1..]);
      } else {
        assert !IsHex(w[0]) && (w + rest)[0] == w[0];
      }
    } else if k == 0 {
      assert b[0..] == b && Convert(Single, b)[0..] == Convert(Single, b);
    }
  }

  lemma HexRunTail(s: string, k: nat)
    requires k > 0 && s != [] && IsHex(s[0])
    ensures HexRun(s, k) <==> HexRun(s[1..], k - 1)
  {
    if HexRun(s[1..], k - 1) {
      forall i | 0 <= i < k ensures IsHex(s[i]) {
        if i > 0 { assert s[1..][i - 1] == s[i]; }
      }
    }
  }

  /** Whatever an escape becomes, it does not begin with a hexadecimal digit. */
  lemma EscapedIsNoHex(b: string)
    ensures b == [] ==> Convert(SingleEscape, b) == ""
    ensures b != [] ==> Convert(SingleEscape, b) != "" && !IsHex(Convert(SingleEscape, b)[0])
  {
  }

  lemma UnicodeEscapeKept(b: string)
    requires |b| >= 2 && b[0] == '\\' && b[1] == 'u'
    requires HexRun(b[2..], 4) ==> Decode('"', Convert(Single, b[6..])) == Decode('\'', b[6..])
    ensures Decode('"', Convert(Single, b)) == Decode('\'', b)
  {
    hide Convert, CodeUnit;
    var d := Convert(Single, b[2..]);
    ConvertEscape(b);
    var c := Convert(Single, b);
    assert c == ['\\', 'u'] + d && c[2..] == d;
    HexRunConverts(b[2..], 4);
    if HexRun(b[2..], 4) {
      assert b[2..][4..] == b[6..] && c[6..] == d[4..];
      SameCodeUnit(d, b[2..]);
    }
  }

  lemma SameCodeUnit(s: string, t: string)
    requires HexRun(s, 4) && HexRun(t, 4) && s[..4] == t[..4]
    ensures CodeUnit(s) == CodeUnit(t)
  {
    assert forall i :: 0 <= i < 4 ==> s[i] == s[..4][i] && t[i] == t[..4][i];
  }

  lemma ConvertEscape(b: string)
    requires |b| >= 2 && b[0] == '\\'
    ensures Convert(Single, b) == Step(SingleEscape, b[1]).1 + Convert(Single, b[2..])
    ensures EndMode(Single, b) == EndMode(Single, b[2..])
  {
    assert b[1..][1..] == b[2..];
  }

  lemma PlainEscapeKept(b: string)
    requires |b| >= 2 && b[0] == '\\' && b[1] != 'u'
    requires Decode('"', Convert(Single, b[2..])) == Decode('\'', b[2..])
    ensures Decode('"', Convert(Single, b)) == Decode('\'', b)
  {
    hide Convert;
    var d := Convert(Single, b[2..]);
    ConvertEscape(b);
    var c := Convert(Single, b);
    if b[1] == '\'' {
      assert c == ['\''] + d && c[1..] == d;
    } else {
      assert c == ['\\', b[1]] + d && c[2..] == d;
    }
  }

  lemma OrdinaryKept(b: string)
    requires b != [] && b[0] != '\\'
    requires b[0] != '\'' ==> Decode('"', Convert(Single, b[1..])) == Decode('\'', b[1..])
    ensures Decode('"', Convert(Single, b)) == Decode('\'', b)
  {
    var d := Convert(Step(Single, b[0]).0, b[1..]);
    var c := Convert(Single, b);
    assert c == Step(Single, b[0]).1 + d;
    if b[0] == '\'' {
      assert c[0] == '"';
    } else if b[0] == '"' {
      assert c[2..] == d;
    } else {
      assert c[1..] == d;
    }
  }

  /** A single-quoted body without a dangling backslash decodes, once converted, to the same code units, or fails
      alike. */
  lemma {:induction false} ConvertKeepsMeaning(b: string)
    requires EndMode(Single, b) == Single
    ensures Decode('"', Convert(Single, b)) == Decode('\'', b)
    decreases |b|
  {
    hide Convert, Decode;
    if b == [] {
      EmptyMeaning();
    } else if b[0] == '\\' {
      ConvertEscape(b);
      if b[1] == 'u' {
        if HexRun(b[2..], 4) {
          EndModeHex(b[2..], 4);
          assert b[2..][4..] == b[6..];
          ConvertKeepsMeaning(b[6..]);
        }
        UnicodeEscapeKept(b);
      } else {
        ConvertKeepsMeaning(b[2..]);
        PlainEscapeKept(b);
      }
    } else {
      if b[0] != '\'' {
        ConvertKeepsMeaning(b[1..]);
      }
      OrdinaryKept(b);
    }
  }

  lemma EmptyMeaning()
    ensures Convert(Single, "") == "" && Decode('"', "") == Decode('\'', "")
  {
  }

  lemma {:induction false} EndModeHex(b: string, k: nat)
    requires HexRun(b, k)
    ensures EndMode(Single, b[k..]) == EndMode(Single, b)
    decreases k
  {
    if k == 0 {
      assert b[0..] == b;
    } else {
      HexRunTail(b, k);
      EndModeHex(b[1..], k - 1);
      assert b[1..][k - 1..] == b[k..];
    }
  }

  /** A terminated string has no backslash left hanging. */
  lemma {:induction false} ClosedIsComplete(m: Mode, body: string, s: string, i: nat)
    requires InSingle(m) ==> m == EndMode(Single, body)
    requires i < |Tokens(m, body, s)|
    ensures var t := Tokens(m, body, s)[i]; t.SingleString? && t.closed ==> EndMode(Single, t.body) == Single
    decreases |s|
  {
    if s != [] {
      var m' := Step(m, s[0]).0;
      if m == Outside || m' == Outside {
        var first := |Tokens(m, body, s)| - |Tokens(m', "", s[1..])|;
        if i >= first {
          ClosedIsComplete(m', "", s[1..], i - first);
        }
      } else {
        ConvertOneMore(Single, body, s[0]);
        ClosedIsComplete(m', body + [s[0]], s[1..], i);
      }
    }
  }

  /** For every input: tokens correspond one to one, and a terminated single-quoted string keeps its meaning. */
  lemma FixPreservesMeaning(s: string, i: nat)
    requires i < |Lex(s)|
    ensures |Lex(Fix(s))| == |Lex(s)|
    ensures !Lex(s)[i].SingleString? ==> Lex(Fix(s))[i] == Lex(s)[i]
    ensures Lex(s)[i].SingleString? ==> Lex(Fix(s))[i].DoubleString? && Lex(Fix(s))[i].closed
    ensures Lex(s)[i].SingleString? && Lex(s)[i].closed ==>
      Decode('"', Lex(Fix(s))[i].body) == Decode('\'', Lex(s)[i].body)
  {
    FixKeepsTokens(s);
    ClosedIsComplete(Outside, "", s, i);
    if Lex(s)[i].SingleString? && Lex(s)[i].closed {
      ConvertKeepsMeaning(Lex(s)[i].body);
    }
  }
}
