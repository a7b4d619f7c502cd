/** White space, literal words, strings and numbers: what the machine reads for
    each is what RFC 8259 allows, no more and no less.

    The Feed lemmas take a lexeme and get past it; the Take lemmas start from a
    run that ends closed and find the lexeme it must have read. */
module GrammarLexemes {
  import opened Json
  import opened ToolGrammar
  import opened GrammarState

  // ---------------------------------------------------------------- plumbing

  /** A live configuration past the tool name: only state and stack count there. */
  function At(st: St, stack: string): Config {
    Config([], st, 0, "", "", stack, false)
  }

  lemma Feed(g: Config, c: char, w: string)
    requires !g.IsClosed()
    ensures Closes(g, [c] + w) == Closes(Advance(g, c), w)
  {
    assert ([c] + w)[1..] == w;
  }

  lemma First(g: Config, w: string) returns (c: char, rest: string)
    requires Closes(g, w) && !g.IsClosed()
    ensures w == [c] + rest && |rest| < |w| && Closes(Advance(g, c), rest) && !Advance(g, c).dead
  {
    c, rest := w[0], w[1..];
    if Advance(g, c).dead { DeadStays(Advance(g, c), rest); }
  }

  /** A JSON state and the byte it reads: one act, the rest of the text after it. */
  lemma FeedJson(st: St, s: string, c: char, w: string)
    requires !FrameState(st)
    ensures Closes(At(st, s), [c] + w) == Closes(Apply(At(st, s), JsonAct(st, At(st, s).Top(), c)), w)
  {
    hide JsonAct, FrameAct, Apply;
    Feed(At(st, s), c, w);
  }

  lemma FeedGo(st: St, s: string, c: char, to: St, w: string)
    requires !FrameState(st) && JsonAct(st, At(st, s).Top(), c) == Goto(to)
    ensures Closes(At(st, s), [c] + w) == Closes(At(to, s), w)
  {
    hide Closes, Advance, JsonAct;
    FeedJson(st, s, c, w);
  }

  lemma TakeJson(st: St, s: string, w: string) returns (c: char, rest: string)
    requires !FrameState(st) && Closes(At(st, s), w)
    ensures w == [c] + rest && |rest| < |w|
    ensures var a := JsonAct(st, At(st, s).Top(), c);
      !a.Refuse? && Closes(Apply(At(st, s), a), rest) && (a.Goto? ==> Closes(At(a.s, s), rest))
  {
    hide JsonAct, FrameAct;
    c, rest := First(At(st, s), w);
  }

  predicate WsState(s: St) {
    match s
    case WsObjOpen | KeyOpenQ | KeyColon | NameOpenQ | ArgComma | ArgKeyOpenQ | ArgsColon => true
    case JValue | JValueReq | JKey | JKeyReq | JKeyColon | JAfterVal | ObjClose | Done => true
    case _ => false
  }

  lemma WsStays(g: Config, c: char)
    requires !g.dead && WsState(g.st) && IsWs(c)
    ensures Advance(g, c) == g
  {}

  lemma {:induction false} FeedWs(g: Config, ws: string, w: string)
    requires !g.dead && WsState(g.st) && AllWs(ws)
    ensures Closes(g, ws + w) == Closes(g, w)
  {
    if ws == "" {
      assert ws + w == w;
    } else {
      assert ws + w == [ws[0]] + (ws[1..] + w);
      WsStays(g, ws[0]);
      Feed(g, ws[0], ws[1..] + w);
      FeedWs(g, ws[1..], w);
    }
  }

  lemma {:induction false} TakeWs(g: Config, w: string) returns (ws: string, rest: string)
    requires Closes(g, w) && !g.dead && WsState(g.st)
    ensures w == ws + rest && AllWs(ws) && Closes(g, rest) && rest != "" && !IsWs(rest[0])
    decreases |w|
  {
    var c, r := First(g, w);
    if IsWs(c) {
      WsStays(g, c);
      ws, rest := TakeWs(g, r);
      ws := [c] + ws;
    } else {
      ws, rest := "", w;
    }
  }

  /** What a literal word leaves behind. */
  function WordOver(g: Config): Config {
    g.(lit := |g.litWord|, st := if g.st == JLit then JAfterVal else Closed)
  }

  ghost predicate InWord(g: Config) {
    !g.dead && (g.st == JLit || g.st == Closer) && 0 < g.lit < |g.litWord|
  }

  lemma WordByte(g: Config)
    requires InWord(g)
    ensures Advance(g, g.litWord[g.lit]) ==
            if g.lit + 1 == |g.litWord| then WordOver(g) else g.(lit := g.lit + 1)
    ensures forall c :: c != g.litWord[g.lit] ==> Advance(g, c).dead
  {
    hide JsonAct;
  }

  lemma {:induction false} FeedWord(g: Config, w: string)
    requires InWord(g)
    ensures Closes(g, g.litWord[g.lit..] + w) == Closes(WordOver(g), w)
    decreases |g.litWord| - g.lit
  {
    hide Closes, Advance;
    var c, more := g.litWord[g.lit], g.litWord[g.lit + 1..];
    assert g.litWord[g.lit..] + w == [c] + (more + w);
    WordByte(g);
    Feed(g, c, more + w);
    if g.lit + 1 < |g.litWord| {
      FeedWord(g.(lit := g.lit + 1), w);
    } else {
      assert more + w == w;
    }
  }

  lemma {:induction false} TakeWord(g: Config, w: string) returns (rest: string)
    requires InWord(g) && Closes(g, w)
    ensures w == g.litWord[g.lit..] + rest && |rest| < |w| && Closes(WordOver(g), rest)
    decreases |g.litWord| - g.lit
  {
    hide Closes, Advance;
    var c, r := First(g, w);
    WordByte(g);
    if g.lit + 1 < |g.litWord| {
      rest := TakeWord(g.(lit := g.lit + 1), r);
    } else {
      rest := r;
    }
  }

  // ----------------------------------------------------------------- strings

  function BodySt(key: bool): St { if key then JKeyStr else JStr }
  function EscSt(key: bool): St { if key then JKeyEsc else JStrEsc }
  function U1(key: bool): St { if key then JKeyU1 else JStrU1 }
  function U2(key: bool): St { if key then JKeyU2 else JStrU2 }
  function U3(key: bool): St { if key then JKeyU3 else JStrU3 }
  function U4(key: bool): St { if key then JKeyU4 else JStrU4 }
  function AfterStr(key: bool): St { if key then JKeyColon else JAfterVal }

  /** The four digits of an escape, one state each. */
  predicate HexPair(a: St, b: St) {
    match a
    case JStrU1 => b == JStrU2
    case JStrU2 => b == JStrU3
    case JStrU3 => b == JStrU4
    case JStrU4 => b == JStr
    case JKeyU1 => b == JKeyU2
    case JKeyU2 => b == JKeyU3
    case JKeyU3 => b == JKeyU4
    case JKeyU4 => b == JKeyStr
    case _ => false
  }

  lemma FeedHex(a: St, b: St, s: string, c: char, w: string)
    requires HexPair(a, b) && IsHex(c)
    ensures Closes(At(a, s), [c] + w) == Closes(At(b, s), w)
  {
    hide Closes, Advance;
    FeedGo(a, s, c, b, w);
  }

  lemma TakeHex(a: St, b: St, s: string, w: string) returns (c: char, rest: string)
    requires HexPair(a, b) && Closes(At(a, s), w)
    ensures w == [c] + rest && |rest| < |w| && IsHex(c) && Closes(At(b, s), rest)
  {
    hide Closes, Advance;
    c, rest := TakeJson(a, s, w);
  }

  lemma FeedUnicode(key: bool, s: string, h: string, w: string)
    requires |h| == 4 && IsHex(h[0]) && IsHex(h[1]) && IsHex(h[2]) && IsHex(h[3])
    ensures Closes(At(U1(key), s), h + w) == Closes(At(BodySt(key), s), w)
  {
    hide Closes, Advance, JsonAct;
    var w3 := [h[3]] + w;
    var w2 := [h[2]] + w3;
    var w1 := [h[1]] + w2;
    assert h + w == [h[0]] + w1;
    FeedHex(U1(key), U2(key), s, h[0], w1);
    FeedHex(U2(key), U3(key), s, h[1], w2);
    FeedHex(U3(key), U4(key), s, h[2], w3);
    FeedHex(U4(key), BodySt(key), s, h[3], w);
  }

  lemma TakeUnicode(key: bool, s: string, w: string) returns (h: string, rest: string)
    requires Closes(At(U1(key), s), w)
    ensures w == h + rest && |rest| < |w| && Closes(At(BodySt(key), s), rest)
    ensures |h| == 4 && IsHex(h[0]) && IsHex(h[1]) && IsHex(h[2]) && IsHex(h[3])
  {
    hide Closes, Advance, JsonAct, IsHex;
    var h1, r1 := TakeHex(U1(key), U2(key), s, w);
    var h2, r2 := TakeHex(U2(key), U3(key), s, r1);
    var h3, r3 := TakeHex(U3(key), U4(key), s, r2);
    var h4, r4 := TakeHex(U4(key), BodySt(key), s, r3);
    h, rest := [h1, h2, h3, h4], r4;
    FourJoined(h1, h2, h3, h4, r4);
  }

  lemma FourJoined(a: char, b: char, c: char, d: char, rest: string)
    ensures [a] + ([b] + ([c] + ([d] + rest))) == [a, b, c, d] + rest
  {}

  /** A backslash and what it introduces. */
  lemma FeedBackslash(key: bool, s: string, c: char, w: string)
    requires c == 'u' || IsEscape(c)
    ensures Closes(At(BodySt(key), s), "\\" + ([c] + w)) ==
            Closes(At(if c == 'u' then U1(key) else BodySt(key), s), w)
  {
    hide Closes, Advance;
    FeedGo(BodySt(key), s, '\\', EscSt(key), [c] + w);
    FeedGo(EscSt(key), s, c, if c == 'u' then U1(key) else BodySt(key), w);
  }

  lemma {:induction false} FeedString(key: bool, s: string, body: string, w: string)
    requires IsStringBody(body)
    ensures Closes(At(BodySt(key), s), body + ("\"" + w)) == Closes(At(AfterStr(key), s), w)
    decreases |body|
  {
    hide Closes, Advance;
    var tail := "\"" + w;
    if body == "" {
      assert body + tail == ['"'] + w;
      FeedGo(BodySt(key), s, '"', AfterStr(key), w);
    } else if body[0] != '\\' {
      assert body + tail == [body[0]] + (body[1..] + tail);
      FeedGo(BodySt(key), s, body[0], BodySt(key), body[1..] + tail);
      FeedString(key, s, body[1..], w);
    } else if body[1] == 'u' {
      var h := body[2..6];
      assert body + tail == "\\" + ("u" + (h + (body[6..] + tail)));
      assert h == [body[2], body[3], body[4], body[5]];
      FeedBackslash(key, s, 'u', h + (body[6..] + tail));
      FeedUnicode(key, s, h, body[6..] + tail);
      FeedString(key, s, body[6..], w);
    } else {
      assert body + tail == "\\" + ([body[1]] + (body[2..] + tail));
      FeedBackslash(key, s, body[1], body[2..] + tail);
      FeedString(key, s, body[2..], w);
    }
  }

  /** One escape, without its backslash. */
  lemma TakeEscape(key: bool, s: string, w: string) returns (e: string, rest: string)
    requires Closes(At(EscSt(key), s), w)
    ensures w == e + rest && |rest| < |w| && Closes(At(BodySt(key), s), rest)
    ensures
      || (|e| == 1 && IsEscape(e[0]))
      || (|e| == 5 && e[0] == 'u' && IsHex(e[1]) && IsHex(e[2]) && IsHex(e[3]) && IsHex(e[4]))
  {
    hide Closes, Advance;
    var c, r := TakeJson(EscSt(key), s, w);
    if c == 'u' {
      var h;
      h, rest := TakeUnicode(key, s, r);
      e := ['u'] + h;
    } else {
      e, rest := [c], r;
    }
  }

  lemma {:induction false} TakeString(key: bool, s: string, w: string) returns (body: string, rest: string)
    requires Closes(At(BodySt(key), s), w)
    ensures w == body + ("\"" + rest) && IsStringBody(body) && Closes(At(AfterStr(key), s), rest)
    decreases |w|
  {
    hide Closes, Advance;
    var c, r := TakeJson(BodySt(key), s, w);
    if c == '"' {
      body, rest := "", r;
    } else if c == '\\' {
      var e, r1 := TakeEscape(key, s, r);
      var b;
      b, rest := TakeString(key, s, r1);
      body := "\\" + (e + b);
      assert |e| == 5 ==> body[6..] == b;
      assert |e| == 1 ==> body[2..] == b;
    } else {
      var b;
      b, rest := TakeString(key, s, r);
      body := [c] + b;
      assert body[1..] == b;
    }
  }

  // ----------------------------------------------------------------- numbers

  predicate DigitSt(s: St) { s == JNumInt || s == JNumFrac || s == JNumExp }
  predicate EndSt(s: St) { DigitSt(s) || s == JNumZero }

  lemma {:induction false} FeedDigits(st: St, s: string, ds: string, w: string)
    requires DigitSt(st) && AllDigits(ds)
    ensures Closes(At(st, s), ds + w) == Closes(At(st, s), w)
  {
    hide Closes, Advance;
    if ds == "" {
      assert ds + w == w;
    } else {
      assert ds + w == [ds[0]] + (ds[1..] + w);
      FeedGo(st, s, ds[0], st, ds[1..] + w);
      FeedDigits(st, s, ds[1..], w);
    }
  }

  lemma {:induction false} TakeDigits(st: St, s: string, w: string) returns (ds: string, rest: string)
    requires DigitSt(st) && Closes(At(st, s), w)
    ensures w == ds + rest && AllDigits(ds) && Closes(At(st, s), rest) && rest != "" && !IsDigit(rest[0])
    decreases |w|
  {
    hide Closes, Advance;
    var c, r := TakeJson(st, s, w);
    if IsDigit(c) {
      ds, rest := TakeDigits(st, s, r);
      ds := [c] + ds;
    } else {
      ds, rest := "", w;
    }
  }

  /** After a value only white space, a comma or a closer can follow. */
  lemma FollowsValue(s: string, w: string)
    requires Closes(At(JAfterVal, s), w)
    ensures w != "" && NumberEnds(w[0])
  {
    hide Closes, Advance;
    var c, r := TakeJson(JAfterVal, s, w);
  }

  /** The byte that ends a number is read as if the value were already over. */
  lemma NumberOver(st: St, s: string, w: string)
    requires EndSt(st) && w != "" && NumberEnds(w[0])
    ensures Closes(At(st, s), w) == Closes(At(JAfterVal, s), w)
  {
    hide Closes, Advance;
    var c, top := w[0], At(st, s).Top();
    assert w == [c] + w[1..];
    FeedJson(st, s, c, w[1..]);
    FeedJson(JAfterVal, s, c, w[1..]);
    assert JsonAct(st, top, c) == JsonAct(JAfterVal, top, c) == AfterVal(top, c);
    var a, b := Apply(At(st, s), AfterVal(top, c)), Apply(At(JAfterVal, s), AfterVal(top, c));
    assert a == b;
  }

  lemma FeedPower(s: string, e: string, w: string)
    requires WellFormedExponent(e) && Closes(At(JNumExp, s), w)
    ensures Closes(At(JNumE, s), e[1..] + w)
  {
    hide Closes, Advance;
    var p := e[1..];
    assert e[2..] == p[1..] && (|p| >= 2 ==> e[3..] == p[2..]);
    assert p + w == [p[0]] + (p[1..] + w);
    if AllDigits(p) {
      FeedGo(JNumE, s, p[0], JNumExp, p[1..] + w);
      FeedDigits(JNumExp, s, p[1..], w);
    } else {
      FeedGo(JNumE, s, p[0], JNumESign, p[1..] + w);
      assert p[1..] + w == [p[1]] + (p[2..] + w);
      assert p[1..][0] == p[1] && AllDigits(p[2..]);
      FeedGo(JNumESign, s, p[1], JNumExp, p[2..] + w);
      FeedDigits(JNumExp, s, p[2..], w);
    }
  }

  lemma FeedE(st: St, s: string, c: char, w: string)
    requires EndSt(st) && st != JNumExp && (c == 'e' || c == 'E')
    ensures Closes(At(st, s), [c] + w) == Closes(At(JNumE, s), w)
  {
    hide Closes, Advance;
    FeedGo(st, s, c, JNumE, w);
  }

  lemma FeedExp(st: St, s: string, e: string, w: string)
    requires EndSt(st) && st != JNumExp && (e == "" || WellFormedExponent(e)) && Closes(At(JAfterVal, s), w)
    ensures Closes(At(st, s), e + w)
  {
    hide Closes, Advance, JsonAct;
    FollowsValue(s, w);
    if e == "" {
      assert e + w == w;
      NumberOver(st, s, w);
    } else {
      NumberOver(JNumExp, s, w);
      assert e + w == [e[0]] + (e[1..] + w);
      FeedE(st, s, e[0], e[1..] + w);
      FeedPower(s, e, w);
    }
  }

  lemma FeedFrac(st: St, s: string, n: Number, w: string)
    requires WellFormedNumber(n) && (st == JNumZero || st == JNumInt) && Closes(At(JAfterVal, s), w)
    ensures Closes(At(st, s), n.frac + (n.exp + w))
  {
    hide Closes, Advance;
    var f, tail := n.frac, n.exp + w;
    if f == "" {
      assert f + tail == tail;
      FeedExp(st, s, n.exp, w);
    } else {
      FeedExp(JNumFrac, s, n.exp, w);
      assert f + tail == ['.'] + ([f[1]] + (f[2..] + tail));
      FeedGo(st, s, '.', JNumDot, [f[1]] + (f[2..] + tail));
      assert f[1..][0] == f[1] && AllDigits(f[2..]);
      FeedGo(JNumDot, s, f[1], JNumFrac, f[2..] + tail);
      FeedDigits(JNumFrac, s, f[2..], tail);
    }
  }

  lemma FeedWhole(st: St, s: string, n: Number, w: string)
    requires WellFormedNumber(n) && (st == JValueReq || st == JNumMinus) && Closes(At(JAfterVal, s), w)
    ensures Closes(At(st, s), n.whole + (n.frac + (n.exp + w)))
  {
    hide Closes, Advance;
    var d, tail := n.whole, n.frac + (n.exp + w);
    assert d + tail == [d[0]] + (d[1..] + tail);
    if d == "0" {
      FeedGo(st, s, '0', JNumZero, d[1..] + tail);
      FeedFrac(JNumZero, s, n, w);
      assert d[1..] + tail == tail;
    } else {
      assert IsDigit(d[0]);
      FeedGo(st, s, d[0], JNumInt, d[1..] + tail);
      FeedFrac(JNumInt, s, n, w);
      FeedDigits(JNumInt, s, d[1..], tail);
    }
  }

  lemma FeedNumber(s: string, n: Number, w: string)
    requires WellFormedNumber(n) && Closes(At(JAfterVal, s), w)
    ensures Closes(At(JValueReq, s), NumberText(n) + w)
  {
    hide Closes, Advance;
    var tail := n.whole + (n.frac + (n.exp + w));
    assert NumberText(n) + w == n.minus + tail;
    if n.minus == "" {
      assert n.minus + tail == tail;
      FeedWhole(JValueReq, s, n, w);
    } else {
      FeedWhole(JNumMinus, s, n, w);
      FeedGo(JValueReq, s, '-', JNumMinus, tail);
    }
  }

  /** A byte read where a number may end. */
  lemma TakeEnd(st: St, s: string, w: string) returns (c: char, r: string)
    requires EndSt(st) && Closes(At(st, s), w)
    ensures w == [c] + r && |r| < |w|
    ensures
      || NumberEnds(c)
      || (st != JNumExp && (c == 'e' || c == 'E') && Closes(At(JNumE, s), r))
      || ((st == JNumZero || st == JNumInt) && c == '.' && Closes(At(JNumDot, s), r))
      || (st != JNumZero && IsDigit(c) && Closes(At(st, s), r))
  {
    hide Closes, Advance;
    c, r := TakeJson(st, s, w);
  }

  /** A byte read where a digit is required. */
  lemma TakeDigit(st: St, s: string, w: string) returns (c: char, rest: string)
    requires (st == JNumDot || st == JNumESign) && Closes(At(st, s), w)
    ensures w == [c] + rest && |rest| < |w| && IsDigit(c)
    ensures Closes(At(if st == JNumDot then JNumFrac else JNumExp, s), rest)
  {
    hide Closes, Advance;
    c, rest := TakeJson(st, s, w);
  }

  /** Sign and first digit of an exponent. */
  lemma TakeSign(s: string, w: string) returns (sign: string, d: char, rest: string)
    requires Closes(At(JNumE, s), w)
    ensures w == sign + ([d] + rest) && (sign == "" || sign == "+" || sign == "-") && IsDigit(d)
    ensures Closes(At(JNumExp, s), rest)
  {
    hide Closes, Advance;
    d, rest := TakeJson(JNumE, s, w);
    sign := "";
    if d == '+' || d == '-' {
      sign := [d];
      d, rest := TakeDigit(JNumESign, s, rest);
    }
  }

  lemma PowerIsExponent(e: char, sign: string, d: char, ds: string)
    requires (e == 'e' || e == 'E') && (sign == "" || sign == "+" || sign == "-") && IsDigit(d) && AllDigits(ds)
    ensures WellFormedExponent([e] + (sign + ([d] + ds)))
  {
    assert ([e] + (sign + ([d] + ds)))[|sign| + 1..] == [d] + ds;
  }

  /** Sign and digits of an exponent. */
  lemma TakePower(e: char, s: string, w: string) returns (p: string, rest: string)
    requires (e == 'e' || e == 'E') && Closes(At(JNumE, s), w)
    ensures w == p + rest && Closes(At(JAfterVal, s), rest) && WellFormedExponent([e] + p)
  {
    hide Closes, Advance, JsonAct, WellFormedExponent;
    var sign, d, r := TakeSign(s, w);
    var ds;
    ds, rest := TakeDigits(JNumExp, s, r);
    var _, _ := TakeEnd(JNumExp, s, rest);
    NumberOver(JNumExp, s, rest);
    p := sign + ([d] + ds);
    PowerIsExponent(e, sign, d, ds);
  }

  lemma TakeExp(st: St, s: string, w: string) returns (e: string, rest: string)
    requires EndSt(st) && st != JNumExp && Closes(At(st, s), w)
    requires w != "" && (st != JNumZero ==> !IsDigit(w[0])) && (st != JNumFrac ==> w[0] != '.')
    ensures w == e + rest && (e == "" || WellFormedExponent(e)) && Closes(At(JAfterVal, s), rest)
  {
    hide Closes, Advance, JsonAct;
    var c, r := TakeEnd(st, s, w);
    if c == 'e' || c == 'E' {
      var p;
      p, rest := TakePower(c, s, r);
      e := [c] + p;
    } else {
      NumberOver(st, s, w);
      e, rest := "", w;
    }
  }

  lemma TakeFrac(st: St, s: string, w: string) returns (f: string, e: string, rest: string)
    requires (st == JNumZero || st == JNumInt) && Closes(At(st, s), w)
    requires w != "" && (st == JNumInt ==> !IsDigit(w[0]))
    ensures w == f + (e + rest) && Closes(At(JAfterVal, s), rest)
    ensures f == "" || (|f| >= 2 && f[0] == '.' && AllDigits(f[1..]))
    ensures e == "" || WellFormedExponent(e)
  {
    hide Closes, Advance, JsonAct, WellFormedExponent;
    var c, r := TakeEnd(st, s, w);
    if c == '.' {
      var d, r1 := TakeDigit(JNumDot, s, r);
      var ds, r2 := TakeDigits(JNumFrac, s, r1);
      e, rest := TakeExp(JNumFrac, s, r2);
      f := ['.'] + ([d] + ds);
      FracJoined(d, ds, e + rest);
    } else {
      f := "";
      e, rest := TakeExp(st, s, w);
      assert "" + (e + rest) == e + rest;
    }
  }

  lemma FracJoined(d: char, ds: string, tail: string)
    requires IsDigit(d) && AllDigits(ds)
    ensures var f := ['.'] + ([d] + ds);
      ['.'] + ([d] + (ds + tail)) == f + tail && |f| >= 2 && f[0] == '.' && AllDigits(f[1..])
  {
    assert (['.'] + ([d] + ds))[1..] == [d] + ds;
  }

  /** A number from its first digit on. */
  lemma TakeUnsigned(st: St, s: string, w: string) returns (whole: string, f: string, e: string, rest: string)
    requires (st == JValueReq || st == JNumMinus) && Closes(At(st, s), w) && w != "" && IsDigit(w[0])
    ensures w == whole + (f + (e + rest)) && Closes(At(JAfterVal, s), rest)
    ensures WellFormedNumber(Number("", whole, f, e))
  {
    hide Closes, Advance;
    var c, r := TakeJson(st, s, w);
    if c == '0' {
      var _, _ := TakeEnd(JNumZero, s, r);
      f, e, rest := TakeFrac(JNumZero, s, r);
      whole := "0";
    } else {
      var ds, r1 := TakeDigits(JNumInt, s, r);
      f, e, rest := TakeFrac(JNumInt, s, r1);
      whole := [c] + ds;
    }
  }

  lemma TakeNumber(s: string, w: string) returns (n: Number, rest: string)
    requires Closes(At(JValueReq, s), w) && w != "" && (w[0] == '-' || IsDigit(w[0]))
    ensures w == NumberText(n) + rest && WellFormedNumber(n) && Closes(At(JAfterVal, s), rest)
  {
    hide Closes, Advance;
    var whole, f, e;
    if w[0] == '-' {
      var c, r := TakeJson(JValueReq, s, w);
      var _, _ := TakeJson(JNumMinus, s, r);
      whole, f, e, rest := TakeUnsigned(JNumMinus, s, r);
      n := Number("-", whole, f, e);
    } else {
      whole, f, e, rest := TakeUnsigned(JValueReq, s, w);
      n := Number("", whole, f, e);
    }
    assert w == n.minus + (whole + (f + (e + rest)));
  }
}
