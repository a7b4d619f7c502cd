/** The machine remembers which tool was called. */
module GrammarName {
  import opened Json
  import opened ToolGrammar
  import opened GrammarState
  import opened GrammarLexemes
  import opened GrammarLanguage
  import opened GrammarLiveness

  lemma {:induction false} RunWs(g: Config, ws: string, w: string)
    requires !g.dead && WsState(g.st) && AllWs(ws)
    ensures Run(g, ws + w) == Run(g, w)
  {
    hide Run, Advance;
    if ws == "" {
      assert ws + w == w;
    } else {
      assert ws + w == [ws[0]] + (ws[1..] + w);
      WsStays(g, ws[0]);
      RunCons(g, ws[0], ws[1..] + w);
      RunWs(g, ws[1..], w);
    }
  }

  /** White space and the byte a frame state waits for. */
  lemma RunFrame(g: Config, ws: string, c: char, w: string)
    requires !g.dead && WsState(g.st) && AllWs(ws)
    ensures Run(g, ws + ([c] + w)) == Run(Advance(g, c), w)
  {
    hide Run, Advance;
    RunWs(g, ws, [c] + w);
    RunCons(g, c, w);
  }

  /** The bytes that lead to the name and out of it. */
  lemma FrameBytes(g: Config)
    requires !g.dead
    ensures g.st == WsObjOpen ==> Advance(g, '{') == g.(st := KeyOpenQ)
    ensures g.st == KeyOpenQ ==> Advance(g, '"') == g.(st := KeyName, lit := 0)
    ensures g.st == KeyName && g.lit == 4 ==> Advance(g, '"') == g.(st := KeyColon)
    ensures g.st == KeyColon ==> Advance(g, ':') == g.(st := NameOpenQ)
    ensures g.st == NameOpenQ ==> Advance(g, '"') == g.(st := NameVal, namePref := "")
    ensures g.st == NameVal && g.namePref in g.names ==> Advance(g, '"') == g.(st := ArgComma)
  {
    hide JsonAct;
  }

  lemma {:induction false} RunName(g: Config, p: string, q: string, w: string)
    requires !g.dead && g.st == NameVal && g.namePref == p && '"' !in q && p + q in g.names
    ensures Run(g, q + w) == Run(g.(namePref := p + q), w)
    decreases |q|
  {
    hide Run, Advance;
    if q == "" {
      assert q + w == w && p + q == p;
    } else {
      var h := g.(namePref := p + [q[0]]);
      assert Advance(g, q[0]) == h by { NameGrows(g, q); }
      assert q + w == [q[0]] + (q[1..] + w) && (p + [q[0]]) + q[1..] == p + q;
      RunCons(g, q[0], q[1..] + w);
      RunName(h, p + [q[0]], q[1..], w);
    }
  }

  lemma NameGrows(g: Config, q: string)
    requires !g.dead && g.st == NameVal && q != "" && '"' !in q && g.namePref + q in g.names
    ensures Advance(g, q[0]) == g.(namePref := g.namePref + [q[0]])
  {
    hide JsonAct;
    var i :| 0 <= i < |g.names| && g.names[i] == g.namePref + q;
    assert g.namePref + [q[0]] <= g.names[i];
  }

  /** Behind the name of a call the machine holds that name. */
  lemma NameHeld(names: seq<string>, litWord: string, c: Call) returns (g: Config)
    requires WellFormedCall(names, c)
    ensures !g.dead && g.st == ArgComma && g.namePref == c.name
    ensures Run(Init(names, litWord), CallText(c)) == Run(g, ArgKeyText(c))
  {
    hide Run, Advance, ArgKeyText;
    var g0 := Init(names, litWord);
    var g1 := g0.(st := KeyOpenQ);
    var g2 := g1.(st := KeyName, lit := 0);
    var g3 := g2.(lit := 4);
    var g4 := g3.(st := KeyColon);
    var g5 := g4.(st := NameOpenQ);
    var g6 := g5.(st := NameVal, namePref := "");
    var g7 := g6.(namePref := c.name);
    FrameBytes(g0); FrameBytes(g1); FrameBytes(g3); FrameBytes(g4); FrameBytes(g5); FrameBytes(g7);
    var t6 := c.name + (['"'] + ArgKeyText(c));
    var t4 := c.w2 + ([':'] + (c.w3 + (['"'] + t6)));
    assert t4 == NameText(c);
    var t2 := "name" + (['"'] + t4);
    assert "name\"" == "name" + ['"'];
    assert t2 == "name\"" + t4;
    assert CallText(c) == c.w0 + (['{'] + (c.w1 + (['"'] + t2)));
    RunFrame(g0, c.w0, '{', c.w1 + (['"'] + t2));
    RunFrame(g1, c.w1, '"', t2);
    RunKeyName(g2, ['"'] + t4);
    RunCons(g3, '"', t4);
    RunFrame(g4, c.w2, ':', c.w3 + (['"'] + t6));
    RunFrame(g5, c.w3, '"', t6);
    assert "" + c.name == c.name;
    RunName(g6, "", c.name, ['"'] + ArgKeyText(c));
    RunCons(g7, '"', ArgKeyText(c));
    g := g7.(st := ArgComma);
  }

  /** Behind it nothing touches the name any more. */
  lemma NameStays(g: Config, c: char)
    requires !Early(g.st)
    ensures !Early(Advance(g, c).st) && Advance(g, c).namePref == g.namePref
  {
    if g.dead {
    } else if FrameState(g.st) {
      hide JsonAct;
    } else {
      JsonActShape(g.st, g.Top(), c);
      ActKeepsName(g, JsonAct(g.st, g.Top(), c));
    }
  }

  lemma ActKeepsName(g: Config, a: Act)
    requires !Early(g.st)
    requires a.Goto? || a.Refuse? || a.Open? ==> !FrameState(a.s)
    requires a.Begin? ==> a.s == JLit
    requires a.Goto? || a.Refuse? || a.Open? || a.Shut? || a.Begin?
    ensures !Early(Apply(g, a).st) && Apply(g, a).namePref == g.namePref
  {}

  lemma {:induction false} NameStaysHeld(g: Config, w: string)
    requires !Early(g.st)
    ensures Run(g, w).namePref == g.namePref
    decreases |w|
  {
    hide Advance;
    if w != "" {
      NameStays(g, w[0]);
      NameStaysHeld(Advance(g, w[0]), w[1..]);
    }
  }

  /** Behind a whole call the machine names the tool that was called. */
  lemma ClosedNamesTool(names: seq<string>, litWord: string, c: Call)
    requires WellFormedCall(names, c)
    ensures var g := Run(Init(names, litWord), CallText(c)); g.IsClosed() && g.namePref == c.name
  {
    hide Run, Advance, ArgKeyText, CallText, Closes, Config.IsClosed;
    var g := NameHeld(names, litWord, c);
    NameStaysHeld(g, ArgKeyText(c));
    assert IsToolCall(names, CallText(c));
    ClosesExactlyOnToolCalls(names, litWord, CallText(c));
    ClosesIsFirst(Init(names, litWord), CallText(c));
  }
}
