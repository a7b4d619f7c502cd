/** The machine closes on exactly the tool calls: a registered name, an object of arguments, the closer. */
module GrammarLanguage {
  import opened Json
  import opened ToolGrammar
  import opened GrammarState
  import opened GrammarLexemes
  import opened GrammarValues

  /** A whole call, white space included, in the order it is written. */
  datatype Call = Call(w0: string, w1: string, w2: string, w3: string, name: string,
                       w4: string, w5: string, w6: string, w7: string, args: Members,
                       w8: string, w9: string)

  predicate WellFormedCall(names: seq<string>, c: Call) {
    && AllWs(c.w0) && AllWs(c.w1) && AllWs(c.w2) && AllWs(c.w3) && AllWs(c.w4) && AllWs(c.w5)
    && AllWs(c.w6) && AllWs(c.w7) && AllWs(c.w8) && AllWs(c.w9)
    && c.name in names && '"' !in c.name
    && WellFormedMembers(c.args)
  }

  function EndText(c: Call): string {
    c.w8 + ("}" + (c.w9 + CLOSER))
  }

  function ArgsText(c: Call): string {
    c.w7 + ("{" + (MembersText(c.args) + ("}" + EndText(c))))
  }

  function ArgKeyText(c: Call): string {
    c.w4 + ("," + (c.w5 + ("\"" + ("arguments\"" + (c.w6 + (":" + ArgsText(c)))))))
  }

  function NameText(c: Call): string {
    c.w2 + (":" + (c.w3 + ("\"" + (c.name + ("\"" + ArgKeyText(c))))))
  }

  function CallText(c: Call): string {
    c.w0 + ("{" + (c.w1 + ("\"" + ("name\"" + NameText(c)))))
  }

  ghost predicate IsToolCall(names: seq<string>, w: string) {
    exists c :: WellFormedCall(names, c) && w == CallText(c)
  }

  /** A live configuration of the frame around the arguments. */
  function F(names: seq<string>, st: St): Config {
    Config(names, st, 0, "", "", "", false)
  }

  /** The frame states that wait for one byte, with that byte and where it leads. */
  predicate Waits(st: St) {
    match st
    case WsObjOpen | KeyOpenQ | KeyColon | NameOpenQ | ArgComma | ArgKeyOpenQ | ArgsColon | ObjClose => true
    case _ => false
  }

  function WaitsFor(st: St): char {
    match st
    case WsObjOpen => '{'
    case KeyOpenQ | NameOpenQ | ArgKeyOpenQ => '"'
    case KeyColon | ArgsColon => ':'
    case ArgComma => ','
    case _ => '}'
  }

  function LeadsTo(st: St): St {
    match st
    case WsObjOpen => KeyOpenQ
    case KeyOpenQ => KeyName
    case KeyColon => NameOpenQ
    case NameOpenQ => NameVal
    case ArgComma => ArgKeyOpenQ
    case ArgKeyOpenQ => ArgKey
    case ArgsColon => JValue
    case _ => ToolGrammar.Done
  }

  lemma FrameByte(names: seq<string>, st: St, w: string)
    requires Waits(st)
    ensures Closes(F(names, st), [WaitsFor(st)] + w) == Closes(F(names, LeadsTo(st)), w)
    ensures forall c :: !IsWs(c) && c != WaitsFor(st) ==> Advance(F(names, st), c).dead
  {
    hide Closes, JsonAct;
    Feed(F(names, st), WaitsFor(st), w);
    SameLiveCloses(Advance(F(names, st), WaitsFor(st)), F(names, LeadsTo(st)), w);
  }

  /** White space, then the one byte the frame waits for: both directions. */
  lemma FeedFrame(names: seq<string>, st: St, ws: string, w: string)
    requires Waits(st) && AllWs(ws)
    ensures Closes(F(names, st), ws + ([WaitsFor(st)] + w)) == Closes(F(names, LeadsTo(st)), w)
  {
    hide Closes, Advance;
    FeedWs(F(names, st), ws, [WaitsFor(st)] + w);
    FrameByte(names, st, w);
  }

  lemma TakeFrame(names: seq<string>, st: St, w: string) returns (ws: string, rest: string)
    requires Waits(st) && Closes(F(names, st), w)
    ensures w == ws + ([WaitsFor(st)] + rest) && AllWs(ws) && Closes(F(names, LeadsTo(st)), rest)
  {
    hide Closes, Advance;
    var r;
    ws, r := TakeWs(F(names, st), w);
    var c;
    c, rest := First(F(names, st), r);
    FrameByte(names, st, rest);
  }

  // ---------------------------------------------------------------- the keys

  predicate KeySt(st: St) { st == KeyName || st == ArgKey }
  function KeyWord(st: St): string { if st == KeyName then "name" else "arguments" }
  function AfterKey(st: St): St { if st == KeyName then KeyColon else ArgsColon }

  function AtKey(names: seq<string>, st: St, lit: nat): Config {
    F(names, st).(lit := lit)
  }

  lemma KeyByte(names: seq<string>, st: St, lit: nat)
    requires KeySt(st) && lit < |KeyWord(st)|
    ensures Advance(AtKey(names, st, lit), KeyWord(st)[lit]) == AtKey(names, st, lit + 1)
    ensures forall d :: d != KeyWord(st)[lit] ==> Advance(AtKey(names, st, lit), d).dead
  {
    hide JsonAct;
  }

  lemma KeyEnd(names: seq<string>, st: St, w: string)
    requires KeySt(st)
    ensures var g := AtKey(names, st, |KeyWord(st)|);
      && Closes(Advance(g, '"'), w) == Closes(F(names, AfterKey(st)), w)
      && forall d :: d != '"' ==> Advance(g, d).dead
  {
    hide JsonAct, Closes;
    SameLiveCloses(Advance(AtKey(names, st, |KeyWord(st)|), '"'), F(names, AfterKey(st)), w);
  }

  lemma {:induction false} FeedKey(names: seq<string>, st: St, lit: nat, w: string)
    requires KeySt(st) && lit <= |KeyWord(st)|
    ensures Closes(AtKey(names, st, lit), KeyWord(st)[lit..] + ("\"" + w)) == Closes(F(names, AfterKey(st)), w)
    decreases |KeyWord(st)| - lit
  {
    hide Closes, Advance, KeyWord;
    var g, more := AtKey(names, st, lit), KeyWord(st)[lit..];
    if lit < |KeyWord(st)| {
      KeyByte(names, st, lit);
      assert more + ("\"" + w) == [more[0]] + (KeyWord(st)[lit + 1..] + ("\"" + w));
      Feed(g, more[0], KeyWord(st)[lit + 1..] + ("\"" + w));
      FeedKey(names, st, lit + 1, w);
    } else {
      assert more + ("\"" + w) == ['"'] + w;
      Feed(g, '"', w);
      KeyEnd(names, st, w);
    }
  }

  lemma {:induction false} TakeKey(names: seq<string>, st: St, lit: nat, w: string) returns (rest: string)
    requires KeySt(st) && lit <= |KeyWord(st)| && Closes(AtKey(names, st, lit), w)
    ensures w == KeyWord(st)[lit..] + ("\"" + rest) && Closes(F(names, AfterKey(st)), rest)
    decreases |KeyWord(st)| - lit
  {
    hide Closes, Advance, KeyWord;
    var c, r := First(AtKey(names, st, lit), w);
    if lit < |KeyWord(st)| {
      KeyByte(names, st, lit);
      rest := TakeKey(names, st, lit + 1, r);
    } else {
      rest := r;
      KeyEnd(names, st, rest);
    }
  }

  // ---------------------------------------------------------------- the name

  function AtName(names: seq<string>, p: string): Config {
    F(names, NameVal).(namePref := p)
  }

  lemma NameByte(g: Config, c: char)
    requires !g.dead && g.st == NameVal
    ensures var h := Advance(g, c);
      if c == '"' then (if g.namePref in g.names then h == g.(st := ArgComma) else h.dead)
      else if PrefixOfSome(g.namePref + [c], g.names) then h == g.(namePref := g.namePref + [c])
      else h.dead
  {
    hide JsonAct;
  }

  lemma Regroup(p: string, c: char, m: string)
    ensures p + ([c] + m) == (p + [c]) + m
  {}

  lemma {:induction false} FeedName(names: seq<string>, p: string, n: string, w: string)
    requires p + n in names && '"' !in n
    ensures Closes(AtName(names, p), n + ("\"" + w)) == Closes(F(names, ArgComma), w)
    decreases |n|
  {
    hide Closes, Advance;
    if n == "" {
      assert p + n == p && n + ("\"" + w) == ['"'] + w;
      NameByte(AtName(names, p), '"');
      Feed(AtName(names, p), '"', w);
      SameLiveCloses(AtName(names, p).(st := ArgComma), F(names, ArgComma), w);
    } else {
      var q := p + [n[0]];
      assert p + n == q + n[1..];
      assert q <= p + n && PrefixOfSome(q, names);
      NameByte(AtName(names, p), n[0]);
      assert n + ("\"" + w) == [n[0]] + (n[1..] + ("\"" + w));
      Feed(AtName(names, p), n[0], n[1..] + ("\"" + w));
      FeedName(names, q, n[1..], w);
    }
  }

  lemma TakeNameByte(names: seq<string>, p: string, w: string) returns (c: char, rest: string)
    requires Closes(AtName(names, p), w)
    ensures w == [c] + rest && |rest| < |w|
    ensures if c == '"' then p in names && Closes(F(names, ArgComma), rest) else Closes(AtName(names, p + [c]), rest)
  {
    hide Closes, Advance, PrefixOfSome;
    c, rest := First(AtName(names, p), w);
    NameByte(AtName(names, p), c);
    SameLiveCloses(AtName(names, p).(st := ArgComma), F(names, ArgComma), rest);
  }

  lemma {:induction false} TakeName(names: seq<string>, p: string, w: string) returns (n: string, rest: string)
    requires Closes(AtName(names, p), w)
    ensures w == n + ("\"" + rest) && p + n in names && '"' !in n && Closes(F(names, ArgComma), rest)
    decreases |w|
  {
    hide Closes, AtName, F;
    var c, r := TakeNameByte(names, p, w);
    if c == '"' {
      n, rest := "", r;
      assert p + n == p;
    } else {
      var m;
      m, rest := TakeName(names, p + [c], r);
      n := [c] + m;
      Regroup(p, c, m);
    }
  }

  // --------------------------------------------------------- arguments, end

  lemma ArgsEntry(names: seq<string>, w: string)
    ensures Closes(F(names, JValue), w) == Closes(At(JValue, ""), w)
    ensures Closes(F(names, ObjClose), w) == Closes(At(ObjClose, ""), w)
  {
    hide Closes;
    SameLiveCloses(F(names, JValue), At(JValue, ""), w);
    SameLiveCloses(F(names, ObjClose), At(ObjClose, ""), w);
  }

  /** The arguments value must be an object. */
  lemma TakeArgsBrace(w: string) returns (rest: string)
    requires Closes(At(JValue, ""), w) && w != "" && !IsWs(w[0])
    ensures w == "{" + rest && Closes(At(JKey, "" + "{"), rest)
  {
    hide Closes, Advance;
    var c;
    c, rest := TakeJson(JValue, "", w);
  }

  function AtCloser(names: seq<string>): Config {
    F(names, Closer).(litWord := CLOSER, lit := 1)
  }

  lemma DoneByte(names: seq<string>)
    ensures Advance(F(names, ToolGrammar.Done), '<') == AtCloser(names)
    ensures forall c :: !IsWs(c) && c != '<' ==> Advance(F(names, ToolGrammar.Done), c).dead
  {
    hide JsonAct;
  }

  lemma FeedCloser(names: seq<string>, ws: string)
    requires AllWs(ws)
    ensures Closes(F(names, ToolGrammar.Done), ws + CLOSER)
  {
    hide Closes, Advance;
    FeedWs(F(names, ToolGrammar.Done), ws, CLOSER);
    DoneByte(names);
    assert CLOSER == ['<'] + CLOSER[1..];
    Feed(F(names, ToolGrammar.Done), '<', CLOSER[1..]);
    FeedWord(AtCloser(names), "");
    ClosedCloses(WordOver(AtCloser(names)), "");
    assert CLOSER[1..] + "" == CLOSER[1..];
  }

  lemma ClosedCloses(g: Config, w: string)
    requires g.IsClosed()
    ensures Closes(g, w) <==> w == ""
  {
    hide Advance;
  }

  lemma TakeCloserWord(names: seq<string>, w: string)
    requires Closes(AtCloser(names), w)
    ensures ['<'] + w == CLOSER
  {
    hide Closes, Advance;
    var rest := TakeWord(AtCloser(names), w);
    ClosedCloses(WordOver(AtCloser(names)), rest);
  }

  lemma TakeCloser(names: seq<string>, w: string) returns (ws: string)
    requires Closes(F(names, ToolGrammar.Done), w)
    ensures w == ws + CLOSER && AllWs(ws)
  {
    hide Closes, Advance, AtCloser;
    var r;
    ws, r := TakeWs(F(names, ToolGrammar.Done), w);
    var c, r1 := First(F(names, ToolGrammar.Done), r);
    DoneByte(names);
    TakeCloserWord(names, r1);
  }

  // ------------------------------------------------------------ main theorem

  lemma CallCloses(names: seq<string>, c: Call)
    requires WellFormedCall(names, c)
    ensures Closes(F(names, WsObjOpen), CallText(c))
  {
    hide Closes, Advance;
    FeedCloser(names, c.w9);
    FeedFrame(names, ObjClose, c.w8, c.w9 + CLOSER);
    ArgsEntry(names, EndText(c));
    FeedMembers("", c.args, EndText(c));
    OpenByte(JValue, "", '{', MembersText(c.args) + ("}" + EndText(c)));
    FeedWs(At(JValue, ""), c.w7, "{" + (MembersText(c.args) + ("}" + EndText(c))));
    ArgsEntry(names, ArgsText(c));
    FeedFrame(names, ArgsColon, c.w6, ArgsText(c));
    FeedKey(names, ArgKey, 0, c.w6 + (":" + ArgsText(c)));
    assert "arguments"[0..] == "arguments";
    var key := "arguments\"" + (c.w6 + (":" + ArgsText(c)));
    assert "arguments" + ("\"" + (c.w6 + (":" + ArgsText(c)))) == key;
    FeedFrame(names, ArgKeyOpenQ, c.w5, key);
    FeedFrame(names, ArgComma, c.w4, c.w5 + ("\"" + key));
    assert Closes(F(names, ArgComma), ArgKeyText(c));
    HeadCloses(names, c);
  }

  lemma HeadCloses(names: seq<string>, c: Call)
    requires WellFormedCall(names, c) && Closes(F(names, ArgComma), ArgKeyText(c))
    ensures Closes(F(names, WsObjOpen), CallText(c))
  {
    hide Closes, Advance;
    assert "" + c.name == c.name;
    FeedName(names, "", c.name, ArgKeyText(c));
    FeedFrame(names, NameOpenQ, c.w3, c.name + ("\"" + ArgKeyText(c)));
    FeedFrame(names, KeyColon, c.w2, c.w3 + ("\"" + (c.name + ("\"" + ArgKeyText(c)))));
    FeedKey(names, KeyName, 0, NameText(c));
    assert "name"[0..] == "name" && "name" + ("\"" + NameText(c)) == "name\"" + NameText(c);
    FeedFrame(names, KeyOpenQ, c.w1, "name\"" + NameText(c));
    FeedFrame(names, WsObjOpen, c.w0, c.w1 + ("\"" + ("name\"" + NameText(c))));
  }

  lemma TakeArgs(names: seq<string>, w: string) returns (w7: string, m: Members, w8: string, w9: string)
    requires Closes(F(names, JValue), w)
    ensures AllWs(w7) && AllWs(w8) && AllWs(w9) && WellFormedMembers(m)
    ensures w == w7 + ("{" + (MembersText(m) + ("}" + (w8 + ("}" + (w9 + CLOSER))))))
  {
    hide Closes, Advance;
    ArgsEntry(names, w);
    var r, r1, r2, r3;
    w7, r := TakeWs(At(JValue, ""), w);
    r1 := TakeArgsBrace(r);
    m, r2 := TakeMembers("", r1);
    ArgsEntry(names, r2);
    w8, r3 := TakeFrame(names, ObjClose, r2);
    w9 := TakeCloser(names, r3);
  }

  /** The frame after the name. */
  lemma TakeArgKey(names: seq<string>, w: string) returns (w4: string, w5: string, w6: string, rest: string)
    requires Closes(F(names, ArgComma), w)
    ensures w == w4 + ("," + (w5 + ("\"" + ("arguments\"" + (w6 + (":" + rest))))))
    ensures AllWs(w4) && AllWs(w5) && AllWs(w6) && Closes(F(names, JValue), rest)
  {
    hide Closes, Advance, AllWs;
    var r6, r7, r8;
    w4, r6 := TakeFrame(names, ArgComma, w);
    w5, r7 := TakeFrame(names, ArgKeyOpenQ, r6);
    r8 := TakeKey(names, ArgKey, 0, r7);
    w6, rest := TakeFrame(names, ArgsColon, r8);
    assert r7 == "arguments" + ("\"" + r8) == "arguments\"" + r8;
  }

  /** The frame up to the name. */
  lemma TakeNameKey(names: seq<string>, w: string) returns (w0: string, w1: string, w2: string, w3: string, rest: string)
    requires Closes(F(names, WsObjOpen), w)
    ensures w == w0 + ("{" + (w1 + ("\"" + ("name\"" + (w2 + (":" + (w3 + ("\"" + rest))))))))
    ensures AllWs(w0) && AllWs(w1) && AllWs(w2) && AllWs(w3) && Closes(F(names, NameVal), rest)
  {
    hide Closes, Advance, AllWs;
    var r0, r1, r3;
    w0, r0 := TakeFrame(names, WsObjOpen, w);
    w1, r1 := TakeFrame(names, KeyOpenQ, r0);
    var r2 := TakeKey(names, KeyName, 0, r1);
    w2, r3 := TakeFrame(names, KeyColon, r2);
    w3, rest := TakeFrame(names, NameOpenQ, r3);
    assert r1 == "name" + ("\"" + r2) == "name\"" + r2;
  }

  lemma TakeCall(names: seq<string>, w: string) returns (c: Call)
    requires Closes(F(names, WsObjOpen), w)
    ensures WellFormedCall(names, c) && w == CallText(c)
  {
    hide Closes, Advance, AllWs;
    var w0, w1, w2, w3, r := TakeNameKey(names, w);
    var name, r1 := TakeName(names, "", r);
    var w4, w5, w6, r2 := TakeArgKey(names, r1);
    var w7, m, w8, w9 := TakeArgs(names, r2);
    assert "" + name == name;
    c := Call(w0, w1, w2, w3, name, w4, w5, w6, w7, m, w8, w9);
    assert r1 == ArgKeyText(c);
  }

  /** Soundness and completeness: from a reset, the first time the machine closes it
      has read exactly one legal call, and every legal call closes it. */
  lemma ClosesExactlyOnToolCalls(names: seq<string>, litWord: string, w: string)
    ensures Closes(Init(names, litWord), w) <==> IsToolCall(names, w)
  {
    hide Closes;
    SameLiveCloses(Init(names, litWord), F(names, WsObjOpen), w);
    if Closes(F(names, WsObjOpen), w) {
      var c := TakeCall(names, w);
    }
    if IsToolCall(names, w) {
      var c :| WellFormedCall(names, c) && w == CallText(c);
      CallCloses(names, c);
    }
  }
}
