/** What every reachable configuration looks like, and when a live one can still finish. */
module GrammarLiveness {
  import opened Json
  import opened ToolGrammar
  import opened GrammarState
  import opened GrammarLexemes
  import opened GrammarValues
  import opened GrammarLanguage

  predicate Brackets(s: string) {
    forall i :: 0 <= i < |s| ==> s[i] == '{' || s[i] == '['
  }

  predicate HeadSt(s: St) {
    match s
    case WsObjOpen | KeyOpenQ | KeyName | KeyColon | NameOpenQ | NameVal => true
    case ArgComma | ArgKeyOpenQ | ArgKey | ArgsColon => true
    case _ => false
  }

  predicate KeyPart(s: St) {
    match s
    case JKey | JKeyReq | JKeyStr | JKeyEsc | JKeyU1 | JKeyU2 | JKeyU3 | JKeyU4 | JKeyColon => true
    case _ => false
  }

  /** What a live configuration keeps while it reads the frame. */
  predicate FrameInv(g: Config) {
    && (HeadSt(g.st) || TailSt(g.st) ==> g.stack == "")
    && (g.st == KeyName ==> g.lit <= 4)
    && (g.st == ArgKey ==> g.lit <= 9)
    && (g.st == NameVal ==> '"' !in g.namePref && (g.namePref == "" || PrefixOfSome(g.namePref, g.names)))
    && (g.st == JLit ==> g.stack != "" && IsWord(g.litWord) && 0 < g.lit < |g.litWord|)
    && (g.st == Closer ==> g.litWord == CLOSER && 0 < g.lit < |CLOSER|)
  }

  predicate TailSt(s: St) {
    s == ObjClose || s == ToolGrammar.Done || s == Closer || s == Closed
  }

  /** What a live configuration keeps while it reads the arguments. */
  predicate JsonInv(st: St, stack: string) {
    && Brackets(stack)
    && (stack == "" ==> st == JValue)
    && (KeyPart(st) ==> stack != "" && stack[|stack| - 1] == '{')
  }

  predicate Inv(g: Config) {
    !g.dead && Brackets(g.stack) && if FrameState(g.st) then FrameInv(g) else JsonInv(g.st, g.stack)
  }

  lemma FrameKeeps(g: Config, c: char)
    requires Inv(g) && FrameState(g.st) && !FrameAct(g, c).Refuse?
    ensures Inv(Apply(g, FrameAct(g, c)))
  {
    hide JsonAct;
  }

  /** JSON acts: where they lead, and how the innermost bracket limits them. */
  lemma JsonActKeys(st: St, top: char, c: char)
    requires !FrameState(st) && (KeyPart(st) ==> top == '{') && (top == NONE ==> st == JValue)
    ensures var a := JsonAct(st, top, c);
      && (a.Goto? && KeyPart(a.s) ==> top == '{')
      && (a.Goto? && top == NONE ==> a.s == JValue)
      && (a.Begin? ==> top != NONE)
  {}

  lemma JsonKeeps(g: Config, c: char)
    requires Inv(g) && !FrameState(g.st) && !JsonAct(g.st, g.Top(), c).Refuse?
    ensures Inv(Apply(g, JsonAct(g.st, g.Top(), c)))
  {
    hide FrameAct;
    JsonActShape(g.st, g.Top(), c);
    JsonActKeys(g.st, g.Top(), c);
    JsonApplyKeeps(g, JsonAct(g.st, g.Top(), c));
  }

  lemma JsonApplyKeeps(g: Config, a: Act)
    requires Inv(g) && !FrameState(g.st)
    requires match a
      case Goto(s) => !FrameState(s) && (KeyPart(s) ==> g.Top() == '{') && (g.stack == "" ==> s == JValue)
      case Open(b, s) => (b == '{' && s == JKey) || (b == '[' && s == JValue)
      case Shut => g.stack != ""
      case Begin(w, s) => s == JLit && IsWord(w) && g.stack != ""
      case _ => false
    ensures Inv(Apply(g, a))
  {}

  /** Every byte that is not refused keeps the invariant. */
  lemma AdvanceKeeps(g: Config, c: char)
    requires Inv(g) && !Advance(g, c).dead
    ensures Inv(Advance(g, c)) && Advance(g, c).names == g.names
  {
    if FrameState(g.st) {
      hide JsonAct;
      FrameKeeps(g, c);
    } else {
      hide FrameAct, JsonAct;
      JsonKeeps(g, c);
    }
  }

  /** So every configuration a run reaches alive has it. */
  lemma {:induction false} RunKeeps(g: Config, w: string)
    requires Inv(g) && !Run(g, w).dead
    ensures Inv(Run(g, w)) && Run(g, w).names == g.names
    decreases |w|
  {
    hide Advance;
    if w != "" {
      if Advance(g, w[0]).dead { DeadStays(Advance(g, w[0]), w[1..]); }
      AdvanceKeeps(g, w[0]);
      RunKeeps(Advance(g, w[0]), w[1..]);
    }
  }

  // ----------------------------------------------------------------- liveness

  /** `n` up to its first quote. */
  function UpToQuote(n: string): string {
    if n == "" || n[0] == '"' then "" else [n[0]] + UpToQuote(n[1..])
  }

  /** Some registered name can be finished from wherever a name can be begun. */
  ghost predicate Finishable(names: seq<string>) {
    names != [] && forall n :: n in names ==> exists m :: m in names && '"' !in m && UpToQuote(n) <= m
  }

  lemma {:induction false} UpToQuoteIsLongest(p: string, n: string)
    requires p <= n && '"' !in p
    ensures p <= UpToQuote(n)
  {
    if p != "" {
      assert n[0] == p[0] && p[1..] <= n[1..];
      UpToQuoteIsLongest(p[1..], n[1..]);
      assert p == [p[0]] + p[1..];
    }
  }

  lemma {:induction false} UpToQuoteIsPrefix(n: string)
    ensures UpToQuote(n) <= n && '"' !in UpToQuote(n)
  {
    if n != "" && n[0] != '"' { UpToQuoteIsPrefix(n[1..]); }
  }

  lemma FinishableName(names: seq<string>, p: string) returns (m: string)
    requires Finishable(names) && '"' !in p && (p == "" || PrefixOfSome(p, names))
    ensures m in names && '"' !in m && p <= m
  {
    hide UpToQuote;
    var n := names[0];
    if p != "" {
      var i :| 0 <= i < |names| && p <= names[i];
      n := names[i];
    }
    UpToQuoteIsLongest(p, n);
    assert n in names;
    m :| m in names && '"' !in m && UpToQuote(n) <= m;
  }

  /** A byte that brings a configuration of the arguments nearer to its end. */
  function JsonNext(st: St, stack: string): char {
    match st
    case JValue => if stack == "" then '{' else '0'
    case JValueReq | JNumMinus | JNumDot | JNumE | JNumESign => '0'
    case JStr | JKeyStr | JKeyReq => '"'
    case JStrEsc | JKeyEsc => 'n'
    case JStrU1 | JStrU2 | JStrU3 | JStrU4 | JKeyU1 | JKeyU2 | JKeyU3 | JKeyU4 => '0'
    case JKeyColon => ':'
    case JKey => '}'
    case _ => if stack != "" && stack[|stack| - 1] == '{' then '}' else ']'
  }

  function JsonRank(st: St): nat {
    match st
    case JValue => 14
    case JValueReq | JNumMinus | JNumDot | JNumE | JNumESign | JStr => 14
    case JStrEsc | JStrU4 => 15
    case JStrU3 => 16
    case JStrU2 => 17
    case JStrU1 => 18
    case JKeyColon => 15
    case JKeyStr => 16
    case JKeyReq | JKeyEsc | JKeyU4 => 17
    case JKeyU3 => 18
    case JKeyU2 => 19
    case JKeyU1 => 20
    case _ => 13
  }

  function MaxLen(names: seq<string>): nat {
    if names == [] then 0
    else
      var m := MaxLen(names[1..]);
      if |names[0]| > m then |names[0]| else m
  }

  lemma {:induction false} MaxLenBounds(names: seq<string>, n: string)
    requires n in names
    ensures |n| <= MaxLen(names)
  {
    if n != names[0] { MaxLenBounds(names[1..], n); }
  }

  /** Bytes still needed, by an upper bound. */
  function Rank(g: Config): int {
    match g.st
    case WsObjOpen => 39 + MaxLen(g.names)
    case KeyOpenQ => 38 + MaxLen(g.names)
    case KeyName => 37 + MaxLen(g.names) - g.lit
    case KeyColon => 32 + MaxLen(g.names)
    case NameOpenQ => 31 + MaxLen(g.names)
    case NameVal => 30 + MaxLen(g.names) - |g.namePref|
    case ArgComma => 29
    case ArgKeyOpenQ => 28
    case ArgKey => 27 - g.lit
    case ArgsColon => 16
    case JLit => 13 + |g.stack| + |g.litWord| - g.lit
    case ObjClose => 13
    case Done => 12
    case Closer => 12 - g.lit
    case Closed => 0
    case _ => (if g.stack == "" then 15 else JsonRank(g.st) + |g.stack|)
  }

  ghost predicate Nearer(st: St, stack: string, a: Act) {
    match a
    case Goto(s) => stack != "" && !FrameState(s) && JsonRank(s) < JsonRank(st)
    case Open(b, s) => stack == "" && b == '{' && s == JKey
    case Shut => stack != "" && JsonRank(st) == 13
    case _ => false
  }

  function TopOf(stack: string): char {
    if stack == "" then NONE else stack[|stack| - 1]
  }

  lemma KeyNextAct(st: St, stack: string)
    requires KeyPart(st) && JsonInv(st, stack)
    ensures Nearer(st, stack, JsonAct(st, TopOf(stack), JsonNext(st, stack)))
  {}

  lemma JsonNextAct(st: St, stack: string)
    requires !FrameState(st) && JsonInv(st, stack)
    ensures Nearer(st, stack, JsonAct(st, TopOf(stack), JsonNext(st, stack)))
  {
    if KeyPart(st) {
      KeyNextAct(st, stack);
    } else if NumberSt(st) {
      NumberNextAct(st, stack);
    }
  }

  predicate NumberSt(s: St) {
    match s
    case JNumMinus | JNumZero | JNumInt | JNumDot | JNumFrac | JNumE | JNumESign | JNumExp => true
    case _ => false
  }

  lemma NumberNextAct(st: St, stack: string)
    requires NumberSt(st) && JsonInv(st, stack)
    ensures Nearer(st, stack, JsonAct(st, TopOf(stack), JsonNext(st, stack)))
  {}

  lemma JsonCloser(g: Config)
    requires Inv(g) && !FrameState(g.st)
    ensures var h := Advance(g, JsonNext(g.st, g.stack)); !h.dead && Rank(h) < Rank(g)
  {
    hide FrameAct, JsonAct, JsonNext;
    JsonNextAct(g.st, g.stack);
  }

  lemma WaitsCloser(g: Config)
    requires Inv(g) && Waits(g.st)
    ensures var h := Advance(g, WaitsFor(g.st)); !h.dead && Rank(h) < Rank(g)
  {
    hide JsonAct;
  }

  lemma KeyCloser(g: Config)
    requires Inv(g) && KeySt(g.st)
    ensures var h := Advance(g, if g.lit < |KeyWord(g.st)| then KeyWord(g.st)[g.lit] else '"');
      !h.dead && Rank(h) < Rank(g)
  {
    hide JsonAct;
  }

  lemma WordCloser(g: Config)
    requires Inv(g) && (g.st == JLit || g.st == Closer)
    ensures var h := Advance(g, g.litWord[g.lit]); !h.dead && Rank(h) < Rank(g)
  {
    hide JsonAct;
  }

  lemma DoneCloser(g: Config)
    requires Inv(g) && g.st == ToolGrammar.Done
    ensures var h := Advance(g, '<'); !h.dead && Rank(h) < Rank(g)
  {
    hide JsonAct;
  }

  lemma FrameCloser(g: Config) returns (c: char)
    requires Inv(g) && FrameState(g.st) && g.st != Closed && Finishable(g.names)
    ensures !Advance(g, c).dead && Rank(Advance(g, c)) < Rank(g)
  {
    hide Advance, Rank;
    if Waits(g.st) {
      c := WaitsFor(g.st);
      WaitsCloser(g);
    } else if g.st == ToolGrammar.Done {
      c := '<';
      DoneCloser(g);
    } else if KeySt(g.st) {
      c := if g.lit < |KeyWord(g.st)| then KeyWord(g.st)[g.lit] else '"';
      KeyCloser(g);
    } else if g.st == NameVal {
      c := NameCloser(g);
    } else {
      c := g.litWord[g.lit];
      WordCloser(g);
    }
  }

  lemma NameCloser(g: Config) returns (c: char)
    requires Inv(g) && g.st == NameVal && Finishable(g.names)
    ensures !Advance(g, c).dead && Rank(Advance(g, c)) < Rank(g)
  {
    hide Advance, Finishable, MaxLen;
    var m := FinishableName(g.names, g.namePref);
    MaxLenBounds(g.names, m);
    c := if m == g.namePref then '"' else m[|g.namePref|];
    NameByte(g, c);
    assert c != '"' ==> g.namePref + [c] <= m && PrefixOfSome(g.namePref + [c], g.names);
  }

  lemma {:induction false} CanFinish(g: Config) returns (w: string)
    requires Inv(g) && Finishable(g.names)
    ensures Closes(g, w)
    decreases Rank(g)
  {
    hide Advance, Closes, Rank;
    if g.st == Closed {
      w := "";
      ClosedCloses(g, w);
    } else {
      var c;
      if FrameState(g.st) { c := FrameCloser(g); } else { c := JsonNext(g.st, g.stack); JsonCloser(g); }
      RankNat(g);
      RankNat(Advance(g, c));
      AdvanceKeeps(g, c);
      var v := CanFinish(Advance(g, c));
      w := [c] + v;
      Feed(g, c, v);
    }
  }

  lemma RankNat(g: Config)
    ensures Inv(g) ==> Rank(g) >= 0
  {
    if g.st == NameVal && Inv(g) && g.namePref != "" {
      var i :| 0 <= i < |g.names| && g.namePref <= g.names[i];
      MaxLenBounds(g.names, g.names[i]);
    }
  }

  // --------------------------------------------------------- when it is stuck

  const OPENING := "{\"name\":\""

  lemma OpeningRuns(names: seq<string>, litWord: string)
    ensures Run(Init(names, litWord), OPENING) == Config(names, NameVal, 4, litWord, "", "", false)
  {
    hide JsonAct, Run;
    var g := Init(names, litWord);
    var g2 := g.(st := KeyName);
    assert OPENING == ['{'] + (['"'] + ("name" + (['"'] + ([':'] + ['"']))));
    RunCons(g, '{', ['"'] + ("name" + (['"'] + ([':'] + ['"']))));
    RunCons(g.(st := KeyOpenQ), '"', "name" + (['"'] + ([':'] + ['"'])));
    RunKeyName(g2, ['"'] + ([':'] + ['"']));
    RunTail(g2.(lit := 4));
  }

  lemma RunKeyName(g: Config, w: string)
    requires !g.dead && g.st == KeyName && g.lit == 0
    ensures Run(g, "name" + w) == Run(g.(lit := 4), w)
  {
    hide JsonAct, Run;
    var w3 := ['e'] + w;
    var w2 := ['m'] + w3;
    var w1 := ['a'] + w2;
    assert "name" + w == ['n'] + w1;
    RunCons(g, 'n', w1);
    RunCons(g.(lit := 1), 'a', w2);
    RunCons(g.(lit := 2), 'm', w3);
    RunCons(g.(lit := 3), 'e', w);
  }

  lemma RunTail(g: Config)
    requires !g.dead && g.st == KeyName && g.lit == 4
    ensures Run(g, ['"'] + ([':'] + ['"'])) == g.(st := NameVal, namePref := "")
  {
    hide Run, Advance;
    var a, b, c := g.(st := KeyColon), g.(st := NameOpenQ), g.(st := NameVal, namePref := "");
    assert Advance(g, '"') == a && Advance(a, ':') == b && Advance(b, '"') == c by { RunTailBytes(g); }
    RunCons(g, '"', [':'] + ['"']);
    RunCons(a, ':', ['"']);
    assert ['"'] == ['"'] + "";
    RunCons(b, '"', "");
    RunNil(c);
  }

  lemma RunTailBytes(g: Config)
    requires !g.dead && g.st == KeyName && g.lit == 4
    ensures Advance(g, '"') == g.(st := KeyColon)
    ensures Advance(g.(st := KeyColon), ':') == g.(st := NameOpenQ)
    ensures Advance(g.(st := NameOpenQ), '"') == g.(st := NameVal, namePref := "")
  {
    hide JsonAct;
  }

  lemma RunCons(g: Config, c: char, w: string)
    ensures Run(g, [c] + w) == Run(Advance(g, c), w)
  {
    hide Advance;
    assert ([c] + w)[1..] == w;
  }

  lemma RunNil(g: Config)
    ensures Run(g, "") == g
  {}

  lemma {:induction false} PrefixRuns(names: seq<string>, p: string, q: string)
    requires '"' !in q && PrefixOfSome(p + q, names)
    ensures Run(AtName(names, p), q) == AtName(names, p + q)
    decreases |q|
  {
    hide Advance;
    if q == "" {
      assert p + q == p;
    } else {
      var i :| 0 <= i < |names| && p + q <= names[i];
      assert p + [q[0]] <= p + q && PrefixOfSome(p + [q[0]], names);
      NameByte(AtName(names, p), q[0]);
      assert (p + [q[0]]) + q[1..] == p + q;
      PrefixRuns(names, p + [q[0]], q[1..]);
    }
  }

  /** A prefix from which no quote-free name goes on. */
  lemma NameIsStuck(names: seq<string>, p: string, v: string)
    requires '"' !in p && forall m :: m in names && '"' !in m ==> !(p <= m)
    ensures !Closes(AtName(names, p), v)
  {
    hide Advance, Closes;
    if Closes(AtName(names, p), v) {
      var m, rest := TakeName(names, p, v);
      assert false;
    }
  }

  /** A live configuration with no way to finish. */
  lemma StuckName(names: seq<string>, litWord: string) returns (w: string)
    requires !Finishable(names)
    ensures !Run(Init(names, litWord), w).dead
    ensures forall v :: !Closes(Run(Init(names, litWord), w), v)
  {
    hide Advance, Closes, Run;
    var p := "";
    RunNil(AtName(names, ""));
    if names != [] {
      var n :| n in names && forall m :: m in names && '"' !in m ==> !(UpToQuote(n) <= m);
      p := UpToQuote(n);
      UpToQuoteIsPrefix(n);
      assert "" + p == p && PrefixOfSome(p, names) by {
        var i :| 0 <= i < |names| && names[i] == n;
      }
      PrefixRuns(names, "", p);
    }
    w := OPENING + p;
    StuckAfterOpening(names, litWord, p);
  }

  lemma StuckAfterOpening(names: seq<string>, litWord: string, p: string)
    requires Run(AtName(names, ""), p) == AtName(names, p)
    requires '"' !in p && forall m :: m in names && '"' !in m ==> !(p <= m)
    ensures !Run(Init(names, litWord), OPENING + p).dead
    ensures forall v :: !Closes(Run(Init(names, litWord), OPENING + p), v)
  {
    hide Advance, Closes, Run;
    var g := Run(Init(names, litWord), OPENING);
    OpeningRuns(names, litWord);
    RunConcat(Init(names, litWord), OPENING, p);
    SameLiveRun(g, AtName(names, ""), p);
    forall v ensures !Closes(Run(g, p), v) {
      SameLiveCloses(Run(g, p), AtName(names, p), v);
      NameIsStuck(names, p, v);
    }
  }

  lemma InitInv(names: seq<string>, litWord: string)
    ensures Inv(Init(names, litWord))
  {}

  ghost predicate CanClose(g: Config) {
    exists v :: Closes(g, v)
  }

  /** Every live configuration a run reaches can still close, exactly when the
      registered names are Finishable: there is one, and wherever the bytes of a name
      stop at a quote, some quote-free name goes on from there. */
  lemma LiveRunsCanClose(names: seq<string>, litWord: string)
    ensures Finishable(names) <==>
            forall w :: !Run(Init(names, litWord), w).dead ==> CanClose(Run(Init(names, litWord), w))
  {
    hide Advance, Closes, Run, Finishable;
    var g := Init(names, litWord);
    if Finishable(names) {
      forall w | !Run(g, w).dead ensures CanClose(Run(g, w)) {
        InitInv(names, litWord);
        RunKeeps(g, w);
        var v := CanFinish(Run(g, w));
      }
    } else {
      var w := StuckName(names, litWord);
      assert !CanClose(Run(g, w));
    }
  }

  /** Quote-free names are always Finishable. */
  lemma QuoteFreeFinishable(names: seq<string>)
    requires names != [] && forall n :: n in names ==> '"' !in n
    ensures Finishable(names)
  {
    forall n | n in names ensures exists m :: m in names && '"' !in m && UpToQuote(n) <= m {
      UpToQuoteIsPrefix(n);
    }
  }
}
