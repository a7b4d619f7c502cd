/** A whole call through the recovery: when its arguments come out as the stream sent them. */
module CallRecovery {
  import Json
  import opened JsonRepair
  import opened JsonRescan
  import opened CallHead

  // ------------------------------------------------------- the head, taken apart

  /** A matching head: its white space, its name, and whether the key of the arguments
      has its opening quote. */
  datatype Head = Head(w0: string, w1: string, w2: string, w3: string, name: string,
                       w4: string, w5: string, quoted: bool, w6: string, w7: string)

  predicate Proper(h: Head) {
    && Json.AllWs(h.w0) && Json.AllWs(h.w1) && Json.AllWs(h.w2) && Json.AllWs(h.w3)
    && Json.AllWs(h.w4) && Json.AllWs(h.w5) && Json.AllWs(h.w6) && Json.AllWs(h.w7)
    && h.name != "" && '"' !in h.name && '\\' !in h.name
  }

  function KeyText(h: Head, args: string): string {
    (if h.quoted then "\"" else "") + (KEY + (h.w6 + (":" + (h.w7 + args))))
  }

  function NameText(h: Head, args: string): string {
    h.name + ("\"" + (h.w4 + ("," + (h.w5 + KeyText(h, args)))))
  }

  /** The call body: the head in front of the arguments. */
  function Body(h: Head, args: string): string {
    h.w0 + ("{" + (h.w1 + ("\"name\"" + (h.w2 + (":" + (h.w3 + ("\"" + NameText(h, args))))))))
  }

  predicate OpensArgs(args: string) { args != "" && args[0] == '{' }

  lemma {:induction false} SkipGives(t: string) returns (w: string)
    ensures Json.AllWs(w) && t == w + SkipWs(t) && (SkipWs(t) != "" ==> !Json.IsWs(SkipWs(t)[0]))
  {
    if t != "" && Json.IsWs(t[0]) {
      var v := SkipGives(t[1..]);
      w := [t[0]] + v;
      var rest := SkipWs(t[1..]);
      assert SkipWs(t) == rest;
      hide SkipWs;
      assert t == [t[0]] + (v + rest) == w + rest;
    } else {
      w := "";
    }
  }

  lemma SameFirst(t: string, s: string, rest: string)
    requires t != "" && s != "" && t[0] == s[0] && t[1..] == s[1..] + rest
    ensures t == s + rest
  {
    assert t == [t[0]] + t[1..] && s == [s[0]] + s[1..];
  }

  lemma {:induction false} LitGives(t: string, s: string)
    requires Lit(t, s).Past?
    ensures t == s + Lit(t, s).rest
  {
    if s == "" {
      assert t == "" + t;
    } else {
      LitGives(t[1..], s[1..]);
      SameFirst(t, s, Lit(t, s).rest);
    }
  }

  lemma WordGives(t: string, s: string) returns (w: string)
    requires Word(t, s).Past?
    ensures Json.AllWs(w) && t == w + (s + Word(t, s).rest)
  {
    w := SkipGives(t);
    LitGives(SkipWs(t), s);
  }

  lemma {:induction false} NameGives(t: string)
    requires NameOf(t).Name?
    ensures var n := NameOf(t).name; t == n + ("\"" + NameOf(t).rest) && '"' !in n && '\\' !in n
  {
    if t[0] == '"' {
      assert t == "" + ("\"" + t[1..]);
    } else {
      NameGives(t[1..]);
      var n := NameOf(t[1..]);
      assert NameOf(t) == Name([t[0]] + n.name, n.rest);
      hide NameOf;
      assert t == [t[0]] + (n.name + ("\"" + n.rest)) == ([t[0]] + n.name) + ("\"" + n.rest);
    }
  }

  /** The matching bodies are exactly these: nothing else matches, and each of them does. */
  lemma MatchedGives(t: string) returns (h: Head)
    requires MatchHead(t).Matched?
    ensures Proper(h) && h.name == MatchHead(t).name && OpensArgs(MatchHead(t).args)
    ensures t == Body(h, MatchHead(t).args)
  {
    hide Word, NameOf, Lit, SkipWs, Json.AllWs, MatchName;
    var t1, t2, t3, t4 := OpenersGive(t);
    var w0 := WordGives(t, "{");
    var w1 := WordGives(t1, "\"name\"");
    var w2 := WordGives(t2, ":");
    var w3 := WordGives(t3, "\"");
    h := NameGivesHead(t4);
    h := h.(w0 := w0, w1 := w1, w2 := w2, w3 := w3);
  }

  lemma OpenersGive(t: string) returns (t1: string, t2: string, t3: string, t4: string)
    requires MatchHead(t).Matched?
    ensures Word(t, "{") == Past(t1) && Word(t1, "\"name\"") == Past(t2)
    ensures Word(t2, ":") == Past(t3) && Word(t3, "\"") == Past(t4) && MatchHead(t) == MatchName(t4)
  {
    hide Word, MatchName;
    assert OPENERS[1..] == ["\"name\"", ":", "\""] && OPENERS[1..][1..] == [":", "\""];
    assert [":", "\""][1..] == ["\""] && ["\""][1..] == [];
    t1 := Word(t, "{").rest;
    t2 := Word(t1, "\"name\"").rest;
    t3 := Word(t2, ":").rest;
    t4 := Word(t3, "\"").rest;
  }

  lemma NameGivesHead(t: string) returns (h: Head)
    requires MatchName(t).Matched?
    ensures Proper(h) && h.name == MatchName(t).name && OpensArgs(MatchName(t).args)
    ensures t == NameText(h, MatchName(t).args)
  {
    hide Word, NameOf, Lit, SkipWs;
    NameGives(t);
    var n := NameOf(t);
    var w4 := WordGives(n.rest, ",");
    var r := Word(n.rest, ",").rest;
    var w5 := SkipGives(r);
    var u := SkipWs(r);
    LitGives(Unquoted(u), KEY);
    var v := Lit(Unquoted(u), KEY).rest;
    var w6 := WordGives(v, ":");
    var x := Word(v, ":").rest;
    var w7 := SkipGives(x);
    assert u == (if u[0] == '"' then "\"" else "") + Unquoted(u);
    h := Head("", "", "", "", n.name, w4, w5, u[0] == '"', w6, w7);
  }

  lemma BodyMatches(h: Head, args: string)
    requires Proper(h) && OpensArgs(args)
    ensures MatchHead(Body(h, args)) == Matched(h.name, args)
  {
    hide Word, NameOf, MatchName;
    var name := NameText(h, args);
    var t2 := h.w2 + (":" + (h.w3 + ("\"" + name)));
    WordReads(h.w0, "{", h.w1 + ("\"name\"" + t2));
    WordReads(h.w1, "\"name\"", t2);
    WordReads(h.w2, ":", h.w3 + ("\"" + name));
    WordReads(h.w3, "\"", name);
    OpenersRead(Body(h, args), h.w1 + ("\"name\"" + t2), t2, h.w3 + ("\"" + name), name);
    NameTextMatches(h, args);
  }

  lemma NameTextMatches(h: Head, args: string)
    requires Proper(h) && OpensArgs(args)
    ensures MatchName(NameText(h, args)) == Matched(h.name, args)
  {
    hide Word, NameOf, Lit, SkipWs;
    var key := KeyText(h, args);
    var colon := h.w6 + (":" + (h.w7 + args));
    NameReads(h.name, h.w4 + ("," + (h.w5 + key)));
    WordReads(h.w4, ",", h.w5 + key);
    assert key[0] == (if h.quoted then '"' else 'a');
    SkipReads(h.w5, key);
    assert Unquoted(key) == KEY + colon;
    LitReads(KEY, colon);
    WordReads(h.w6, ":", h.w7 + args);
    SkipReads(h.w7, args);
  }

  // ---------------------------------------------------- a scan, part by part

  /** What the first bytes of a text do to a scan: state, output, whether a quote was
      escaped, whether the scan stopped. */
  datatype Part = Part(st: Core, out: string, quote: bool, stopped: bool)

  function Steps(look: bool, b: Core, src: string, n: nat): Part
    requires n <= |src|
    decreases n
  {
    if n == 0 then Part(b, "", false, false)
    else
      var m := ModeStep(look, true, b, src[0], src[1..]);
      var r := Steps(look, m.st, src[1..], n - 1);
      Part(r.st, m.out + r.out, m.quote || r.quote, Balanced(m.st, src[0]) || r.stopped)
  }

  lemma {:induction false} StepsConcat(look: bool, b: Core, src: string, n: nat, k: nat)
    requires n + k <= |src|
    ensures var p := Steps(look, b, src, n); var q := Steps(look, p.st, src[n..], k);
      Steps(look, b, src, n + k) == Part(q.st, p.out + q.out, p.quote || q.quote, p.stopped || q.stopped)
    decreases n
  {
    hide ModeStep, Balanced;
    if n == 0 {
      assert src[0..] == src;
      assert "" + Steps(look, b, src, k).out == Steps(look, b, src, k).out;
    } else {
      var m := ModeStep(look, true, b, src[0], src[1..]);
      StepsConcat(look, m.st, src[1..], n - 1, k);
      assert src[1..][n - 1..] == src[n..];
      var p := Steps(look, m.st, src[1..], n - 1);
      var q := Steps(look, p.st, src[n..], k);
      assert (m.out + p.out) + q.out == m.out + (p.out + q.out);
    }
  }

  /** Where no quote is escaped the look-ahead makes no difference. */
  lemma {:induction false} LookMakesNoDifference(b: Core, src: string, n: nat)
    requires n <= |src| && !Steps(true, b, src, n).quote
    ensures Steps(false, b, src, n) == Steps(true, b, src, n)
    decreases n
  {
    if n > 0 {
      StepsAlike(b, src[0], src[1..]);
      var m := ModeStep(true, true, b, src[0], src[1..]);
      hide ModeStep, Balanced;
      LookMakesNoDifference(m.st, src[1..], n - 1);
    }
  }

  /** A scan is its first part and, unless that stopped it, the scan of the rest. */
  lemma {:induction false} ScanInParts(look: bool, b: Core, src: string, n: nat)
    requires n <= |src| && !Steps(look, b, src, n).stopped
    ensures var p := Steps(look, b, src, n); var r := SegmentScan(look, p.st, src[n..]);
      var all := SegmentScan(look, b, src);
      all.scan.out == p.out + r.scan.out && all.scan.closed == r.scan.closed && all.quote == (p.quote || r.quote)
    decreases n
  {
    hide ModeStep, Balanced;
    if n == 0 {
      assert src[0..] == src;
      assert "" + SegmentScan(look, b, src).scan.out == SegmentScan(look, b, src).scan.out;
    } else {
      var m := ModeStep(look, true, b, src[0], src[1..]);
      ScanInParts(look, m.st, src[1..], n - 1);
      assert src[1..][n - 1..] == src[n..];
      var p := Steps(look, m.st, src[1..], n - 1);
      var r := SegmentScan(look, p.st, src[n..]);
      assert (m.out + p.out) + r.scan.out == m.out + (p.out + r.scan.out);
    }
  }

  // ------------------------------------------------- no quote escaped in the head

  /** The scan gets from `t` to its tail `u` without stopping and without escaping a quote. */
  predicate Walks(b: Core, t: string, c: Core, u: string) {
    && IsTail(u, t)
    && var p := Steps(true, b, t, |t| - |u|); p.st == c && !p.quote && !p.stopped
  }

  lemma WalkOn(b: Core, t: string, c: Core, u: string, e: Core, v: string)
    requires Walks(b, t, c, u) && Walks(c, u, e, v)
    ensures Walks(b, t, e, v)
  {
    TailOfTail(v, u, t);
    StepsConcat(true, b, t, |t| - |u|, |u| - |v|);
  }

  lemma WalkByte(b: Core, c: char, u: string)
    requires !b.esc && (if b.inStr then c != '"' && c != '\\' else c != '}')
    ensures Walks(b, [c] + u, if b.inStr then b else Outside(b, c), u)
  {
    var t := [c] + u;
    assert t[1..] == u;
    var m := ModeStep(true, true, b, t[0], t[1..]);
    assert Steps(true, m.st, u, 0) == Part(m.st, "", false, false);
    hide ModeStep;
    assert Steps(true, b, t, 1).st == m.st;
  }

  lemma WalkNothing(b: Core, u: string)
    ensures Walks(b, u, b, u)
  {}

  lemma WsOutside(b: Core, c: char)
    requires Json.IsWs(c)
    ensures Outside(b, c) == b
  {}

  lemma {:induction false} WalkWs(b: Core, w: string, u: string)
    requires Json.AllWs(w) && !b.esc && !b.inStr
    ensures Walks(b, w + u, b, u)
  {
    hide Walks, Outside;
    WalkNothing(b, u);
    if w == "" {
      assert w + u == u;
    } else {
      assert w + u == [w[0]] + (w[1..] + u);
      WalkByte(b, w[0], w[1..] + u);
      WsOutside(b, w[0]);
      WalkWs(b, w[1..], u);
      WalkOn(b, w + u, b, w[1..] + u, b, u);
    }
  }

  /** White space, then one byte outside strings. */
  lemma WalkTo(b: Core, w: string, c: char, u: string)
    requires Json.AllWs(w) && !b.esc && !b.inStr && c != '}'
    ensures Walks(b, w + ([c] + u), Outside(b, c), u)
  {
    hide Walks, Outside;
    WalkWs(b, w, [c] + u);
    WalkByte(b, c, u);
    WalkOn(b, w + ([c] + u), b, [c] + u, Outside(b, c), u);
  }

  lemma {:induction false} WalkInside(b: Core, n: string, u: string)
    requires b.inStr && !b.esc && '"' !in n && '\\' !in n
    ensures Walks(b, n + u, b, u)
  {
    hide Walks, Outside;
    WalkNothing(b, u);
    if n == "" {
      assert n + u == u;
    } else {
      assert n + u == [n[0]] + (n[1..] + u);
      WalkByte(b, n[0], n[1..] + u);
      WalkInside(b, n[1..], u);
      WalkOn(b, n + u, b, n[1..] + u, b, u);
    }
  }

  lemma WalkQuote(b: Core, u: string)
    requires b.inStr && !b.esc && QuoteTerminates(u, b.isKey)
    ensures Walks(b, ['"'] + u, b.(inStr := false), u)
  {
    var t := ['"'] + u;
    assert t[1..] == u;
    var m := ModeStep(true, true, b, t[0], t[1..]);
    assert Steps(true, m.st, u, 0) == Part(m.st, "", false, false);
    hide ModeStep;
    assert Steps(true, b, t, 1).st == m.st;
  }

  /** A plain string whose closing quote is followed by what must follow it. */
  lemma WalkString(b: Core, w: string, n: string, after: string, c: char, u: string)
    requires Json.AllWs(w) && Json.AllWs(after) && !b.esc && !b.inStr && '"' !in n && '\\' !in n
    requires !Json.IsWs(c) && c != '}' && Ends(c, OpeningStringIsKey(b.ctx))
    ensures var e := b.(isKey := OpeningStringIsKey(b.ctx));
      Walks(b, w + (['"'] + (n + (['"'] + (after + ([c] + u))))), Outside(e, c), u)
  {
    var o := b.(isKey := OpeningStringIsKey(b.ctx), inStr := true);
    var e := o.(inStr := false);
    assert Outside(b, '"') == o;
    hide Walks, Outside;
    var t3 := after + ([c] + u);
    var t2 := ['"'] + t3;
    var t1 := n + t2;
    WalkTo(b, w, '"', t1);
    WalkInside(o, n, t2);
    QuoteAfterWs(after, c, u, o.isKey);
    WalkQuote(o, t3);
    WalkTo(e, after, c, u);
    WalkOn(b, w + (['"'] + t1), o, t1, o, t2);
    WalkOn(b, w + (['"'] + t1), o, t2, e, t3);
    WalkOn(b, w + (['"'] + t1), e, t3, Outside(e, c), u);
  }

  // The scan in the call object: before each key, before the name, before the arguments.
  const BEFORE_KEY := Core(1, false, false, false, [Frame('{', true)])
  const BEFORE_NAME := Core(1, false, false, true, [Frame('{', false)])
  const INSIDE := BEFORE_NAME

  lemma HeadStates()
    ensures Outside(START, '{') == BEFORE_KEY
    ensures OpeningStringIsKey(BEFORE_KEY.ctx) && !OpeningStringIsKey(BEFORE_NAME.ctx)
    ensures Outside(BEFORE_KEY.(isKey := true), ':') == BEFORE_NAME
    ensures Outside(BEFORE_NAME.(isKey := false), ',') == BEFORE_KEY
    ensures Ends(':', true) && Ends(',', false)
  {}

  lemma PlainKeys()
    ensures '"' !in "name" && '\\' !in "name" && '"' !in "arguments" && '\\' !in "arguments"
  {}

  lemma WalkHead(h: Head, args: string)
    requires Proper(h) && h.quoted
    ensures Walks(START, Body(h, args), INSIDE, args)
  {
    HeadStates();
    hide Walks, Outside, OpeningStringIsKey, Ends, Body, Json.AllWs;
    var t4 := h.w7 + args;
    var t3 := h.w5 + (['"'] + ("arguments" + (['"'] + (h.w6 + ([':'] + t4)))));
    var t2 := h.w3 + (['"'] + (h.name + (['"'] + (h.w4 + ([','] + t3)))));
    var t1 := h.w1 + (['"'] + ("name" + (['"'] + (h.w2 + ([':'] + t2)))));
    BodySpelled(h, args, t1, t2, t3, t4);
    PlainKeys();
    var t := Body(h, args);
    WalkTo(START, h.w0, '{', t1);
    WalkString(BEFORE_KEY, h.w1, "name", h.w2, ':', t2);
    WalkOn(START, t, BEFORE_KEY, t1, BEFORE_NAME, t2);
    WalkString(BEFORE_NAME, h.w3, h.name, h.w4, ',', t3);
    WalkOn(START, t, BEFORE_NAME, t2, BEFORE_KEY, t3);
    WalkString(BEFORE_KEY, h.w5, "arguments", h.w6, ':', t4);
    WalkOn(START, t, BEFORE_KEY, t3, INSIDE, t4);
    WalkWs(INSIDE, h.w7, args);
    WalkOn(START, t, INSIDE, t4, INSIDE, args);
  }

  lemma BodySpelled(h: Head, args: string, t1: string, t2: string, t3: string, t4: string)
    requires h.quoted && t4 == h.w7 + args
    requires t3 == h.w5 + (['"'] + ("arguments" + (['"'] + (h.w6 + ([':'] + t4)))))
    requires t2 == h.w3 + (['"'] + (h.name + (['"'] + (h.w4 + ([','] + t3)))))
    requires t1 == h.w1 + (['"'] + ("name" + (['"'] + (h.w2 + ([':'] + t2)))))
    ensures Body(h, args) == h.w0 + (['{'] + t1)
  {
    assert KEY == "arguments" + ['"'];
    assert KeyText(h, args) == ['"'] + ("arguments" + (['"'] + (h.w6 + ([':'] + t4))));
    assert NameText(h, args) == h.name + (['"'] + (h.w4 + ([','] + t3)));
    assert "\"name\"" == ['"'] + ("name" + ['"']);
    assert "\"name\"" + (h.w2 + ([':'] + t2)) == ['"'] + ("name" + (['"'] + (h.w2 + ([':'] + t2))));
  }

  // ------------------------------------- the arguments, inside the call and alone

  /** The brace that ends the arguments leaves the call open. */
  predicate ClosesArgs(st: Core, c: char) {
    !st.inStr && st.depth == 1 && c == '}'
  }

  /** The scan of the arguments inside their call. */
  function ArgsScan(look: bool, s: Core, src: string): Segment
    decreases |src|
  {
    if src == "" then Segment(Scanned(false, "", 0), false, false)
    else
      var m := ModeStep(look, true, s, src[0], src[1..]);
      if ClosesArgs(m.st, src[0]) then Segment(Scanned(true, m.out, 1), m.control, m.quote)
      else
        var r := ArgsScan(look, m.st, src[1..]);
        Segment(Scanned(r.scan.closed, m.out + r.scan.out, r.scan.used + 1), m.control || r.control, m.quote || r.quote)
  }

  const CALL := [Frame('{', false)]

  function Braces(ctx: Context): nat {
    if ctx == [] then 0
    else Braces(ctx[..|ctx| - 1]) + if ctx[|ctx| - 1].kind == '{' then 1 else 0
  }

  /** The same place in the arguments, alone and inside the call. */
  predicate Shifted(b: Core, s: Core) {
    && s.depth == b.depth + 1 && s.inStr == b.inStr && s.esc == b.esc && (b.inStr ==> s.isKey == b.isKey)
    && s.ctx == CALL + b.ctx && Braces(b.ctx) >= b.depth >= 1
  }

  lemma StructuralShift(ctx: Context, c: char)
    requires ctx != []
    ensures Structural(CALL + ctx, c) == CALL + Structural(ctx, c)
    ensures OpeningStringIsKey(CALL + ctx) == OpeningStringIsKey(ctx)
  {
    var whole := CALL + ctx;
    assert whole[..|whole| - 1] == CALL + ctx[..|ctx| - 1] && whole[|whole| - 1] == ctx[|ctx| - 1];
    FrameShift(ctx, Frame('{', true));
    FrameShift(ctx, Frame('{', false));
    FrameShift(ctx, Frame('[', false));
  }

  lemma StructuralBraces(ctx: Context, c: char)
    requires ctx != []
    ensures Braces(Structural(ctx, c)) >= Braces(ctx) + (if c == '{' then 1 else if c == '}' then -1 else 0)
  {
    var front, last := ctx[..|ctx| - 1], ctx[|ctx| - 1];
    assert Braces(ctx) == Braces(front) + if last.kind == '{' then 1 else 0;
    FrameShift(ctx, Frame('{', true));
    FrameShift(ctx, Frame('{', false));
    FrameShift(ctx, Frame('[', false));
    hide Structural;
    StructuralCases(ctx, c);
  }

  lemma StructuralCases(ctx: Context, c: char)
    requires ctx != []
    ensures var r, k := Structural(ctx, c), |ctx| - 1;
      if c == '{' then r == ctx + [Frame('{', true)]
      else if c == '}' then r == ctx || r == ctx[..k]
      else if c == ']' then r == ctx || (ctx[k].kind == '[' && r == ctx[..k])
      else
        || r == ctx || r == ctx + [Frame('[', false)]
        || (ctx[k].kind == '{' && (r == ctx[k := Frame('{', true)] || r == ctx[k := Frame('{', false)]))
  {}

  lemma FrameShift(ctx: Context, f: Frame)
    requires ctx != []
    ensures (CALL + ctx) + [f] == CALL + (ctx + [f]) && (ctx + [f])[..|ctx|] == ctx
    ensures (CALL + ctx)[|ctx| := f] == CALL + ctx[|ctx| - 1 := f]
    ensures ctx[|ctx| - 1 := f][..|ctx| - 1] == ctx[..|ctx| - 1]
  {}

  lemma NonEmptyWithBraces(ctx: Context)
    requires Braces(ctx) >= 1
    ensures ctx != []
  {}

  lemma ShiftedMode(b: Core, s: Core)
    requires Shifted(b, s)
    ensures s.inStr == b.inStr && s.esc == b.esc
  {}

  lemma OutsideShift(b: Core, s: Core, c: char)
    requires Shifted(b, s) && !b.inStr
    ensures var m, n := Outside(b, c), Outside(s, c);
      ClosesArgs(n, c) == Balanced(m, c) && (!Balanced(m, c) ==> Shifted(m, n))
  {
    NonEmptyWithBraces(b.ctx);
    StructuralShift(b.ctx, c);
    StructuralBraces(b.ctx, c);
    hide Structural, Braces, OpeningStringIsKey;
  }

  lemma StepShift(look: bool, b: Core, s: Core, c: char, rest: string)
    requires Shifted(b, s)
    ensures var m, n := ModeStep(look, true, b, c, rest), ModeStep(look, true, s, c, rest);
      && n.out == m.out && n.quote == m.quote && n.control == m.control
      && ClosesArgs(n.st, c) == Balanced(m.st, c)
      && (!Balanced(m.st, c) ==> Shifted(m.st, n.st))
  {
    if b.esc || b.inStr {
      hide Braces, Outside, QuoteTerminates, EscapeControl;
    } else {
      OutsideShift(b, s, c);
      hide Shifted, ClosesArgs, Balanced, Outside;
      ShiftedMode(b, s);
    }
  }

  lemma {:induction false} ScanShift(look: bool, b: Core, s: Core, src: string)
    requires Shifted(b, s)
    ensures ArgsScan(look, s, src) == SegmentScan(look, b, src)
    decreases |src|
  {
    if src != "" {
      StepShift(look, b, s, src[0], src[1..]);
      hide ModeStep, Balanced, ClosesArgs, Shifted;
      var m, n := ModeStep(look, true, b, src[0], src[1..]), ModeStep(look, true, s, src[0], src[1..]);
      if !Balanced(m.st, src[0]) { ScanShift(look, m.st, n.st, src[1..]); }
    }
  }

  // Behind the opening brace of the arguments, alone and inside the call.
  const ALONE := Core(1, false, false, false, [Frame('{', true)])
  const WITHIN := Core(2, false, false, true, CALL + [Frame('{', true)])

  lemma OpeningBrace(look: bool, rest: string)
    ensures ModeStep(look, true, START, '{', rest) == Marked(ALONE, "{", false, false)
    ensures ModeStep(look, true, INSIDE, '{', rest) == Marked(WITHIN, "{", false, false)
  {
    BraceStep(look, START, rest);
    BraceStep(look, INSIDE, rest);
    hide ModeStep;
    assert START.ctx + [Frame('{', true)] == [Frame('{', true)];
  }

  lemma BraceStep(look: bool, b: Core, rest: string)
    requires !b.inStr && !b.esc
    ensures ModeStep(look, true, b, '{', rest) ==
      Marked(b.(ctx := b.ctx + [Frame('{', true)], depth := b.depth + 1), "{", false, false)
  {}

  lemma BothOpen()
    ensures Shifted(ALONE, WITHIN)
    ensures !Balanced(ALONE, '{') && !Balanced(WITHIN, '{') && !ClosesArgs(WITHIN, '{')
  {
    assert ALONE.ctx[..0] == [] && Braces(ALONE.ctx) == Braces([]) + 1;
  }

  lemma ArgsAlone(look: bool, args: string)
    requires OpensArgs(args)
    ensures ArgsScan(look, INSIDE, args) == SegmentScan(look, START, args)
  {
    OpeningBrace(look, args[1..]);
    BothOpen();
    hide ModeStep, Balanced, ClosesArgs, Shifted;
    ScanShift(look, ALONE, WITHIN, args[1..]);
  }

  lemma SamePrefix(m: string, a: string, b: string)
    requires a <= b
    ensures m + a <= m + b
  {}

  /** The arguments' part of a scan that goes on behind them. */
  ghost predicate PartOf(a: Segment, all: Segment, src: string) {
    && a.scan.out <= all.scan.out && (a.quote ==> all.quote)
    && (!a.scan.closed || a.scan.used == |src| ==> !all.scan.closed)
  }

  lemma DepthStep(look: bool, s: Core, c: char, rest: string)
    requires s.depth >= 2
    ensures var m := ModeStep(look, true, s, c, rest);
      !Balanced(m.st, c) && (!ClosesArgs(m.st, c) ==> m.st.depth >= 2)
  {}

  lemma {:induction false} ArgsWithin(look: bool, s: Core, src: string)
    requires s.depth >= 2
    ensures PartOf(ArgsScan(look, s, src), SegmentScan(look, s, src), src)
    decreases |src|
  {
    if src != "" {
      DepthStep(look, s, src[0], src[1..]);
      hide ModeStep, Balanced, ClosesArgs;
      var m := ModeStep(look, true, s, src[0], src[1..]);
      if !ClosesArgs(m.st, src[0]) {
        ArgsWithin(look, m.st, src[1..]);
        SamePrefix(m.out, ArgsScan(look, m.st, src[1..]).scan.out, SegmentScan(look, m.st, src[1..]).scan.out);
      }
    }
  }

  lemma ArgsInside(look: bool, args: string)
    requires OpensArgs(args)
    ensures PartOf(ArgsScan(look, INSIDE, args), SegmentScan(look, INSIDE, args), args)
  {
    OpeningBrace(look, args[1..]);
    BothOpen();
    hide ModeStep, Balanced, ClosesArgs, Shifted;
    ArgsWithin(look, WITHIN, args[1..]);
    SamePrefix("{", ArgsScan(look, WITHIN, args[1..]).scan.out, SegmentScan(look, WITHIN, args[1..]).scan.out);
  }

  // --------------------------------------------------------- the whole recovery

  /** Does the scan that counts look ahead?  The second one does not. */
  predicate Looks(text: string) {
    var first := SegmentScan(true, START, text);
    first.scan.closed || !first.quote
  }

  /** The state in which the scan that counts reaches the arguments, and what it has
      written by then. */
  function HeadScan(text: string): Part
    requires MatchHead(text).Matched?
  {
    HeadFits(text, "");
    Steps(Looks(text), START, text, |text| - |MatchHead(text).args|)
  }

  /** What the recovery of a call writes for the arguments. */
  function RecoveredArgs(text: string): string
    requires MatchHead(text).Matched?
  {
    ArgsScan(Looks(text), HeadScan(text).st, MatchHead(text).args).scan.out
  }

  /** The scan of a call whose key is quoted: in front of the arguments it is in the call
      object and has escaped no quote, whether it looks ahead or not. */
  lemma HeadScanned(h: Head, args: string, look: bool)
    requires Proper(h) && h.quoted && OpensArgs(args)
    ensures IsTail(args, Body(h, args))
    ensures var t := Body(h, args); var p := Steps(look, START, t, |t| - |args|);
      var all, r := SegmentScan(look, START, t), SegmentScan(look, INSIDE, args);
      && p.st == INSIDE && !p.stopped
      && all.scan.out == p.out + r.scan.out && all.scan.closed == r.scan.closed && all.quote == r.quote
  {
    hide Steps, Body;
    WalkHead(h, args);
    var t := Body(h, args);
    var n := |t| - |args|;
    if !look { LookMakesNoDifference(START, t, n); }
    ScanInParts(look, START, t, n);
  }

  /** What it writes stands in the recovered text, behind the head. */
  lemma RecoveredHasArgs(h: Head, args: string)
    requires Proper(h) && h.quoted && OpensArgs(args)
    ensures var t := Body(h, args);
      && MatchHead(t) == Matched(h.name, args)
      && HeadScan(t).out + RecoveredArgs(t) <= Recovered(t).scan.out
      && RecoveredArgs(t) == SegmentScan(Looks(t), START, args).scan.out
  {
    hide Steps, SegmentScan, ArgsScan, Body, MatchHead;
    var t := Body(h, args);
    BodyMatches(h, args);
    HeadScanned(h, args, Looks(t));
    ArgsAlone(Looks(t), args);
    ArgsInside(Looks(t), args);
    assert Recovered(t) == SegmentScan(Looks(t), START, t);
    SamePrefix(HeadScan(t).out, RecoveredArgs(t), SegmentScan(Looks(t), INSIDE, args).scan.out);
  }

  /** For every call body whose head matches and whose arguments hold no content tag: the
      recovery, which scans the call from its own brace with the key quoted, writes the
      arguments as the stream has sent them exactly when the call closes or no quote in the
      arguments was escaped. */
  lemma StreamIsRecoveredExactly(body: string) returns (h: Head)
    requires MatchHead(body).Matched? && TagFree(MatchHead(body).args)
    ensures Proper(h) && body == Body(h, MatchHead(body).args)
    ensures var args := MatchHead(body).args;
      var text := Body(h.(quoted := true), args);
      && MatchHead(text) == MatchHead(body)
      && (RecoveredArgs(text) == Streamed(args) <==>
            SegmentScan(true, START, text).scan.closed || !SegmentScan(true, START, args).quote)
  {
    hide SegmentScan, StreamRun, TagFree, MatchHead, Body, ArgsScan;
    h := MatchedGives(body);
    var args, q := MatchHead(body).args, h.(quoted := true);
    var text := Body(q, args);
    RecoveredHasArgs(q, args);
    HeadScanned(q, args, true);
    ArgsAlone(true, args);
    ArgsInside(true, args);
    StreamIsFirstScan(args);
    if SegmentScan(true, START, args).quote { ScansDiffer(START, args); } else { ScansAlike(START, args); }
  }

  // -------------------------------------------------- closed arguments, open call

  lemma NoAngleNoTag(w: string)
    requires '<' !in w
    ensures TagFree(w)
  {
    assert TAG_OPEN[0] == '<' && TAG_CLOSE[0] == '<';
    forall i { NotAt(w, TAG_OPEN, i); }
    forall i { NotAt(w, TAG_CLOSE, i); }
  }

  lemma NotAt(w: string, t: string, i: int)
    requires '<' !in w && t != "" && t[0] == '<'
    ensures !OccursAt(w, t, i)
  {
    if 0 <= i <= |w| - |t| { assert w[i..i + |t|][0] == w[i]; }
  }

  /** One byte of a scan over a spelled-out text. */
  lemma ScanByte(look: bool, b: Core, c: char, rest: string, m: Marked)
    requires ModeStep(look, true, b, c, rest) == m && !Balanced(m.st, c)
    ensures var r := SegmentScan(look, m.st, rest);
      SegmentScan(look, b, [c] + rest) ==
        Segment(Scanned(r.scan.closed, m.out + r.scan.out, r.scan.used + 1), m.control || r.control, m.quote || r.quote)
  {
    assert ([c] + rest)[1..] == rest;
    hide ModeStep, Balanced;
  }

  /** `"a":"b` at the front of an object, up to the quote that does not end its string. */
  lemma FrontScanned(look: bool, rest: string)
    ensures var b := ALONE.(ctx := CALL, inStr := true); var r := SegmentScan(look, b, rest);
      SegmentScan(look, START, "{\"a\":\"b" + rest) ==
        Segment(Scanned(r.scan.closed, "{\"a\":\"b" + r.scan.out, r.scan.used + 7), r.control, r.quote)
  {
    var key, value := ALONE.(isKey := true, inStr := true), ALONE.(ctx := CALL, inStr := true);
    var t6 := ['b'] + rest;
    var t5 := ['"'] + t6;
    var t4 := [':'] + t5;
    var t3 := ['"'] + t4;
    var t2 := ['a'] + t3;
    var t1 := ['"'] + t2;
    hide ModeStep, SegmentScan, Balanced;
    FrontSpelled(rest);
    OpeningBrace(look, t1);
    FrontSteps(look, t2, t3, t4, t5, t6, rest);
    NoneBalanced();
    ScanByte(look, START, '{', t1, Marked(ALONE, "{", false, false));
    ScanByte(look, ALONE, '"', t2, Marked(key, ['"'], false, false));
    ScanByte(look, key, 'a', t3, Marked(key, ['a'], false, false));
    ScanByte(look, key, '"', t4, Marked(key.(inStr := false), ['"'], false, false));
    ScanByte(look, key.(inStr := false), ':', t5, Marked(value.(isKey := true, inStr := false), [':'], false, false));
    ScanByte(look, value.(isKey := true, inStr := false), '"', t6, Marked(value, ['"'], false, false));
    ScanByte(look, value, 'b', rest, Marked(value, ['b'], false, false));
    FrontSpelled(SegmentScan(look, value, rest).scan.out);
  }

  lemma NoneBalanced()
    ensures forall b, c :: c != '}' ==> !Balanced(b, c)
  {}

  lemma FrontSpelled(rest: string)
    ensures "{\"a\":\"b" + rest == ['{'] + (['"'] + (['a'] + (['"'] + ([':'] + (['"'] + (['b'] + rest))))))
    ensures "{" == ['{']
  {}

  lemma FrontSteps(look: bool, t2: string, t3: string, t4: string, t5: string, t6: string, rest: string)
    requires t4 == [':'] + t5
    ensures var key, value := ALONE.(isKey := true, inStr := true), ALONE.(ctx := CALL, inStr := true);
      && ModeStep(look, true, ALONE, '"', t2) == Marked(key, ['"'], false, false)
      && ModeStep(look, true, key, 'a', t3) == Marked(key, ['a'], false, false)
      && ModeStep(look, true, key, '"', t4) == Marked(key.(inStr := false), ['"'], false, false)
      && ModeStep(look, true, key.(inStr := false), ':', t5) == Marked(value.(isKey := true, inStr := false), [':'], false, false)
      && ModeStep(look, true, value.(isKey := true, inStr := false), '"', t6) == Marked(value, ['"'], false, false)
      && ModeStep(look, true, value, 'b', rest) == Marked(value, ['b'], false, false)
  {}

  /** Behind that quote the scans part: one escapes it and closes the object, the other
      ends the string there and never leaves the next one. */
  lemma BackScanned()
    ensures var b := ALONE.(ctx := CALL, inStr := true); var t := "\"c\"}";
      && SegmentScan(true, b, t) == Segment(Scanned(true, "\\\"c\"}", 4), false, true)
      && SegmentScan(false, b, t) == Segment(Scanned(false, t, 4), false, false)
  {
    var b := ALONE.(ctx := CALL, inStr := true);
    var o := b.(inStr := false);
    var t3: string := ['}'];
    var t2 := ['"'] + t3;
    var t1 := ['c'] + t2;
    assert "\"c\"}" == ['"'] + t1 && t3 == ['}'] + "";
    BackSteps(t1, t2, t3);
    ScanByte(true, b, '"', t1, Marked(b, "\\\"", false, true));
    ScanByte(true, b, 'c', t2, Marked(b, ['c'], false, false));
    ScanByte(true, b, '"', t3, Marked(o, ['"'], false, false));
    assert t3[1..] == "" && t3[0] == '}';
    SegmentUnfolds(true, o, t3);
    assert "\\\"" + (['c'] + (['"'] + ['}'])) == "\\\"c\"}";
    ScanByte(false, b, '"', t1, Marked(o, ['"'], false, false));
    ScanByte(false, o, 'c', t2, Marked(o, ['c'], false, false));
    ScanByte(false, o, '"', t3, Marked(b, ['"'], false, false));
    ScanByte(false, b, '}', "", Marked(b, ['}'], false, false));
    SegmentUnfolds(false, b, "");
    assert ['"'] + (['c'] + (['"'] + (['}'] + ""))) == "\"c\"}";
  }

  lemma BackSteps(t1: string, t2: string, t3: string)
    requires t3 == ['}'] && t2 == ['"'] + t3 && t1 == ['c'] + t2
    ensures var b := ALONE.(ctx := CALL, inStr := true); var o := b.(inStr := false);
      && ModeStep(true, true, b, '"', t1) == Marked(b, "\\\"", false, true)
      && ModeStep(true, true, b, 'c', t2) == Marked(b, ['c'], false, false)
      && ModeStep(true, true, b, '"', t3) == Marked(o, ['"'], false, false)
      && ModeStep(false, true, b, '"', t1) == Marked(o, ['"'], false, false)
      && ModeStep(false, true, o, 'c', t2) == Marked(o, ['c'], false, false)
      && ModeStep(false, true, o, '"', t3) == Marked(b, ['"'], false, false)
      && ModeStep(false, true, b, '}', "") == Marked(b, ['}'], false, false)
      && ModeStep(true, true, o, '}', "") == Marked(o.(depth := 0, ctx := []), ['}'], false, false)
  {
    assert CALL[..0] == [];
  }

  const OPEN_HEAD := Head("", "", "", "", "x", "", "", true, "", "")

  /** The arguments of this call have closed, the call has not: the stream has escaped the
      inner quote, and the recovery takes it back. */
  lemma OpenCallParts()
    ensures var args := "{\"a\":\"b\"c\"}"; var body := "{\"name\":\"x\",\"arguments\":" + args;
      && MatchHead(body) == Matched("x", args)
      && Streamed(args) == "{\"a\":\"b\\\"c\"}" && RecoveredArgs(body) == args
  {
    hide SegmentScan, Body, Steps, ArgsScan, Streamed, TagFree, MatchHead;
    var args := "{\"a\":\"b\"c\"}";
    var t := Body(OPEN_HEAD, args);
    ArgsSpelled();
    FrontScanned(true, "\"c\"}");
    FrontScanned(false, "\"c\"}");
    BackScanned();
    NoAngleNoTag(args);
    StreamIsFirstScan(args);
    RecoveredHasArgs(OPEN_HEAD, args);
    HeadScanned(OPEN_HEAD, args, true);
    ArgsAlone(true, args);
    ArgsInside(true, args);
    OpenBodySpelled(args);
  }

  lemma ArgsSpelled()
    ensures "{\"a\":\"b\"c\"}" == "{\"a\":\"b" + "\"c\"}"
    ensures "{\"a\":\"b" + "\\\"c\"}" == "{\"a\":\"b\\\"c\"}"
  {}

  lemma OpenBodySpelled(args: string)
    ensures Body(OPEN_HEAD, args) == "{\"name\":\"x\",\"arguments\":" + args
  {
    OpenNameSpelled(args);
    hide NameText;
    var n := NameText(OPEN_HEAD, args);
    assert Body(OPEN_HEAD, args) == "{\"name\":\"" + n;
    hide Body;
    assert "{\"name\":\"" + "x\",\"arguments\":" == "{\"name\":\"x\",\"arguments\":";
    assert "{\"name\":\"" + ("x\",\"arguments\":" + args) == ("{\"name\":\"" + "x\",\"arguments\":") + args;
  }

  lemma OpenNameSpelled(args: string)
    ensures NameText(OPEN_HEAD, args) == "x\",\"arguments\":" + args
  {
    OpenKeySpelled(args);
    hide KeyText;
  }

  lemma OpenKeySpelled(args: string)
    ensures KeyText(OPEN_HEAD, args) == "\"arguments\":" + args
  {}
}
