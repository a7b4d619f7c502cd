/** The head of a streamed tool call: when the bytes so far say that arguments follow. */
module CallHead {
  import opened Json
  import opened GrammarLanguage

  // --------------------------------------------------- what the head looks like

  function SkipWs(t: string): string {
    if t != "" && IsWs(t[0]) then SkipWs(t[1..]) else t
  }

  datatype Look = More | No | Past(rest: string)

  /** The bytes of `s` at the front of `t`. */
  function Lit(t: string, s: string): Look {
    if s == "" then Past(t)
    else if t == "" then More
    else if t[0] != s[0] then No
    else Lit(t[1..], s[1..])
  }

  /** The same behind white space. */
  function Word(t: string, s: string): Look {
    var u := SkipWs(t);
    if u == "" then More else Lit(u, s)
  }

  datatype Named = NeedMore | NoName | Name(name: string, rest: string)

  /** A name up to its quote; one with a backslash is left to the buffered path. */
  function NameOf(t: string): Named {
    if t == "" then NeedMore
    else if t[0] == '\\' then NoName
    else if t[0] == '"' then Name("", t[1..])
    else
      match NameOf(t[1..])
      case Name(n, rest) => Name([t[0]] + n, rest)
      case other => other
  }

  /** `args` is the text from the opening brace of the arguments on. */
  datatype Verdict = Undecided | Refused | Matched(name: string, args: string)

  function MatchArgs(t: string, name: string): Verdict {
    var u := SkipWs(t);
    if u == "" then Undecided else if u[0] != '{' then Refused else Matched(name, u)
  }

  function AfterKey(t: string, name: string): Verdict {
    match Word(t, ":")
    case More => Undecided
    case No => Refused
    case Past(v) => MatchArgs(v, name)
  }

  const KEY := "arguments\""

  function Unquoted(u: string): string
    requires u != ""
  {
    if u[0] == '"' then u[1..] else u
  }

  /** The opening quote of the key may be missing. */
  function KeyPast(t: string): Look {
    var u := SkipWs(t);
    if u == "" then More else Lit(Unquoted(u), KEY)
  }

  function MatchKey(t: string, name: string): Verdict {
    match KeyPast(t)
    case More => Undecided
    case No => Refused
    case Past(r) => AfterKey(r, name)
  }

  function AfterName(t: string, name: string): Verdict {
    match Word(t, ",")
    case More => Undecided
    case No => Refused
    case Past(r) => MatchKey(r, name)
  }

  function MatchName(t: string): Verdict {
    match NameOf(t)
    case NeedMore => Undecided
    case NoName => Refused
    case Name(n, rest) => if n == "" then Refused else AfterName(rest, n)
  }

  function Words(t: string, ws: seq<string>): Look
    decreases |ws|
  {
    if ws == [] then Past(t)
    else
      match Word(t, ws[0])
      case Past(r) => Words(r, ws[1..])
      case other => other
  }

  const OPENERS := ["{", "\"name\"", ":", "\""]

  /** `match_head`. */
  function MatchHead(t: string): Verdict {
    match Words(t, OPENERS)
    case More => Undecided
    case No => Refused
    case Past(r) => MatchName(r)
  }

  // ------------------------------------------------- a decision is never revised

  predicate IsTail(r: string, t: string) {
    |r| <= |t| && t[|t| - |r|..] == r
  }

  lemma TailOfTail(a: string, b: string, c: string)
    requires IsTail(a, b) && IsTail(b, c)
    ensures IsTail(a, c)
  {
    assert c[|c| - |a|..] == c[|c| - |b|..][|b| - |a|..];
  }

  function Longer(l: Look, x: string): Look {
    match l case Past(r) => Past(r + x) case other => other
  }

  function LongerVerdict(v: Verdict, x: string): Verdict {
    match v case Matched(n, a) => Matched(n, a + x) case other => other
  }

  /** A look at `t` and one at `t` with `x` behind it: a decision stays, and one that
      `t` left open is not made inside `t`. */
  predicate LookFits(t: string, x: string, now: Look, later: Look) {
    && (now.Past? ==> IsTail(now.rest, t))
    && (!now.More? ==> later == Longer(now, x))
    && (now.More? && later.Past? ==> IsTail(later.rest, x))
  }

  predicate VerdictFits(t: string, x: string, now: Verdict, later: Verdict) {
    && (now.Matched? ==> IsTail(now.args, t) && now.args != "" && now.args[0] == '{')
    && (now != Undecided ==> later == LongerVerdict(now, x))
    && (now == Undecided && later.Matched? ==> IsTail(later.args, x))
  }

  lemma {:induction false} SkipFits(t: string, x: string)
    ensures IsTail(SkipWs(t), t)
    ensures SkipWs(t + x) == if SkipWs(t) != "" then SkipWs(t) + x else SkipWs(x)
  {
    if t == "" {
      assert t + x == x;
    } else {
      assert (t + x)[1..] == t[1..] + x;
      SkipFits(t[1..], x);
      if IsWs(t[0]) { TailOfTail(SkipWs(t[1..]), t[1..], t); }
    }
  }

  lemma {:induction false} LitFits(t: string, s: string, x: string)
    ensures LookFits(t, x, Lit(t, s), Lit(t + x, s))
  {
    if t == "" {
      assert t + x == x;
      LitTail(x, s);
    } else if s != "" {
      assert (t + x)[1..] == t[1..] + x;
      LitFits(t[1..], s[1..], x);
      if Lit(t[1..], s[1..]).Past? { TailOfTail(Lit(t[1..], s[1..]).rest, t[1..], t); }
    }
  }

  lemma {:induction false} LitTail(t: string, s: string)
    ensures Lit(t, s).Past? ==> IsTail(Lit(t, s).rest, t)
  {
    if s != "" && t != "" {
      LitTail(t[1..], s[1..]);
      if Lit(t[1..], s[1..]).Past? { TailOfTail(Lit(t[1..], s[1..]).rest, t[1..], t); }
    }
  }

  lemma WordFits(t: string, s: string, x: string)
    ensures LookFits(t, x, Word(t, s), Word(t + x, s))
  {
    hide Lit, IsTail, SkipWs;
    SkipFits(t, x);
    SkipFits(x, "");
    assert x + "" == x;
    var u := SkipWs(t);
    LitFits(u, s, x);
    LitTail(SkipWs(x), s);
    if Lit(u, s).Past? { TailOfTail(Lit(u, s).rest, u, t); }
    if u == "" && Lit(SkipWs(x), s).Past? { TailOfTail(Lit(SkipWs(x), s).rest, SkipWs(x), x); }
  }

  /** One stage after another. */
  lemma {:induction false} WordsFit(t: string, ws: seq<string>, x: string)
    ensures LookFits(t, x, Words(t, ws), Words(t + x, ws))
    decreases |ws|
  {
    hide Word;
    if ws == [] {
    } else {
      hide IsTail;
      WordFits(t, ws[0], x);
      var now, later := Word(t, ws[0]), Word(t + x, ws[0]);
      if now.Past? {
        WordsFit(now.rest, ws[1..], x);
        if Words(now.rest, ws[1..]).Past? { TailOfTail(Words(now.rest, ws[1..]).rest, now.rest, t); }
      } else if later.Past? {
        WordsFit(later.rest, ws[1..], "");
        if Words(later.rest, ws[1..]).Past? { TailOfTail(Words(later.rest, ws[1..]).rest, later.rest, x); }
      }
    }
  }

  predicate NameFits(t: string, x: string, now: Named, later: Named) {
    && (now.Name? ==> IsTail(now.rest, t))
    && (!now.NeedMore? ==> later == match now case Name(n, r) => Name(n, r + x) case other => other)
    && (now.NeedMore? && later.Name? ==> IsTail(later.rest, x))
  }

  lemma {:induction false} NameTail(t: string)
    ensures NameOf(t).Name? ==> IsTail(NameOf(t).rest, t)
  {
    if t != "" {
      NameTail(t[1..]);
      if NameOf(t[1..]).Name? { TailOfTail(NameOf(t[1..]).rest, t[1..], t); }
    }
  }

  lemma {:induction false} NameOfFits(t: string, x: string)
    ensures NameFits(t, x, NameOf(t), NameOf(t + x))
  {
    if t == "" {
      assert t + x == x;
      NameTail(x);
    } else {
      assert (t + x)[0] == t[0] && (t + x)[1..] == t[1..] + x;
      NameOfFits(t[1..], x);
      if NameOf(t[1..]).Name? { TailOfTail(NameOf(t[1..]).rest, t[1..], t); }
    }
  }

  lemma ArgsFit(t: string, name: string, x: string)
    ensures VerdictFits(t, x, MatchArgs(t, name), MatchArgs(t + x, name))
  {
    SkipFits(t, x);
    SkipFits(x, "");
    assert x + "" == x;
  }

  /** A look and what the verdict makes of its rest. */
  lemma Onwards(t: string, x: string, now: Look, later: Look, v: Verdict, w: Verdict)
    requires LookFits(t, x, now, later)
    requires now.Past? ==> VerdictFits(now.rest, x, v, w)
    requires now.More? && later.Past? ==> VerdictFits(later.rest, "", w, w)
    requires now.More? ==> v == Undecided
    requires now.No? ==> v == w == Refused
    requires !later.Past? ==> w == if later.More? then Undecided else Refused
    ensures VerdictFits(t, x, v, w)
  {
    hide IsTail;
    if now.Past? && v.Matched? { TailOfTail(v.args, now.rest, t); }
    if now.More? && later.Past? && w.Matched? { TailOfTail(w.args, later.rest, x); }
  }

  lemma ColonFits(t: string, name: string, x: string)
    ensures VerdictFits(t, x, AfterKey(t, name), AfterKey(t + x, name))
  {
    hide Word, MatchArgs, VerdictFits;
    WordFits(t, ":", x);
    var now, later := Word(t, ":"), Word(t + x, ":");
    if now.Past? { ArgsFit(now.rest, name, x); }
    if later.Past? { ArgsFit(later.rest, name, ""); assert later.rest + "" == later.rest; }
    Onwards(t, x, now, later, AfterKey(t, name), AfterKey(t + x, name));
  }

  lemma KeyFits(t: string, name: string, x: string)
    ensures VerdictFits(t, x, MatchKey(t, name), MatchKey(t + x, name))
  {
    hide Word, AfterKey, VerdictFits, Lit, SkipWs;
    KeyLook(t, x);
    var now, later := KeyPast(t), KeyPast(t + x);
    if now.Past? { ColonFits(now.rest, name, x); }
    if later.Past? { ColonFits(later.rest, name, ""); assert later.rest + "" == later.rest; }
    Onwards(t, x, now, later, MatchKey(t, name), MatchKey(t + x, name));
  }

  lemma Unquote(u: string, x: string)
    requires u != ""
    ensures Unquoted(u + x) == Unquoted(u) + x && IsTail(Unquoted(u), u)
  {}

  lemma KeyLook(t: string, x: string)
    ensures LookFits(t, x, KeyPast(t), KeyPast(t + x))
  {
    hide Lit, SkipWs, Unquoted, IsTail;
    SkipFits(t, x);
    SkipFits(x, "");
    assert x + "" == x;
    var u := SkipWs(t);
    if u != "" {
      Unquote(u, x);
      LitFits(Unquoted(u), KEY, x);
      if Lit(Unquoted(u), KEY).Past? {
        TailOfTail(Lit(Unquoted(u), KEY).rest, Unquoted(u), u);
        TailOfTail(Lit(Unquoted(u), KEY).rest, u, t);
      }
    } else if SkipWs(x) != "" {
      var y := SkipWs(x);
      Unquote(y, "");
      LitTail(Unquoted(y), KEY);
      if Lit(Unquoted(y), KEY).Past? {
        TailOfTail(Lit(Unquoted(y), KEY).rest, Unquoted(y), y);
        TailOfTail(Lit(Unquoted(y), KEY).rest, y, x);
      }
    }
  }

  lemma CommaFits(t: string, name: string, x: string)
    ensures VerdictFits(t, x, AfterName(t, name), AfterName(t + x, name))
  {
    hide Word, MatchKey, VerdictFits;
    WordFits(t, ",", x);
    var now, later := Word(t, ","), Word(t + x, ",");
    if now.Past? { KeyFits(now.rest, name, x); }
    if later.Past? { KeyFits(later.rest, name, ""); assert later.rest + "" == later.rest; }
    Onwards(t, x, now, later, AfterName(t, name), AfterName(t + x, name));
  }

  lemma NamePartFits(t: string, x: string)
    ensures VerdictFits(t, x, MatchName(t), MatchName(t + x))
  {
    hide NameOf, AfterName, IsTail;
    NameOfFits(t, x);
    var now, later := NameOf(t), NameOf(t + x);
    if now.Name? {
      CommaFits(now.rest, now.name, x);
      if MatchName(t).Matched? { TailOfTail(MatchName(t).args, now.rest, t); }
    } else if later.Name? {
      CommaFits(later.rest, later.name, "");
      assert later.rest + "" == later.rest;
      if MatchName(t + x).Matched? && now.NeedMore? { TailOfTail(MatchName(t + x).args, later.rest, x); }
    }
  }

  /** Once the head is decided more bytes change nothing, and what a part of the text
      leaves open is decided by the bytes behind that part. */
  lemma HeadFits(t: string, x: string)
    ensures VerdictFits(t, x, MatchHead(t), MatchHead(t + x))
  {
    hide Words, MatchName, VerdictFits;
    WordsFit(t, OPENERS, x);
    var now, later := Words(t, OPENERS), Words(t + x, OPENERS);
    if now.Past? { NamePartFits(now.rest, x); }
    if later.Past? { NamePartFits(later.rest, ""); assert later.rest + "" == later.rest; }
    Onwards(t, x, now, later, MatchHead(t), MatchHead(t + x));
  }

  /** Where the arguments begin. */
  function ArgsAt(t: string): (k: int)
    requires MatchHead(t).Matched?
  {
    |t| - |MatchHead(t).args|
  }

  /** A head is decided by the opening brace of the arguments and by no byte before it. */
  lemma DecidedAtBrace(t: string, j: nat)
    requires MatchHead(t).Matched? && j <= |t|
    ensures var k := ArgsAt(t);
      && 0 <= k < |t| && t[k] == '{' && MatchHead(t).args == t[k..]
      && MatchHead(t[..j]) == if j <= k then Undecided else Matched(MatchHead(t).name, t[k..j])
  {
    hide MatchHead;
    var p, x := t[..j], t[j..];
    HeadFits(t, "");
    HeadFits(p, x);
    assert p + x == t;
    var k := ArgsAt(t);
    if MatchHead(p).Matched? {
      var a := MatchHead(p).args;
      assert MatchHead(t).args == a + x;
      assert j > k && a == t[k..][..|a|] == t[k..j];
    } else {
      assert MatchHead(p) == Undecided;
    }
  }

  // -------------------------------------------------------------- the matcher

  method Skip(b: string, i: nat) returns (k: nat, more: bool)
    requires i <= |b|
    ensures i <= k <= |b| && b[k..] == SkipWs(b[i..]) && more == (k < |b|)
  {
    k := i;
    while k < |b| && IsWs(b[k])
      invariant i <= k <= |b| && SkipWs(b[k..]) == SkipWs(b[i..])
    {
      assert b[k..][1..] == b[k + 1..];
      k := k + 1;
    }
    more := k < |b|;
  }

  /** 1 when the bytes are there and `k` is behind them, 0 when they may still come. */
  method Literal(b: string, i: nat, s: string) returns (r: int, k: nat)
    requires i <= |b|
    ensures i <= k <= |b| && (r == 1 || r == 0 || r == -1)
    ensures Lit(b[i..], s) == if r == 1 then Past(b[k..]) else if r == 0 then More else No
  {
    k := i;
    var n := 0;
    while n < |s|
      invariant n <= |s| && i <= k <= |b| && Lit(b[k..], s[n..]) == Lit(b[i..], s)
    {
      if k >= |b| { return 0, k; }
      if b[k] != s[n] { return -1, k; }
      assert b[k..][1..] == b[k + 1..] && s[n..][1..] == s[n + 1..];
      n, k := n + 1, k + 1;
    }
    r := 1;
  }

  /** A literal behind white space. */
  method Expect(b: string, i: nat, s: string) returns (r: int, k: nat)
    requires i <= |b|
    ensures i <= k <= |b| && (r == 1 || r == 0 || r == -1)
    ensures Word(b[i..], s) == if r == 1 then Past(b[k..]) else if r == 0 then More else No
  {
    var more;
    k, more := Skip(b, i);
    if !more { return 0, k; }
    r, k := Literal(b, k, s);
  }

  method ReadName(b: string, i: nat) returns (r: int, name: string, k: nat)
    requires i <= |b|
    ensures i <= k <= |b| && (r == 1 || r == 0 || r == -1)
    ensures NameOf(b[i..]) == if r == 1 then Name(name, b[k..]) else if r == 0 then NeedMore else NoName
  {
    k, name := i, "";
    while true
      invariant i <= k <= |b|
      invariant NameOf(b[i..]) == match NameOf(b[k..]) case Name(n, rest) => Name(name + n, rest) case other => other
      decreases |b| - k
    {
      if k >= |b| { return 0, name, k; }
      assert b[k..][1..] == b[k + 1..];
      if b[k] == '\\' { return -1, name, k; }
      if b[k] == '"' { return 1, name, k + 1; }
      ghost var n := NameOf(b[k + 1..]);
      assert n.Name? ==> name + ([b[k]] + n.name) == (name + [b[k]]) + n.name;
      name := name + [b[k]];
      k := k + 1;
    }
  }

  /** `match_head`: 1 with the name and where the arguments begin, 0 for more bytes, -1
      for a head of another shape. */
  method Match(b: string) returns (r: int, name: string, consumed: nat)
    ensures consumed <= |b| && (r == 1 || r == 0 || r == -1)
    ensures MatchHead(b) == if r == 1 then Matched(name, b[consumed..]) else if r == 0 then Undecided else Refused
  {
    hide Word, Lit, SkipWs, NameOf;
    name, consumed := "", 0;
    var i;
    r, i := Openers(b);
    if r <= 0 { return; }
    r, name, i := ReadName(b, i);
    if r <= 0 { return; }
    if name == "" { return -1, name, 0; }
    r, i := Expect(b, i, ",");
    if r <= 0 { return; }
    r, i := ReadKey(b, i);
    if r <= 0 { return; }
    r, i := Expect(b, i, ":");
    if r <= 0 { return; }
    var more;
    i, more := Skip(b, i);
    if !more { return 0, name, 0; }
    if b[i] != '{' { return -1, name, 0; }
    r, consumed := 1, i;
  }

  method Openers(b: string) returns (r: int, k: nat)
    ensures k <= |b| && (r == 1 || r == 0 || r == -1)
    ensures Words(b, OPENERS) == if r == 1 then Past(b[k..]) else if r == 0 then More else No
  {
    hide Word;
    r, k := 1, 0;
    var n := 0;
    assert b[0..] == b;
    while n < |OPENERS|
      invariant n <= |OPENERS| && k <= |b| && r == 1
      invariant Words(b, OPENERS) == Words(b[k..], OPENERS[n..])
    {
      assert OPENERS[n..][1..] == OPENERS[n + 1..];
      r, k := Expect(b, k, OPENERS[n]);
      if r <= 0 { return; }
      n := n + 1;
    }
  }

  method ReadKey(b: string, i: nat) returns (r: int, k: nat)
    requires i <= |b|
    ensures i <= k <= |b| && (r == 1 || r == 0 || r == -1)
    ensures KeyPast(b[i..]) == if r == 1 then Past(b[k..]) else if r == 0 then More else No
  {
    hide Lit, SkipWs;
    var more;
    k, more := Skip(b, i);
    if !more { return 0, k; }
    assert Unquoted(b[k..]) == if b[k] == '"' then b[k + 1..] else b[k..];
    if b[k] == '"' { k := k + 1; }
    r, k := Literal(b, k, KEY);
  }

  // ------------------------------------------------------- what the grammar emits

  lemma {:induction false} SkipReads(w: string, t: string)
    requires AllWs(w) && t != "" && !IsWs(t[0])
    ensures SkipWs(w + t) == t
  {
    if w == "" {
      assert w + t == t;
    } else {
      assert IsWs((w + t)[0]) && (w + t)[1..] == w[1..] + t;
      SkipReads(w[1..], t);
    }
  }

  lemma {:induction false} LitReads(s: string, rest: string)
    ensures Lit(s + rest, s) == Past(rest)
  {
    if s == "" {
      assert s + rest == rest;
    } else {
      assert (s + rest)[1..] == s[1..] + rest;
      LitReads(s[1..], rest);
    }
  }

  lemma WordReads(w: string, s: string, rest: string)
    requires AllWs(w) && s != "" && !IsWs(s[0])
    ensures Word(w + (s + rest), s) == Past(rest)
  {
    SkipReads(w, s + rest);
    LitReads(s, rest);
  }

  lemma {:induction false} NameReads(n: string, rest: string)
    requires '"' !in n
    ensures NameOf(n + ("\"" + rest)) == if '\\' in n then NoName else Name(n, rest)
  {
    var t := n + ("\"" + rest);
    if n == "" {
      assert t == "\"" + rest && t[1..] == rest;
    } else {
      assert t[0] == n[0] && t[1..] == n[1..] + ("\"" + rest);
      NameReads(n[1..], rest);
      assert n == [n[0]] + n[1..];
    }
  }

  function ArgsOf(c: Call): string { "{" + (MembersText(c.args) + ("}" + EndText(c))) }

  /** Every call the grammar closes on is streamed under its own name and from its own
      arguments on, unless its name is empty or holds a backslash. */
  lemma LegalCallOpens(names: seq<string>, c: Call)
    requires WellFormedCall(names, c)
    ensures MatchHead(CallText(c)) ==
      if c.name == "" || '\\' in c.name then Refused else Matched(c.name, ArgsOf(c))
  {
    hide Word, NameOf, WellFormedMembers, MatchName, ArgKeyText;
    var body := c.name + ("\"" + ArgKeyText(c));
    assert "\"" + ("name\"" + NameText(c)) == "\"name\"" + NameText(c);
    WordReads(c.w0, "{", c.w1 + ("\"name\"" + NameText(c)));
    WordReads(c.w1, "\"name\"", NameText(c));
    WordReads(c.w2, ":", c.w3 + ("\"" + body));
    WordReads(c.w3, "\"", body);
    OpenersRead(CallText(c), c.w1 + ("\"name\"" + NameText(c)), NameText(c), c.w3 + ("\"" + body), body);
    NamePartReads(names, c);
  }

  lemma OpenersRead(t: string, t1: string, t2: string, t3: string, t4: string)
    requires Word(t, "{") == Past(t1) && Word(t1, "\"name\"") == Past(t2)
    requires Word(t2, ":") == Past(t3) && Word(t3, "\"") == Past(t4)
    ensures Words(t, OPENERS) == Past(t4)
  {
    hide Word;
    assert OPENERS[1..] == ["\"name\"", ":", "\""] && OPENERS[1..][1..] == [":", "\""];
    assert [":", "\""][1..] == ["\""] && ["\""][1..] == [];
    assert Words(t3, ["\""]) == Past(t4);
    assert Words(t2, [":", "\""]) == Past(t4);
    assert Words(t1, OPENERS[1..]) == Past(t4);
  }

  lemma NamePartReads(names: seq<string>, c: Call)
    requires WellFormedCall(names, c)
    ensures MatchName(c.name + ("\"" + ArgKeyText(c))) ==
      if c.name == "" || '\\' in c.name then Refused else Matched(c.name, ArgsOf(c))
  {
    hide Word, NameOf, WellFormedMembers, Lit, SkipWs;
    NameReads(c.name, ArgKeyText(c));
    var key := c.w6 + (":" + ArgsText(c));
    var quoted := "\"" + ("arguments\"" + key);
    WordReads(c.w4, ",", c.w5 + quoted);
    SkipReads(c.w5, quoted);
    assert Unquoted(quoted) == KEY + key;
    LitReads(KEY, key);
    WordReads(c.w6, ":", ArgsText(c));
    SkipReads(c.w7, ArgsOf(c));
  }
}
