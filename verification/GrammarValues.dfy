/** JSON values, arrays and objects: the machine gets past a value exactly when
    some well-formed tree spells the bytes it read.

    Feed and Take as for the lexemes, by recursion on the tree and on the bytes
    still to read. */
module GrammarValues {
  import opened Json
  import opened ToolGrammar
  import opened GrammarState
  import opened GrammarLexemes

  /** The state in which closing the innermost bracket leaves the machine. */
  function AfterClose(s: string): St { if s == "" then ObjClose else JAfterVal }

  lemma OpenByte(st: St, s: string, c: char, w: string)
    requires st == JValueReq || (st == JValue && (s != "" || c == '{'))
    requires c == '{' || c == '['
    requires NONE !in s
    ensures Closes(At(st, s), [c] + w) == Closes(At(if c == '{' then JKey else JValue, s + [c]), w)
  {
    hide Closes, Advance;
    FeedJson(st, s, c, w);
  }

  predicate Shuts(st: St, open: char, c: char) {
    || (open == '{' && c == '}' && (st == JKey || st == JAfterVal))
    || (open == '[' && c == ']' && (st == JValue || st == JAfterVal))
  }

  lemma ShutAct(st: St, s: string, open: char, c: char)
    requires Shuts(st, open, c)
    ensures !FrameState(st) && At(st, s + [open]).Top() == open
    ensures Apply(At(st, s + [open]), JsonAct(st, open, c)) == At(AfterClose(s), s)
  {
    assert (s + [open])[..|s|] == s;
  }

  lemma ShutByte(st: St, s: string, open: char, c: char, w: string)
    requires Shuts(st, open, c)
    ensures Closes(At(st, s + [open]), [c] + w) == Closes(At(AfterClose(s), s), w)
  {
    hide Closes, Advance, JsonAct, Apply;
    ShutAct(st, s, open, c);
    FeedJson(st, s + [open], c, w);
  }

  /** The first slot of an array or the value of a member is read like any other value. */
  lemma ValueSlot(s: string, w: string)
    requires s != "" && NONE !in s && w != "" && !IsWs(w[0]) && (w[0] == ']' ==> s[|s| - 1] != '[')
    ensures Closes(At(JValue, s), w) == Closes(At(JValueReq, s), w)
  {
    hide Closes, Advance;
    var c := w[0];
    assert w == [c] + w[1..];
    FeedJson(JValue, s, c, w[1..]);
    FeedJson(JValueReq, s, c, w[1..]);
    var a, b := JsonAct(JValue, At(JValue, s).Top(), c), JsonAct(JValueReq, At(JValue, s).Top(), c);
    if a.Refuse? {
      DeadStays(Apply(At(JValue, s), a), w[1..]);
      DeadStays(Apply(At(JValueReq, s), b), w[1..]);
    } else {
      assert a == b;
      assert Apply(At(JValue, s), a) == Apply(At(JValueReq, s), b);
    }
  }

  predicate IsWord(w: string) { w == "true" || w == "false" || w == "null" }

  /** After the first letter of a literal word. */
  function WordBegun(s: string, w: string): Config {
    At(JLit, s).(litWord := w, lit := 1)
  }

  lemma WordOverIsAfterVal(s: string, w: string, rest: string)
    ensures Closes(WordOver(WordBegun(s, w)), rest) == Closes(At(JAfterVal, s), rest)
  {
    hide Closes;
    SameLiveCloses(WordOver(WordBegun(s, w)), At(JAfterVal, s), rest);
  }

  lemma FeedLiteral(s: string, w: string, rest: string)
    requires IsWord(w)
    ensures Closes(At(JValueReq, s), w + rest) == Closes(At(JAfterVal, s), rest)
  {
    hide Closes, Advance;
    assert w + rest == [w[0]] + (w[1..] + rest);
    FeedJson(JValueReq, s, w[0], w[1..] + rest);
    FeedWord(WordBegun(s, w), rest);
    WordOverIsAfterVal(s, w, rest);
  }

  // ------------------------------------------------------------ completeness

  lemma {:induction false} FeedValue(s: string, v: Value, w: string)
    requires s != "" && NONE !in s && WellFormed(v) && Closes(At(JAfterVal, s), w)
    ensures Closes(At(JValueReq, s), Text(v) + w)
    decreases v
  {
    hide Closes, Advance, JsonAct;
    match v
    case Word(x) => FeedLiteral(s, x, w);
    case String(b) =>
      assert Text(v) + w == ['"'] + (b + ("\"" + w));
      QuoteOpens(s, b + ("\"" + w));
      FeedString(false, s, b, w);
    case Num(n) => FeedNumber(s, n, w);
    case EmptyArray(gap) =>
      assert Text(v) + w == ['['] + (gap + ("]" + w));
      OpenByte(JValueReq, s, '[', gap + ("]" + w));
      FeedWs(At(JValue, s + "["), gap, "]" + w);
      ShutByte(JValue, s, '[', ']', w);
    case Array(items) =>
      assert Text(v) + w == ['['] + (ItemsText(items) + ("]" + w));
      OpenByte(JValueReq, s, '[', ItemsText(items) + ("]" + w));
      ShutByte(JAfterVal, s, '[', ']', w);
      FeedItems(JValue, s, items, "]" + w);
    case Object(m) =>
      assert Text(v) + w == ['{'] + (MembersText(m) + ("}" + w));
      OpenByte(JValueReq, s, '{', MembersText(m) + ("}" + w));
      FeedMembers(s, m, w);
  }

  lemma QuoteOpens(s: string, w: string)
    ensures Closes(At(JValueReq, s), "\"" + w) == Closes(At(JStr, s), w)
  {
    hide Closes, Advance;
    FeedGo(JValueReq, s, '"', JStr, w);
  }

  /** A value starts with none of the bytes that JValue treats on its own. */
  lemma ValueFirst(v: Value)
    requires WellFormed(v)
    ensures Text(v) != "" && !IsWs(Text(v)[0]) && Text(v)[0] != ']'
  {}

  lemma Comma(s: string, open: char, w: string)
    requires open == '{' || open == '['
    ensures Closes(At(JAfterVal, s + [open]), "," + w) ==
            Closes(At(if open == '{' then JKeyReq else JValueReq, s + [open]), w)
  {
    hide Closes, Advance;
    FeedGo(JAfterVal, s + [open], ',', if open == '{' then JKeyReq else JValueReq, w);
  }

  lemma {:induction false} FeedItems(st: St, s: string, e: Items, w: string)
    requires (st == JValue || st == JValueReq) && NONE !in s
    requires WellFormedItems(e) && Closes(At(JAfterVal, s + "["), w)
    ensures Closes(At(st, s + "["), ItemsText(e) + w)
    decreases e
  {
    hide Closes, Advance, JsonAct;
    var s1 := s + "[";
    var tail := (if e.MoreItems? then "," + ItemsText(e.rest) else "") + w;
    assert ItemsText(e) + w == e.before + (Text(e.value) + (e.after + tail));
    if e.MoreItems? {
      FeedItems(JValueReq, s, e.rest, w);
      Comma(s, '[', ItemsText(e.rest) + w);
      assert tail == "," + (ItemsText(e.rest) + w);
    } else {
      assert tail == w;
    }
    FeedWs(At(JAfterVal, s1), e.after, tail);
    FeedValue(s1, e.value, e.after + tail);
    ValueFirst(e.value);
    ValueSlot(s1, Text(e.value) + (e.after + tail));
    FeedWs(At(st, s1), e.before, Text(e.value) + (e.after + tail));
  }

  /** The quote that opens a key, and the colon after it. */
  lemma KeyFrame(st: St, s: string, w: string)
    requires st == JKey || st == JKeyReq
    ensures Closes(At(st, s), "\"" + w) == Closes(At(JKeyStr, s), w)
    ensures Closes(At(JKeyColon, s), ":" + w) == Closes(At(JValue, s), w)
  {
    hide Closes, Advance;
    FeedGo(st, s, '"', JKeyStr, w);
    FeedGo(JKeyColon, s, ':', JValue, w);
  }

  lemma {:induction false} FeedPair(st: St, s: string, p: Pair, w: string)
    requires (st == JKey || st == JKeyReq) && NONE !in s
    requires WellFormedPair(p) && Closes(At(JAfterVal, s + "{"), w)
    ensures Closes(At(st, s + "{"), PairText(p) + w)
    decreases p
  {
    hide Closes, Advance, JsonAct;
    var s1 := s + "{";
    var w1 := Text(p.value) + (p.after + w);
    var w2 := p.beforeColon + (":" + (p.afterColon + w1));
    assert PairText(p) + w == p.before + ("\"" + (p.key + ("\"" + w2)));
    FeedWs(At(JAfterVal, s1), p.after, w);
    FeedValue(s1, p.value, p.after + w);
    ValueFirst(p.value);
    ValueSlot(s1, w1);
    FeedWs(At(JValue, s1), p.afterColon, w1);
    KeyFrame(st, s1, p.afterColon + w1);
    FeedWs(At(JKeyColon, s1), p.beforeColon, ":" + (p.afterColon + w1));
    FeedString(true, s1, p.key, w2);
    KeyFrame(st, s1, p.key + ("\"" + w2));
    FeedWs(At(st, s1), p.before, "\"" + (p.key + ("\"" + w2)));
  }

  lemma {:induction false} FeedPairs(st: St, s: string, ps: PairList, w: string)
    requires (st == JKey || st == JKeyReq) && NONE !in s
    requires WellFormedPairs(ps) && Closes(At(JAfterVal, s + "{"), w)
    ensures Closes(At(st, s + "{"), PairsText(ps) + w)
    decreases ps
  {
    hide Closes, Advance, JsonAct;
    if ps.MorePairs? {
      FeedPairs(JKeyReq, s, ps.rest, w);
      Comma(s, '{', PairsText(ps.rest) + w);
      FeedPair(st, s, ps.pair, "," + (PairsText(ps.rest) + w));
      assert PairsText(ps) + w == PairText(ps.pair) + ("," + (PairsText(ps.rest) + w));
    } else {
      FeedPair(st, s, ps.pair, w);
      assert PairsText(ps) + w == PairText(ps.pair) + w;
    }
  }

  lemma {:induction false} FeedMembers(s: string, m: Members, w: string)
    requires NONE !in s && WellFormedMembers(m) && Closes(At(AfterClose(s), s), w)
    ensures Closes(At(JKey, s + "{"), MembersText(m) + ("}" + w))
    decreases m
  {
    hide Closes, Advance, JsonAct;
    match m
    case NoMembers(gap) =>
      ShutByte(JKey, s, '{', '}', w);
      FeedWs(At(JKey, s + "{"), gap, "}" + w);
    case Members(list) =>
      ShutByte(JAfterVal, s, '{', '}', w);
      FeedPairs(JKey, s, list, "}" + w);
  }

  // --------------------------------------------------------------- soundness

  /** What can stand behind a value. */
  lemma AfterByte(s: string, open: char, w: string) returns (c: char, rest: string)
    requires open == '{' || open == '['
    requires Closes(At(JAfterVal, s + [open]), w) && w != "" && !IsWs(w[0])
    ensures w == [c] + rest
    ensures
      || (c == ',' && Closes(At(if open == '{' then JKeyReq else JValueReq, s + [open]), rest))
      || (c == (if open == '{' then '}' else ']') && Closes(At(AfterClose(s), s), rest))
  {
    hide Closes, Advance;
    c, rest := TakeJson(JAfterVal, s + [open], w);
    assert (s + [open])[..|s|] == s;
  }

  /** The first byte of a value decides what it is. */
  lemma ValueByte(s: string, w: string) returns (c: char, rest: string)
    requires Closes(At(JValueReq, s), w) && w != "" && !IsWs(w[0])
    ensures w == [c] + rest
    ensures
      || (c == '{' && Closes(At(JKey, s + "{"), rest))
      || (c == '[' && Closes(At(JValue, s + "["), rest))
      || (c == '"' && Closes(At(JStr, s), rest))
      || c == '-' || IsDigit(c)
      || (c == 't' && Closes(WordBegun(s, "true"), rest))
      || (c == 'f' && Closes(WordBegun(s, "false"), rest))
      || (c == 'n' && Closes(WordBegun(s, "null"), rest))
  {
    hide Closes, Advance;
    c, rest := TakeJson(JValueReq, s, w);
  }

  lemma TakeLiteral(s: string, x: string, w: string) returns (rest: string)
    requires IsWord(x) && Closes(WordBegun(s, x), w)
    ensures [x[0]] + w == x + rest && Closes(At(JAfterVal, s), rest)
  {
    hide Closes, Advance;
    rest := TakeWord(WordBegun(s, x), w);
    WordOverIsAfterVal(s, x, rest);
  }

  lemma {:induction false} TakeValue(s: string, w: string) returns (v: Value, rest: string)
    requires s != "" && NONE !in s && Closes(At(JValueReq, s), w) && w != "" && !IsWs(w[0])
    ensures w == Text(v) + rest && |rest| < |w| && WellFormed(v) && Closes(At(JAfterVal, s), rest)
    decreases |w|, 0
  {
    hide Closes, Advance, JsonAct;
    var c, r := ValueByte(s, w);
    if c == '{' {
      var m;
      m, rest := TakeMembers(s, r);
      v := Object(m);
    } else if c == '[' {
      v, rest := TakeArray(s, r);
    } else if c == '"' {
      var b;
      b, rest := TakeString(false, s, r);
      v := String(b);
    } else if c == '-' || IsDigit(c) {
      var n;
      n, rest := TakeNumber(s, w);
      v := Num(n);
    } else {
      var x := if c == 't' then "true" else if c == 'f' then "false" else "null";
      rest := TakeLiteral(s, x, r);
      v := Word(x);
    }
  }

  lemma EmptyArrayByte(s: string, w: string) returns (rest: string)
    requires Closes(At(JValue, s + "["), w) && w != "" && w[0] == ']'
    ensures w == "]" + rest && Closes(At(AfterClose(s), s), rest)
  {
    hide Closes, Advance;
    rest := w[1..];
    assert w == [']'] + rest;
    ShutByte(JValue, s, '[', ']', rest);
  }

  /** An array from the byte after its opening bracket. */
  lemma {:induction false} TakeArray(s: string, w: string) returns (v: Value, rest: string)
    requires s != "" && NONE !in s && Closes(At(JValue, s + "["), w)
    ensures "[" + w == Text(v) + rest && WellFormed(v) && Closes(At(JAfterVal, s), rest)
    decreases |w|, 2
  {
    hide Closes, Advance, JsonAct;
    var gap, r := TakeWs(At(JValue, s + "["), w);
    if r[0] == ']' {
      rest := EmptyArrayByte(s, r);
      v := EmptyArray(gap);
    } else {
      ValueSlot(s + "[", r);
      FeedWs(At(JValueReq, s + "["), gap, r);
      var e;
      e, rest := TakeItems(s, w);
      v := Array(e);
    }
  }

  lemma {:induction false} TakeItems(s: string, w: string) returns (e: Items, rest: string)
    requires s != "" && NONE !in s && Closes(At(JValueReq, s + "["), w)
    ensures w == ItemsText(e) + ("]" + rest) && WellFormedItems(e) && Closes(At(JAfterVal, s), rest)
    decreases |w|, 1
  {
    hide Closes, Advance, JsonAct;
    var before, r := TakeWs(At(JValueReq, s + "["), w);
    var v, r1 := TakeValue(s + "[", r);
    var after, r2 := TakeWs(At(JAfterVal, s + "["), r1);
    var c, r3 := AfterByte(s, '[', r2);
    if c == ',' {
      var more;
      more, rest := TakeItems(s, r3);
      e := MoreItems(before, v, after, more);
    } else {
      e, rest := LastItem(before, v, after), r3;
    }
  }

  /** Quote of a key, or a colon: nothing else goes on. */
  lemma TakeKeyQuote(st: St, s: string, w: string) returns (rest: string)
    requires (st == JKey || st == JKeyReq) && Closes(At(st, s), w) && w != "" && !IsWs(w[0]) && w[0] != '}'
    ensures w == "\"" + rest && |rest| < |w| && Closes(At(JKeyStr, s), rest)
  {
    hide Closes, Advance;
    var c;
    c, rest := TakeJson(st, s, w);
  }

  lemma TakeColon(s: string, w: string) returns (rest: string)
    requires Closes(At(JKeyColon, s), w) && w != "" && !IsWs(w[0])
    ensures w == ":" + rest && |rest| < |w| && Closes(At(JValue, s), rest)
  {
    hide Closes, Advance;
    var c;
    c, rest := TakeJson(JKeyColon, s, w);
  }

  /** In an object the first byte of a value cannot close an array. */
  lemma NotBracket(s: string, w: string)
    requires Closes(At(JValue, s + "{"), w) && w != "" && !IsWs(w[0])
    ensures w[0] != ']'
  {
    hide Closes, Advance;
    var c, r := TakeJson(JValue, s + "{", w);
  }

  /** A key with its colon, from the opening quote on. */
  lemma TakeKeyPart(st: St, s1: string, w: string) returns (key: string, beforeColon: string, rest: string)
    requires (st == JKey || st == JKeyReq) && Closes(At(st, s1), w)
    requires w != "" && !IsWs(w[0]) && w[0] != '}'
    ensures w == "\"" + (key + ("\"" + (beforeColon + (":" + rest)))) && |rest| < |w|
    ensures IsStringBody(key) && AllWs(beforeColon) && Closes(At(JValue, s1), rest)
  {
    hide Closes, Advance, JsonAct, IsStringBody;
    var r1 := TakeKeyQuote(st, s1, w);
    var r2, r3;
    key, r2 := TakeString(true, s1, r1);
    beforeColon, r3 := TakeWs(At(JKeyColon, s1), r2);
    rest := TakeColon(s1, r3);
  }

  /** The value of a member, from the byte after the colon. */
  lemma {:induction false} TakeValuePart(s: string, w: string) returns (afterColon: string, v: Value, after: string, rest: string)
    requires NONE !in s && Closes(At(JValue, s + "{"), w)
    ensures w == afterColon + (Text(v) + (after + rest)) && AllWs(afterColon) && AllWs(after) && WellFormed(v)
    ensures Closes(At(JAfterVal, s + "{"), rest) && rest != "" && !IsWs(rest[0])
    decreases |w|, 1
  {
    hide Closes, Advance, JsonAct;
    var s1 := s + "{";
    var r1, r2;
    afterColon, r1 := TakeWs(At(JValue, s1), w);
    NotBracket(s, r1);
    ValueSlot(s1, r1);
    v, r2 := TakeValue(s1, r1);
    after, rest := TakeWs(At(JAfterVal, s1), r2);
  }

  lemma {:induction false} TakePair(st: St, s: string, w: string) returns (p: Pair, rest: string)
    requires (st == JKey || st == JKeyReq) && NONE !in s && Closes(At(st, s + "{"), w)
    requires w != "" && !IsWs(w[0]) && w[0] != '}'
    ensures w == PairText(p) + rest && |rest| < |w| && WellFormedPair(p)
    ensures p.before == "" && Closes(At(JAfterVal, s + "{"), rest) && rest != "" && !IsWs(rest[0])
    decreases |w|, 1
  {
    hide Closes, Advance, JsonAct, IsStringBody, Text, WellFormed;
    var key, beforeColon, r := TakeKeyPart(st, s + "{", w);
    var afterColon, v, after;
    afterColon, v, after, rest := TakeValuePart(s, r);
    p := Pair("", key, beforeColon, afterColon, v, after);
  }

  lemma {:induction false} TakePairs(st: St, s: string, w: string) returns (ps: PairList, rest: string)
    requires (st == JKey || st == JKeyReq) && NONE !in s && Closes(At(st, s + "{"), w)
    requires w != "" && !IsWs(w[0]) && w[0] != '}'
    ensures w == PairsText(ps) + ("}" + rest) && WellFormedPairs(ps) && Closes(At(AfterClose(s), s), rest)
    decreases |w|, 2
  {
    hide Closes, Advance, JsonAct;
    var p, r := TakePair(st, s, w);
    var c, r1 := AfterByte(s, '{', r);
    if c == ',' {
      var gap, r2 := TakeWs(At(JKeyReq, s + "{"), r1);
      if r2[0] == '}' { KeyRequired(s, r2); }
      var more;
      more, rest := TakePairs(JKeyReq, s, r2);
      ps := MorePairs(p, WithBefore(more, gap));
      WithBeforeText(more, gap);
      assert r1 == PairsText(WithBefore(more, gap)) + ("}" + rest);
    } else {
      ps, rest := LastPair(p), r1;
    }
  }

  lemma KeyRequired(s: string, w: string)
    requires Closes(At(JKeyReq, s + "{"), w) && w != ""
    ensures w[0] != '}'
  {
    hide Closes, Advance;
    var c, r := TakeJson(JKeyReq, s + "{", w);
  }

  function WithBefore(ps: PairList, gap: string): PairList {
    match ps
    case LastPair(p) => LastPair(p.(before := gap + p.before))
    case MorePairs(p, rest) => MorePairs(p.(before := gap + p.before), rest)
  }

  lemma WithBeforeText(ps: PairList, gap: string)
    requires AllWs(gap) && WellFormedPairs(ps)
    ensures PairsText(WithBefore(ps, gap)) == gap + PairsText(ps) && WellFormedPairs(WithBefore(ps, gap))
  {
    var p := ps.pair;
    assert PairText(p.(before := gap + p.before)) == gap + PairText(p);
  }

  /** An object from the byte after its opening brace. */
  lemma {:induction false} TakeMembers(s: string, w: string) returns (m: Members, rest: string)
    requires NONE !in s && Closes(At(JKey, s + "{"), w)
    ensures w == MembersText(m) + ("}" + rest) && WellFormedMembers(m) && Closes(At(AfterClose(s), s), rest)
    decreases |w|, 3
  {
    hide Closes, Advance, JsonAct;
    var gap, r := TakeWs(At(JKey, s + "{"), w);
    if r[0] == '}' {
      rest := r[1..];
      assert r == ['}'] + rest;
      ShutByte(JKey, s, '{', '}', rest);
      m := NoMembers(gap);
    } else {
      var ps;
      ps, rest := TakePairs(JKey, s, r);
      m := Members(WithBefore(ps, gap));
      WithBeforeText(ps, gap);
    }
  }
}
