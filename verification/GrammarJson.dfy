/** When the accepted call is JSON: exactly when the registered name is a string body. */
module GrammarJson {
  import opened Json
  import opened ToolGrammar
  import opened GrammarState
  import opened GrammarLanguage

  function NameMember(c: Call): Pair {
    Pair(c.w1, "name", c.w2, c.w3, String(c.name), c.w4)
  }

  function ArgumentsMember(c: Call): Pair {
    Pair(c.w5, "arguments", c.w6, c.w7, Object(c.args), c.w8)
  }

  /** The call as a JSON tree: an object with the members `name` and `arguments`. */
  function CallTree(c: Call): Value {
    Object(Members(MorePairs(NameMember(c), LastPair(ArgumentsMember(c)))))
  }

  /** A legal call whose name is a legal JSON string is, up to white space and the
      closer, the text of one JSON object. */
  lemma CallIsJson(names: seq<string>, c: Call)
    requires WellFormedCall(names, c) && IsStringBody(c.name)
    ensures WellFormed(CallTree(c)) && CallText(c) == c.w0 + (Text(CallTree(c)) + (c.w9 + CLOSER))
  {
    hide Text, PairText, CallText, ArgKeyText, WellFormed;
    var end := c.w9 + CLOSER;
    CallTreeWellFormed(names, c);
    ArgumentsPair(c);
    NamePair(c, "," + (PairText(ArgumentsMember(c)) + ("}" + end)));
    TwoPairs(NameMember(c), ArgumentsMember(c), end);
  }

  lemma CallTreeWellFormed(names: seq<string>, c: Call)
    requires WellFormedCall(names, c) && IsStringBody(c.name)
    ensures WellFormed(CallTree(c))
  {
    hide IsStringBody, WellFormedPair, WellFormed;
    KeysAreBodies();
    StringWellFormed(c.name);
    ObjectWellFormed(c.args);
    PairWellFormed(NameMember(c));
    PairWellFormed(ArgumentsMember(c));
    var last := LastPair(ArgumentsMember(c));
    assert WellFormedPairs(last);
    assert WellFormedPairs(MorePairs(NameMember(c), last));
    ObjectWellFormed(Members(MorePairs(NameMember(c), last)));
  }

  lemma StringWellFormed(b: string)
    ensures WellFormed(String(b)) == IsStringBody(b)
  {}

  lemma ObjectWellFormed(m: Members)
    ensures WellFormed(Object(m)) == WellFormedMembers(m)
  {}

  lemma PairWellFormed(p: Pair)
    requires AllWs(p.before) && IsStringBody(p.key) && AllWs(p.beforeColon) && AllWs(p.afterColon)
    requires WellFormed(p.value) && AllWs(p.after)
    ensures WellFormedPair(p)
  {}

  lemma TwoPairs(p: Pair, q: Pair, end: string)
    ensures Text(Object(Members(MorePairs(p, LastPair(q))))) + end ==
            "{" + (PairText(p) + ("," + (PairText(q) + ("}" + end))))
  {
    hide PairText;
    var list := MorePairs(p, LastPair(q));
    assert PairsText(LastPair(q)) == PairText(q);
    assert PairsText(list) == PairText(p) + ("," + PairText(q));
    assert Text(Object(Members(list))) == "{" + (PairsText(list) + "}");
  }

  lemma ArgumentsPair(c: Call)
    ensures ArgKeyText(c) == c.w4 + ("," + (PairText(ArgumentsMember(c)) + ("}" + (c.w9 + CLOSER))))
  {
    var args, end := "{" + (MembersText(c.args) + "}"), c.w9 + CLOSER;
    assert Text(ArgumentsMember(c).value) == args;
    ArgsGrouped(MembersText(c.args), c.w7, c.w8, end);
    assert ArgsText(c) == c.w7 + (args + (c.w8 + ("}" + end)));
    hide ArgsText, MembersText, Text;
    KeyGrouped(c.w5, c.w6, c.w7 + args, c.w8, end);
    assert c.w7 + (args + c.w8) == (c.w7 + args) + c.w8;
  }

  lemma ArgsGrouped(m: string, w7: string, w8: string, end: string)
    ensures w7 + ("{" + (m + ("}" + (w8 + ("}" + end))))) == w7 + (("{" + (m + "}")) + (w8 + ("}" + end)))
  {}

  lemma KeyGrouped(w5: string, w6: string, args: string, w8: string, end: string)
    ensures w5 + ("\"" + ("arguments\"" + (w6 + (":" + (args + (w8 + ("}" + end))))))) ==
      (w5 + ("\"" + ("arguments" + ("\"" + (w6 + (":" + (args + w8))))))) + ("}" + end)
  {}

  lemma NamePair(c: Call, rest: string)
    requires ArgKeyText(c) == c.w4 + rest
    ensures CallText(c) == c.w0 + ("{" + (PairText(NameMember(c)) + rest))
  {
    hide ArgKeyText;
    var name := "\"" + (c.name + "\"");
    assert Text(NameMember(c).value) == name;
    assert NameText(c) == c.w2 + (":" + (c.w3 + (name + (c.w4 + rest))));
  }

  lemma KeysAreBodies()
    ensures IsStringBody("name") && IsStringBody("arguments")
  {
    PlainBody("name");
    PlainBody("arguments");
  }

  lemma {:induction false} PlainBody(s: string)
    requires forall i :: 0 <= i < |s| ==> 'a' <= s[i] <= 'z'
    ensures IsStringBody(s)
  {
    if s != "" { PlainBody(s[1..]); }
  }

  // --------------------------------------------------- the text has one reading

  lemma WsSplit(a: string, x: string, b: string, y: string)
    requires AllWs(a) && AllWs(b) && a + x == b + y
    requires x != "" && y != "" && !IsWs(x[0]) && !IsWs(y[0])
    ensures a == b && x == y
  {
    var t := a + x;
    assert t[|a|] == x[0] && t[|b|] == y[0];
    assert forall i :: 0 <= i < |a| ==> t[i] == a[i] && IsWs(t[i]);
    assert forall i :: 0 <= i < |b| ==> t[i] == b[i] && IsWs(t[i]);
    assert a == t[..|a|] == b && x == t[|a|..] == y;
  }

  /** A quote inside a string body stands behind a backslash. */
  lemma {:induction false} QuoteIsEscaped(b: string, i: nat)
    requires IsStringBody(b) && i < |b| && b[i] == '"'
    ensures i > 0 && b[i - 1] == '\\'
    decreases |b|
  {
    if b[0] == '\\' {
      var n := if b[1] == 'u' then 6 else 2;
      if i >= n { QuoteIsEscaped(b[n..], i - n); }
    } else if i > 0 {
      QuoteIsEscaped(b[1..], i - 1);
    }
  }

  /** Two bodies in front of a quote: the shorter one ends before an unescaped quote. */
  lemma BodyEndsFirst(b: string, x: string, k: string, y: string)
    requires b + ("\"" + x) == k + ("\"" + y) && IsStringBody(b)
    requires '"' !in k && (k == "" || k[|k| - 1] != '\\')
    ensures b == k && x == y
  {
    var t := b + ("\"" + x);
    assert t[|b|] == '"' && t[|k|] == '"';
    assert forall i :: 0 <= i < |k| ==> t[i] == k[i] && t[i] != '"';
    assert forall i :: 0 <= i < |b| ==> t[i] == b[i];
    if |k| < |b| { QuoteIsEscaped(b, |k|); }
    assert b == t[..|b|] && k == t[..|k|];
    assert x == t[|b| + 1..] && y == t[|k| + 1..];
  }

  /** A number starts with a sign or a digit, so a text tells its kind by its first byte. */
  lemma FirstByte(v: Value)
    requires WellFormed(v)
    ensures Text(v) != "" && !IsWs(Text(v)[0])
    ensures Text(v)[0] == '{' <==> v.Object?
    ensures Text(v)[0] == '"' <==> v.String?
  {
    hide WellFormedItems, WellFormedMembers, ItemsText, MembersText, IsStringBody;
    if v.Num? { NumberFirst(v.number); }
  }

  lemma NumberFirst(n: Number)
    requires WellFormedNumber(n)
    ensures NumberText(n) != "" && (NumberText(n)[0] == '-' || IsDigit(NumberText(n)[0]))
  {
    if n.minus == "" {
      assert NumberText(n) == n.whole + (n.frac + n.exp);
      assert IsDigit(n.whole[0]);
    }
  }

  lemma PreIsPlain(w4: string, w5: string)
    requires AllWs(w4) && AllWs(w5)
    ensures var pre := w4 + ("," + w5); '"' !in pre && pre[|pre| - 1] != '\\'
  {
    var pre := w4 + ("," + w5);
    assert forall i :: 0 <= i < |pre| ==> pre[i] == ',' || IsWs(pre[i]);
  }

  /** A string body read where the name stands is the name: it cannot stop inside it, it
      cannot go on past the next quote, and `arguments` is not what follows a value. */
  lemma NameRead(names: seq<string>, c: Call, b: string, x: string)
    requires WellFormedCall(names, c) && IsStringBody(b)
    requires b + ("\"" + x) == c.name + ("\"" + ArgKeyText(c))
    requires x != "" && x[0] != 'a'
    ensures b == c.name
  {
    hide IsStringBody, WellFormedMembers, ArgsText;
    var pre := c.w4 + ("," + c.w5);
    assert ArgKeyText(c) == pre + ("\"" + ("arguments\"" + (c.w6 + (":" + ArgsText(c)))));
    PreIsPlain(c.w4, c.w5);
    ReadPast(b, x, c.name, pre, "arguments\"" + (c.w6 + (":" + ArgsText(c))));
  }

  lemma ReadPast(b: string, x: string, name: string, pre: string, y: string)
    requires IsStringBody(b) && '"' !in name && '"' !in pre && pre != "" && pre[|pre| - 1] != '\\'
    requires b + ("\"" + x) == name + ("\"" + (pre + ("\"" + y)))
    requires x != "" && y != "" && x[0] != y[0]
    ensures b == name
  {
    hide IsStringBody;
    var t, q := b + ("\"" + x), |name| + 1 + |pre|;
    assert t[|b|] == '"' && t[|b| + 1] == x[0];
    assert t[q] == '"' && t[q + 1] == y[0] && t[q - 1] == pre[|pre| - 1];
    assert forall i :: 0 <= i < |name| ==> t[i] == name[i] && t[i] != '"';
    assert forall i :: |name| < i < q ==> t[i] == pre[i - |name| - 1] && t[i] != '"';
    assert forall i :: 0 <= i < |b| ==> t[i] == b[i];
    if |b| > q {
      QuoteIsEscaped(b, q);
    } else {
      assert b == t[..|b|] && name == t[..|name|];
    }
  }

  lemma SameRest(a: string, x: string, y: string)
    requires a + x == a + y
    ensures x == y
  {
    assert x == (a + x)[|a|..] && y == (a + y)[|a|..];
  }

  /** The first member of an object, with all that follows. */
  lemma FirstPair(list: PairList, end: string) returns (tail: string)
    ensures tail != "" && (tail[0] == ',' || tail[0] == '}')
    ensures var p := list.pair;
      PairsText(list) + ("}" + end) ==
      p.before + ("\"" + (p.key + ("\"" + (p.beforeColon + (":" + (p.afterColon + (Text(p.value) + (p.after + tail))))))))
  {
    hide Text;
    tail := (if list.MorePairs? then "," + PairsText(list.rest) else "") + ("}" + end);
    Grouped(list.pair, if list.MorePairs? then "," + PairsText(list.rest) else "", "}" + end);
  }

  lemma Grouped(p: Pair, more: string, end: string)
    ensures (PairText(p) + more) + end ==
      p.before + ("\"" + (p.key + ("\"" + (p.beforeColon + (":" + (p.afterColon + (Text(p.value) + (p.after + (more + end)))))))))
  {
    hide Text;
  }

  /** Key and colon, read as JSON, are the ones the machine asked for. */
  lemma KeyRead(names: seq<string>, c: Call, p: Pair, tail: string)
    requires WellFormedCall(names, c) && WellFormedPair(p)
    requires c.w1 + ("\"" + ("name\"" + NameText(c))) ==
      p.before + ("\"" + (p.key + ("\"" + (p.beforeColon + (":" + (p.afterColon + (Text(p.value) + (p.after + tail))))))))
    ensures Text(p.value) + (p.after + tail) == "\"" + (c.name + ("\"" + ArgKeyText(c)))
  {
    hide Text, ArgKeyText, WellFormed, WellFormedMembers, IsStringBody;
    var z := p.afterColon + (Text(p.value) + (p.after + tail));
    var y := p.beforeColon + (":" + z);
    WsSplit(c.w1, "\"" + ("name\"" + NameText(c)), p.before, "\"" + (p.key + ("\"" + y)));
    SameRest("\"", "name\"" + NameText(c), p.key + ("\"" + y));
    assert "name" + ("\"" + NameText(c)) == "name\"" + NameText(c);
    BodyEndsFirst(p.key, y, "name", NameText(c));
    var z2 := c.w3 + ("\"" + (c.name + ("\"" + ArgKeyText(c))));
    WsSplit(c.w2, ":" + z2, p.beforeColon, ":" + z);
    SameRest(":", z2, z);
    FirstByte(p.value);
    WsSplit(c.w3, "\"" + (c.name + ("\"" + ArgKeyText(c))), p.afterColon, Text(p.value) + (p.after + tail));
  }

  /** The text is a JSON value and the closer, with white space around the value. */
  predicate Reads(t: string, before: string, v: Value, after: string) {
    AllWs(before) && WellFormed(v) && AllWs(after) && t == before + (Text(v) + (after + CLOSER))
  }

  lemma ReadsName(names: seq<string>, c: Call, before: string, v: Value, after: string)
    requires WellFormedCall(names, c) && Reads(CallText(c), before, v, after)
    ensures IsStringBody(c.name)
  {
    hide IsStringBody, WellFormedMembers, WellFormedPairs, NameText, PairsText, ArgKeyText, WellFormedPair;
    var end := after + CLOSER;
    var inner := c.w1 + ("\"" + ("name\"" + NameText(c)));
    FirstByte(v);
    WsSplit(c.w0, "{" + inner, before, Text(v) + end);
    assert v.Object? && WellFormedMembers(v.members) by { ObjectWellFormed(v.members); }
    assert Text(v) + end == "{" + (MembersText(v.members) + ("}" + end));
    SameRest("{", inner, MembersText(v.members) + ("}" + end));
    MembersRead(names, c, v.members, end);
  }

  lemma MembersRead(names: seq<string>, c: Call, m: Members, end: string)
    requires WellFormedCall(names, c) && WellFormedMembers(m)
    requires c.w1 + ("\"" + ("name\"" + NameText(c))) == MembersText(m) + ("}" + end)
    ensures IsStringBody(c.name)
  {
    hide IsStringBody, NameText, PairsText, ArgKeyText, WellFormedPair, WellFormed;
    match m {
      case NoMembers(gap) =>
        WsSplit(c.w1, "\"" + ("name\"" + NameText(c)), gap, "}" + end);
      case Members(list) =>
        var p := list.pair;
        assert WellFormedPair(p);
        var tail := FirstPair(list, end);
        KeyRead(names, c, p, tail);
        PairRead(names, c, p, tail);
    }
  }

  lemma PairRead(names: seq<string>, c: Call, p: Pair, tail: string)
    requires WellFormedCall(names, c) && WellFormedPair(p)
    requires tail != "" && (tail[0] == ',' || tail[0] == '}')
    requires Text(p.value) + (p.after + tail) == "\"" + (c.name + ("\"" + ArgKeyText(c)))
    ensures IsStringBody(c.name)
  {
    hide IsStringBody, ArgKeyText, WellFormedMembers, Text;
    FirstByte(p.value);
    var x := p.after + tail;
    assert (Text(p.value) + x)[0] == '"';
    var b := p.value.body;
    StringText(b);
    StringWellFormed(b);
    assert ("\"" + (b + "\"")) + x == "\"" + (b + ("\"" + x));
    SameRest("\"", b + ("\"" + x), c.name + ("\"" + ArgKeyText(c)));
    assert x[0] != 'a';
    NameRead(names, c, b, x);
  }

  lemma StringText(b: string)
    ensures Text(String(b)) == "\"" + (b + "\"")
  {}

  ghost predicate IsJsonThenCloser(t: string) {
    exists before, v, after :: Reads(t, before, v, after)
  }

  /** The machine lets registered names through byte for byte: the call it accepts is a
      JSON text exactly when the name it carries is a JSON string body. */
  lemma CallIsJsonExactly(names: seq<string>, c: Call)
    requires WellFormedCall(names, c)
    ensures IsJsonThenCloser(CallText(c)) <==> IsStringBody(c.name)
  {
    hide IsStringBody, WellFormed, Text, CallText, WellFormedMembers;
    if IsStringBody(c.name) {
      CallIsJson(names, c);
      assert Reads(CallText(c), c.w0, CallTree(c), c.w9);
    }
    if IsJsonThenCloser(CallText(c)) {
      var before, v, after :| Reads(CallText(c), before, v, after);
      ReadsName(names, c, before, v, after);
    }
  }

  function BareCall(name: string): Call {
    Call("", "", "", "", name, "", "", "", "", NoMembers(""), "", "")
  }

  /** For a list of registered names: everything the machine closes on is JSON exactly
      when every quote-free name is a string body. */
  lemma AcceptsOnlyJsonExactly(names: seq<string>, litWord: string)
    ensures (forall w :: Closes(Init(names, litWord), w) ==> IsJsonThenCloser(w)) <==>
            (forall n :: n in names && '"' !in n ==> IsStringBody(n))
  {
    hide IsStringBody, CallText, IsJsonThenCloser, Closes;
    forall w ensures Closes(Init(names, litWord), w) <==> IsToolCall(names, w) {
      ClosesExactlyOnToolCalls(names, litWord, w);
    }
    if forall n :: n in names && '"' !in n ==> IsStringBody(n) {
      forall w | IsToolCall(names, w) ensures IsJsonThenCloser(w) {
        var c :| WellFormedCall(names, c) && w == CallText(c);
        CallIsJsonExactly(names, c);
      }
    }
    if forall w :: Closes(Init(names, litWord), w) ==> IsJsonThenCloser(w) {
      forall n | n in names && '"' !in n ensures IsStringBody(n) {
        var c := BareCall(n);
        assert WellFormedCall(names, c);
        assert IsToolCall(names, CallText(c));
        CallIsJsonExactly(names, c);
      }
    }
  }
}
