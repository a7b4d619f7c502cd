/** The heads of streamed calls as a language: what is accepted, what can still become a
    head, and what never will. */
module HeadLanguage {
  import Json
  import opened JsonRepair
  import JsonMending
  import opened CallHead
  import opened CallRecovery

  /** A head of the expected shape with arguments opening behind it. */
  ghost predicate IsHead(t: string) {
    exists h, args :: Proper(h) && OpensArgs(args) && t == Body(h, args)
  }

  lemma MatchedIsHead(t: string)
    ensures MatchHead(t).Matched? <==> IsHead(t)
  {
    hide MatchHead, Proper, Body;
    if MatchHead(t).Matched? { var h := MatchedGives(t); }
    if IsHead(t) {
      var h, args :| Proper(h) && OpensArgs(args) && t == Body(h, args);
      BodyMatches(h, args);
    }
  }

  // ------------------------------------------- what is undecided can be completed

  /** A literal that wants more is half read. */
  lemma {:induction false} LitHalf(t: string, s: string)
    requires Lit(t, s).More?
    ensures |t| < |s| && s == t + s[|t|..]
    decreases |s|
  {
    if t != "" {
      LitHalf(t[1..], s[1..]);
      assert s == [s[0]] + s[1..] && t == [t[0]] + t[1..];
      assert s[1..][|t| - 1..] == s[|t|..];
    }
  }

  lemma WordCompletes(t: string, s: string, rest: string) returns (x: string)
    requires Word(t, s).More? && s != "" && !Json.IsWs(s[0])
    ensures Word(t + x, s) == Past(rest)
  {
    hide Lit;
    var u := SkipWs(t);
    if u == "" {
      x := s + rest;
    } else {
      LitHalf(u, s);
      x := s[|u|..] + rest;
      assert u + x == (u + s[|u|..]) + rest;
    }
    SkipFits(t, x);
    LitReads(s, rest);
    if u == "" { SkipNone(s + rest); }
  }

  lemma SkipNone(t: string)
    requires t != "" && !Json.IsWs(t[0])
    ensures SkipWs(t) == t
  {}

  lemma WordAlone(s: string, rest: string)
    requires s != "" && !Json.IsWs(s[0])
    ensures Word(s + rest, s) == Past(rest)
  {
    hide Lit;
    SkipNone(s + rest);
    LitReads(s, rest);
  }

  const FROM_COLON := ":{"
  const FROM_KEY := KEY + FROM_COLON
  const FROM_COMMA := "," + FROM_KEY
  const FROM_NAME := "x\"" + FROM_COMMA

  lemma ColonMatches(name: string)
    ensures AfterKey(FROM_COLON, name).Matched?
  {
    assert FROM_COLON == ":" + "{";
    WordAlone(":", "{");
  }

  lemma KeyMatches(name: string)
    ensures MatchKey(FROM_KEY, name).Matched?
  {
    hide AfterKey, Lit;
    SkipNone(FROM_KEY);
    LitReads(KEY, FROM_COLON);
    ColonMatches(name);
  }

  lemma CommaMatches(name: string)
    ensures AfterName(FROM_COMMA, name).Matched?
  {
    hide MatchKey, Lit;
    WordAlone(",", FROM_KEY);
    KeyMatches(name);
  }

  lemma NameMatches()
    ensures MatchName(FROM_NAME).Matched?
  {
    hide AfterName;
    assert FROM_NAME == "x" + ("\"" + FROM_COMMA);
    NameReads("x", FROM_COMMA);
    CommaMatches("x");
  }

  lemma ArgsComplete(t: string, name: string) returns (x: string)
    requires MatchArgs(t, name) == Undecided
    ensures MatchArgs(t + x, name).Matched?
  {
    x := "{";
    SkipFits(t, x);
    SkipNone(x);
  }

  lemma ColonCompletes(t: string, name: string) returns (x: string)
    requires AfterKey(t, name) == Undecided
    ensures AfterKey(t + x, name).Matched?
  {
    hide Word, MatchArgs;
    if Word(t, ":").More? {
      x := WordCompletes(t, ":", "{");
      OpenMatches(name);
    } else {
      x := ArgsComplete(Word(t, ":").rest, name);
      WordFits(t, ":", x);
    }
  }

  lemma OpenMatches(name: string)
    ensures MatchArgs("{", name).Matched?
  {}

  lemma KeyCompletes(t: string, name: string) returns (x: string)
    requires MatchKey(t, name) == Undecided
    ensures MatchKey(t + x, name).Matched?
  {
    hide AfterKey;
    if KeyPast(t).More? {
      x := KeyHalf(t);
      ColonMatches(name);
    } else {
      x := ColonCompletes(KeyPast(t).rest, name);
      KeyLook(t, x);
    }
  }

  lemma KeyHalf(t: string) returns (x: string)
    requires KeyPast(t).More?
    ensures KeyPast(t + x) == Past(FROM_COLON)
  {
    hide Lit;
    var u := SkipWs(t);
    if u == "" {
      x := FROM_KEY;
      SkipNone(FROM_KEY);
    } else {
      LitHalf(Unquoted(u), KEY);
      x := KEY[|Unquoted(u)|..] + FROM_COLON;
      Unquote(u, x);
      assert Unquoted(u) + x == (Unquoted(u) + KEY[|Unquoted(u)|..]) + FROM_COLON;
    }
    SkipFits(t, x);
    LitReads(KEY, FROM_COLON);
  }

  lemma CommaCompletes(t: string, name: string) returns (x: string)
    requires AfterName(t, name) == Undecided
    ensures AfterName(t + x, name).Matched?
  {
    hide Word, MatchKey;
    if Word(t, ",").More? {
      x := WordCompletes(t, ",", FROM_KEY);
      KeyMatches(name);
    } else {
      x := KeyCompletes(Word(t, ",").rest, name);
      WordFits(t, ",", x);
    }
  }

  lemma {:induction false} NameOpen(t: string)
    requires NameOf(t) == NeedMore
    ensures '"' !in t && '\\' !in t
  {
    if t != "" {
      NameOpen(t[1..]);
      assert t == [t[0]] + t[1..];
    }
  }

  lemma {:induction false} NameOfText(n: string, rest: string)
    requires '"' !in n && '\\' !in n
    ensures NameOf(n + ("\"" + rest)) == Name(n, rest)
  {
    NameReads(n, rest);
  }

  lemma NameCompletes(t: string) returns (x: string)
    requires MatchName(t) == Undecided
    ensures MatchName(t + x).Matched?
  {
    hide AfterName, NameOf;
    if NameOf(t) == NeedMore {
      NameOpen(t);
      var n := if t == "" then "x" else t;
      NameOfText(n, FROM_COMMA);
      CommaMatches(n);
      x := (if t == "" then "x" else "") + ("\"" + FROM_COMMA);
      assert t + x == n + ("\"" + FROM_COMMA);
    } else {
      x := CommaCompletes(NameOf(t).rest, NameOf(t).name);
      NameOfFits(t, x);
    }
  }

  function Spelled(ws: seq<string>, rest: string): string {
    if ws == [] then rest else ws[0] + Spelled(ws[1..], rest)
  }

  lemma {:induction false} WordsRead(ws: seq<string>, rest: string)
    requires forall i :: 0 <= i < |ws| ==> ws[i] != "" && !Json.IsWs(ws[i][0])
    ensures Words(Spelled(ws, rest), ws) == Past(rest)
  {
    hide Word;
    if ws != [] {
      WordAlone(ws[0], Spelled(ws[1..], rest));
      WordsRead(ws[1..], rest);
    }
  }

  lemma {:induction false} WordsComplete(t: string, ws: seq<string>, rest: string) returns (x: string)
    requires Words(t, ws).More? && forall i :: 0 <= i < |ws| ==> ws[i] != "" && !Json.IsWs(ws[i][0])
    ensures Words(t + x, ws) == Past(rest)
    decreases |ws|
  {
    hide Word;
    if Word(t, ws[0]).More? {
      x := WordCompletes(t, ws[0], Spelled(ws[1..], rest));
      WordsRead(ws[1..], rest);
    } else {
      x := WordsComplete(Word(t, ws[0]).rest, ws[1..], rest);
      WordFits(t, ws[0], x);
    }
  }

  /** What is undecided can still become a head. */
  lemma UndecidedCompletes(t: string) returns (x: string)
    requires MatchHead(t) == Undecided
    ensures MatchHead(t + x).Matched?
  {
    hide Words, MatchName;
    if Words(t, OPENERS).More? {
      x := WordsComplete(t, OPENERS, FROM_NAME);
      NameMatches();
    } else {
      x := NameCompletes(Words(t, OPENERS).rest);
      WordsFit(t, OPENERS, x);
    }
  }

  /** The verdict on any bytes says exactly what can come of them: a head, or still one, or
      never one. */
  lemma VerdictExactly(t: string)
    ensures MatchHead(t).Matched? <==> IsHead(t)
    ensures MatchHead(t) == Undecided <==> !IsHead(t) && exists x :: IsHead(t + x)
    ensures MatchHead(t) == Refused <==> forall x :: !IsHead(t + x)
  {
    hide MatchHead, IsHead;
    MatchedIsHead(t);
    assert t + "" == t;
    if MatchHead(t) == Undecided {
      var x := UndecidedCompletes(t);
      MatchedIsHead(t + x);
    }
    if MatchHead(t) == Refused {
      forall x ensures !IsHead(t + x) {
        HeadFits(t, x);
        MatchedIsHead(t + x);
      }
    }
  }

  // ---------------------------------------------------------------- whole calls

  /** A whole call: behind its head a drafted object, white space and the call's own brace.
      It streams under its name, its arguments come out as the object meant, and exactly
      what follows its brace is left for the next call. */
  lemma WholeCallStreams(h: Head, d: JsonMending.DraftMembers, ws: string, rest: string)
    requires Proper(h) && JsonMending.MembersOk(JsonMending.STREAMED, d) && Json.AllWs(ws)
    ensures var args := JsonMending.DraftText(d) + (ws + ("}" + rest));
      var r := StreamRun(STREAM_START, args);
      && MatchHead(Body(h, args)) == Matched(h.name, args)
      && r.st.done && r.out == JsonMending.MeantText(d) && Trail(r.rest) == rest
  {
    hide MatchHead, Proper, Body, StreamRun, JsonMending.MembersOk, JsonMending.MeantText, JsonMending.MembersPiece;
    var args := JsonMending.DraftText(d) + (ws + ("}" + rest));
    assert args[0] == '{';
    BodyMatches(h, args);
    JsonMending.DraftIsStreamed(d, ws + ("}" + rest));
    TrailIs(ws, '}', rest);
  }
}
