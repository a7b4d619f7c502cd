/** Routing a marked-up token stream to its channels: a one-pass reference splitter,
    and why it does not matter how the stream is chopped. */
module StreamSplit {

  datatype Chan = TEXT | THINK | TOOL

  const T_OPEN := "<think>"
  const T_CLOSE := "</think>"
  const C_OPEN := "<tool_call>"
  const C_CLOSE := "</tool_call>"

  /** What a channel looks for. */
  function Markers(chan: Chan): seq<string> {
    match chan
    case TEXT => [T_OPEN, C_OPEN, C_CLOSE]
    case THINK => [T_CLOSE]
    case TOOL => [C_CLOSE]
  }

  /** The channel behind a marker; a closer met in TEXT is a stray one. */
  function Behind(chan: Chan, m: string): Chan {
    if chan != TEXT || m == C_CLOSE then TEXT else if m == T_OPEN then THINK else TOOL
  }

  datatype Event = Byte(chan: Chan, c: char) | Drop(chan: Chan, marker: string)
  datatype Parted = Parted(events: seq<Event>, chan: Chan, hold: string)

  /** A marker of the channel stands at the front of `t`. */
  predicate Fronts(m: string, t: string) {
    m <= t
  }

  predicate AnyFront(chan: Chan, t: string) {
    exists i :: 0 <= i < |Markers(chan)| && Fronts(Markers(chan)[i], t)
  }

  function Front(chan: Chan, t: string): (m: string)
    requires AnyFront(chan, t)
    ensures m in Markers(chan) && m <= t && |m| >= 7
  {
    if Markers(chan)[0] <= t then Markers(chan)[0]
    else if |Markers(chan)| > 1 && Markers(chan)[1] <= t then Markers(chan)[1]
    else Markers(chan)[|Markers(chan)| - 1]
  }

  /** `t` may still become a marker of the channel. */
  predicate Partial(chan: Chan, t: string) {
    t != "" && exists i :: 0 <= i < |Markers(chan)| && t < Markers(chan)[i]
  }

  /** One pass over the text, byte by byte: a marker is dropped, the end of the text is
      held back if it may become one, every other byte goes to the current channel. */
  function Split(chan: Chan, t: string): Parted
    decreases |t|
  {
    if t == "" then Parted([], chan, "")
    else if AnyFront(chan, t) then
      var m := Front(chan, t);
      var r := Split(Behind(chan, m), t[|m|..]);
      r.(events := [Drop(chan, m)] + r.events)
    else if Partial(chan, t) then Parted([], chan, t)
    else
      var r := Split(chan, t[1..]);
      r.(events := [Byte(chan, t[0])] + r.events)
  }

  // ------------------------------------------------- chopping does not matter

  lemma PrefixCases(m: string, x: string, y: string)
    requires !(x < m)
    ensures (m <= x + y) == (m <= x)
    ensures x != "" ==> !(x + y < m)
  {
    if |m| <= |x| {
      assert (x + y)[..|m|] == x[..|m|];
    } else {
      assert (x + y)[..|x|] == x;
    }
  }

  lemma FrontOfPrefix(chan: Chan, x: string, y: string)
    requires x != "" && !Partial(chan, x)
    ensures AnyFront(chan, x + y) == AnyFront(chan, x)
    ensures !Partial(chan, x + y)
  {
    var ms := Markers(chan);
    forall i | 0 <= i < |ms| ensures Fronts(ms[i], x + y) == Fronts(ms[i], x) && !(x + y < ms[i]) {
      PrefixCases(ms[i], x, y);
    }
  }

  /** No two markers of a channel can stand at the front of one text. */
  lemma FrontUnique(chan: Chan, t: string, m: string)
    requires m in Markers(chan) && m <= t
    ensures AnyFront(chan, t) && Front(chan, t) == m
  {
    var i :| 0 <= i < |Markers(chan)| && Markers(chan)[i] == m;
    assert Fronts(Markers(chan)[i], t);
    SecondByte(chan, m);
    SecondByte(chan, Front(chan, t));
  }

  lemma SecondByte(chan: Chan, m: string)
    requires m in Markers(chan)
    ensures |m| > 6
    ensures chan == TEXT ==> m == (if m[1] == 't' then (if m[2] == 'h' then T_OPEN else C_OPEN) else C_CLOSE)
    ensures chan != TEXT ==> m == Markers(chan)[0]
  {
    assert T_OPEN[1] == 't' && C_OPEN[1] == 't' && C_CLOSE[1] == '/' && T_OPEN[2] == 'h' && C_OPEN[2] == 'o';
  }

  // The four cases of the one-pass splitter.

  lemma SplitEmpty(chan: Chan)
    ensures Split(chan, "") == Parted([], chan, "")
  {}

  lemma SplitFront(chan: Chan, t: string)
    requires AnyFront(chan, t)
    ensures var m := Front(chan, t); var r := Split(Behind(chan, m), t[|m|..]);
      Split(chan, t) == Parted([Drop(chan, m)] + r.events, r.chan, r.hold)
  {
    hide AnyFront, Front, Partial;
    FrontNonEmpty(chan, t);
  }

  lemma FrontNonEmpty(chan: Chan, t: string)
    requires AnyFront(chan, t)
    ensures t != ""
  {
    hide AnyFront;
    var m := Front(chan, t);
  }

  lemma SplitHold(chan: Chan, t: string)
    requires !AnyFront(chan, t) && Partial(chan, t)
    ensures Split(chan, t) == Parted([], chan, t)
  {
    hide AnyFront, Front;
  }

  lemma SplitByte(chan: Chan, t: string)
    requires t != "" && !AnyFront(chan, t) && !Partial(chan, t)
    ensures var r := Split(chan, t[1..]); Split(chan, t) == Parted([Byte(chan, t[0])] + r.events, r.chan, r.hold)
  {
    hide AnyFront, Front, Partial;
  }

  /** Splitting a text in two goes on where the first part stopped: same bytes to the
      same channels, same channel and same held bytes at the end. */
  lemma {:induction false} SplitConcat(chan: Chan, x: string, y: string)
    ensures var a := Split(chan, x); var b := Split(a.chan, a.hold + y);
      Split(chan, x + y) == Parted(a.events + b.events, b.chan, b.hold)
    decreases |x|
  {
    hide AnyFront, Partial, Front, Split;
    if x == "" {
      SplitEmpty(chan);
      assert x + y == y && "" + y == y;
    } else if AnyFront(chan, x) {
      FrontStays(chan, x, y);
      SplitFront(chan, x);
      SplitFront(chan, x + y);
      var m := Front(chan, x);
      assert (x + y)[|m|..] == x[|m|..] + y;
      SplitConcat(Behind(chan, m), x[|m|..], y);
    } else if Partial(chan, x) {
      SplitHold(chan, x);
    } else {
      FrontOfPrefix(chan, x, y);
      SplitByte(chan, x);
      SplitByte(chan, x + y);
      assert (x + y)[1..] == x[1..] + y;
      SplitConcat(chan, x[1..], y);
    }
  }

  lemma FrontStays(chan: Chan, x: string, y: string)
    requires AnyFront(chan, x)
    ensures AnyFront(chan, x + y) && Front(chan, x + y) == Front(chan, x)
  {
    var m := Front(chan, x);
    FrontUnique(chan, x, m);
    assert m <= x + y;
    FrontUnique(chan, x + y, m);
  }

  // ------------------------------------------------------------- conservation

  function Spell(events: seq<Event>): string {
    if events == [] then ""
    else (match events[0] case Byte(_, c) => [c] case Drop(_, m) => m) + Spell(events[1..])
  }

  /** Routed bytes with the dropped markers put back, and the held bytes, are the input. */
  lemma {:induction false} SplitSpells(chan: Chan, t: string)
    ensures Spell(Split(chan, t).events) + Split(chan, t).hold == t
    decreases |t|
  {
    hide AnyFront, Partial, Front, Split, Spell;
    SpellNil();
    if t == "" {
      SplitEmpty(chan);
    } else if AnyFront(chan, t) {
      SplitFront(chan, t);
      var m := Front(chan, t);
      var r := Split(Behind(chan, m), t[|m|..]);
      SplitSpells(Behind(chan, m), t[|m|..]);
      SpellCons(Drop(chan, m), r.events);
      assert t == m + t[|m|..];
      Assoc(m, Spell(r.events), r.hold);
    } else if Partial(chan, t) {
      SplitHold(chan, t);
      assert "" + t == t;
    } else {
      SplitByte(chan, t);
      var r := Split(chan, t[1..]);
      SplitSpells(chan, t[1..]);
      SpellCons(Byte(chan, t[0]), r.events);
      Assoc([t[0]], Spell(r.events), r.hold);
    }
  }

  lemma Assoc(a: string, b: string, c: string)
    ensures (a + b) + c == a + (b + c)
  {}

  lemma SpellNil()
    ensures Spell([]) == ""
  {}

  lemma SpellCons(e: Event, rest: seq<Event>)
    ensures Spell([e] + rest) == (match e case Byte(_, c) => [c] case Drop(_, m) => m) + Spell(rest)
  {
    assert ([e] + rest)[1..] == rest;
  }

  /** What is held back is a proper beginning of a marker of the channel it waits in:
      at most 11 bytes, never a whole marker. */
  lemma {:induction false} HoldIsPartial(chan: Chan, t: string)
    ensures var r := Split(chan, t); (r.hold != "" ==> Partial(r.chan, r.hold)) && |r.hold| <= 11
    decreases |t|
  {
    hide AnyFront, Front, Partial, Split;
    if t == "" {
      SplitEmpty(chan);
    } else if AnyFront(chan, t) {
      SplitFront(chan, t);
      var m := Front(chan, t);
      HoldIsPartial(Behind(chan, m), t[|m|..]);
    } else if Partial(chan, t) {
      SplitHold(chan, t);
      PartialLength(chan, t);
    } else {
      SplitByte(chan, t);
      HoldIsPartial(chan, t[1..]);
    }
  }

  lemma PartialLength(chan: Chan, t: string)
    requires Partial(chan, t)
    ensures |t| <= 11
  {
    var i :| 0 <= i < |Markers(chan)| && t < Markers(chan)[i];
    assert |Markers(chan)[i]| <= 12;
  }

  // ------------------------------------------- jumping from marker to marker

  predicate AtPos(t: string, m: string, p: int) {
    0 <= p <= |t| && Fronts(m, t[p..])
  }

  predicate NoMarkerBefore(chan: Chan, t: string, e: nat) {
    forall m, p :: m in Markers(chan) && 0 <= p < e ==> !AtPos(t, m, p)
  }

  /** All bytes of `s` to one channel. */
  function Route(chan: Chan, s: string): seq<Event> {
    if s == "" then [] else [Byte(chan, s[0])] + Route(chan, s[1..])
  }

  lemma {:induction false} RouteConcat(chan: Chan, a: string, b: string)
    ensures Route(chan, a + b) == Route(chan, a) + Route(chan, b)
  {
    if a == "" {
      assert a + b == b;
    } else {
      assert (a + b)[1..] == a[1..] + b;
      RouteConcat(chan, a[1..], b);
    }
  }

  /** A marker holds its opening angle at the front only. */
  lemma AngleOnlyAtFront(chan: Chan, m: string, k: int)
    requires m in Markers(chan) && 0 <= k < |m|
    ensures m[k] == '<' <==> k == 0
    ensures |m| > 6
  {
    assert m == T_OPEN || m == T_CLOSE || m == C_OPEN || m == C_CLOSE;
    if m == T_OPEN {
      assert T_OPEN == ['<', 't', 'h', 'i', 'n', 'k', '>'];
    } else if m == T_CLOSE {
      assert T_CLOSE == ['<', '/', 't', 'h', 'i', 'n', 'k', '>'];
    } else if m == C_OPEN {
      assert C_OPEN == ['<', 't', 'o', 'o', 'l', '_', 'c', 'a', 'l', 'l', '>'];
    } else {
      assert C_CLOSE == ['<', '/', 't', 'o', 'o', 'l', '_', 'c', 'a', 'l', 'l', '>'];
    }
  }

  /** In front of a marker nothing can be the beginning of one. */
  lemma NotPartialBefore(chan: Chan, t: string, e: nat, m: string)
    requires m in Markers(chan) && 0 < e && AtPos(t, m, e)
    ensures !Partial(chan, t)
  {
    AngleOnlyAtFront(chan, m, 0);
    assert t[e..][0] == t[e] == '<';
    if Partial(chan, t) {
      var i :| 0 <= i < |Markers(chan)| && t < Markers(chan)[i];
      AngleOnlyAtFront(chan, Markers(chan)[i], e);
    }
  }

  lemma NoFront(chan: Chan, t: string, e: nat)
    requires 0 < e && NoMarkerBefore(chan, t, e)
    ensures !AnyFront(chan, t)
  {
    if AnyFront(chan, t) {
      var m := Front(chan, t);
      assert t[0..] == t;
      assert AtPos(t, m, 0);
    }
  }

  lemma ShiftNoMarker(chan: Chan, t: string, e: nat)
    requires 0 < e && t != "" && NoMarkerBefore(chan, t, e)
    ensures NoMarkerBefore(chan, t[1..], e - 1)
  {
    forall m, p | m in Markers(chan) && 0 <= p < e - 1 ensures !AtPos(t[1..], m, p) {
      if AtPos(t[1..], m, p) {
        assert t[1..][p..] == t[p + 1..];
        assert AtPos(t, m, p + 1);
      }
    }
  }

  /** Up to the first marker every byte is routed, then the marker is dropped. */
  lemma {:induction false} SplitAtMarker(chan: Chan, t: string, e: nat, m: string)
    requires m in Markers(chan) && AtPos(t, m, e) && NoMarkerBefore(chan, t, e)
    ensures e + |m| <= |t|
    ensures var r := Split(Behind(chan, m), t[e + |m|..]);
      Split(chan, t) == r.(events := Route(chan, t[..e]) + ([Drop(chan, m)] + r.events))
    decreases e
  {
    hide AnyFront, Partial, Front, Split, NoMarkerBefore;
    AngleOnlyAtFront(chan, m, 0);
    if e == 0 {
      assert t[0..] == t;
      FrontUnique(chan, t, m);
      SplitFront(chan, t);
    } else {
      NotPartialBefore(chan, t, e, m);
      NoFront(chan, t, e);
      SplitByte(chan, t);
      ShiftNoMarker(chan, t, e);
      assert t[1..][e - 1..] == t[e..];
      SplitAtMarker(chan, t[1..], e - 1, m);
      assert t[1..][e - 1 + |m|..] == t[e + |m|..];
      assert t[..e][1..] == t[1..][..e - 1];
    }
  }

  function Tail(t: string, k: nat): string
    requires k <= |t|
  {
    t[|t| - k..]
  }

  predicate LongestPartial(chan: Chan, t: string, keep: nat) {
    && keep <= |t|
    && (keep > 0 ==> Partial(chan, Tail(t, keep)))
    && forall k :: keep < k <= |t| ==> !Partial(chan, Tail(t, k))
  }

  /** Without any marker everything is routed but the longest tail that may become one. */
  lemma {:induction false} SplitNoMarker(chan: Chan, t: string, keep: nat)
    requires NoMarkerBefore(chan, t, |t|) && LongestPartial(chan, t, keep)
    ensures Split(chan, t) == Parted(Route(chan, t[..|t| - keep]), chan, t[|t| - keep..])
    decreases |t|
  {
    hide AnyFront, Partial, Front, Split, NoMarkerBefore;
    if t == "" {
      SplitEmpty(chan);
    } else {
      NoFront(chan, t, |t|);
      assert Tail(t, |t|) == t;
      if keep == |t| {
        SplitHold(chan, t);
      } else {
        SplitByte(chan, t);
        ShiftNoMarker(chan, t, |t|);
        forall k | keep <= k <= |t[1..]| ensures Tail(t[1..], k) == Tail(t, k) {}
        SplitNoMarker(chan, t[1..], keep);
        assert t[..|t| - keep][1..] == t[1..][..|t[1..]| - keep];
      }
    }
  }

  // ---------------------------------------------------- marked up and split again

  /** Text, and behind it a think block or a tool call. */
  datatype Block = Block(before: string, call: bool, inner: string)

  ghost predicate Free(s: string, m: string) {
    forall p :: !AtPos(s, m, p)
  }

  /** No marker stands where it would be taken for one. */
  ghost predicate Clean(b: Block) {
    PlainText(b.before) && Free(b.inner, if b.call then "</tool_call>" else "</think>")
  }

  ghost predicate PlainText(s: string) {
    Free(s, "<think>") && Free(s, "<tool_call>") && Free(s, "</tool_call>")
  }

  /** The stream a model writes for these blocks and the text behind them. */
  function Markup(bs: seq<Block>, last: string): string {
    if bs == [] then last
    else bs[0].before + BlockText(bs[0], Markup(bs[1..], last))
  }

  function BlockText(b: Block, rest: string): string {
    if b.call then "<tool_call>" + (b.inner + ("</tool_call>" + rest))
    else "<think>" + (b.inner + ("</think>" + rest))
  }

  /** Where its bytes belong, the markers dropped. */
  function Belongs(bs: seq<Block>): seq<Event> {
    if bs == [] then []
    else
      var b := bs[0];
      Route(TEXT, b.before) + ([Drop(TEXT, if b.call then "<tool_call>" else "<think>")]
      + (Route(if b.call then TOOL else THINK, b.inner)
         + ([Drop(if b.call then TOOL else THINK, if b.call then "</tool_call>" else "</think>")] + Belongs(bs[1..]))))
  }

  /** What stands in front of `u` is in `s`, unless it reaches into `u`. */
  lemma MarkerInFront(s: string, u: string, n: string, p: int)
    ensures AtPos(s + u, n, p) && 0 <= p && p + |n| <= |s| ==> AtPos(s, n, p)
    ensures AtPos(s + u, n, p) && 0 <= p < |s| < p + |n| && u != "" ==> n[|s| - p] == u[0]
  {
    if 0 <= p <= |s| && p + |n| <= |s + u| {
      assert (s + u)[p..][..|n|] == (s + u)[p..p + |n|];
      assert p + |n| <= |s| ==> s[p..][..|n|] == (s + u)[p..p + |n|];
      if p < |s| < p + |n| { assert (s + u)[p..p + |n|][|s| - p] == u[0]; }
    }
  }

  lemma NotFree(s: string, n: string, p: int)
    requires Free(s, n)
    ensures !AtPos(s, n, p)
  {}

  /** A marker cannot begin in a clean text and end in the marker behind it. */
  lemma CleanUpTo(chan: Chan, s: string, m: string, rest: string)
    requires m in Markers(chan) && forall n :: n in Markers(chan) ==> Free(s, n)
    ensures AtPos(s + (m + rest), m, |s|) && NoMarkerBefore(chan, s + (m + rest), |s|)
  {
    var t := s + (m + rest);
    assert t[|s|..] == m + rest;
    AngleOnlyAtFront(chan, m, 0);
    hide AtPos, Free;
    forall n, p | n in Markers(chan) && 0 <= p < |s| ensures !AtPos(t, n, p) {
      MarkerInFront(s, m + rest, n, p);
      if |s| < p + |n| { AngleOnlyAtFront(chan, n, |s| - p); } else { NotFree(s, n, p); }
    }
  }

  /** A clean text, a marker, and what is behind it. */
  lemma CleanPart(chan: Chan, s: string, m: string, rest: string)
    requires m in Markers(chan) && forall n :: n in Markers(chan) ==> Free(s, n)
    ensures var r := Split(Behind(chan, m), rest);
      Split(chan, s + (m + rest)) == Parted(Route(chan, s) + ([Drop(chan, m)] + r.events), r.chan, r.hold)
  {
    hide Split, NoMarkerBefore, AtPos, Free;
    var t := s + (m + rest);
    CleanUpTo(chan, s, m, rest);
    SplitAtMarker(chan, t, |s|, m);
    assert t[..|s|] == s && t[|s| + |m|..] == rest;
  }

  lemma BlockSplits(b: Block, rest: string)
    requires Clean(b)
    ensures var r := Split(TEXT, rest); var c := if b.call then TOOL else THINK;
      var m := if b.call then "<tool_call>" else "<think>"; var n := if b.call then "</tool_call>" else "</think>";
      Split(TEXT, b.before + BlockText(b, rest)) ==
        Parted(Route(TEXT, b.before) + ([Drop(TEXT, m)] + (Route(c, b.inner) + ([Drop(c, n)] + r.events))), r.chan, r.hold)
  {
    hide Split, Free;
    if b.call {
      CleanPart(TOOL, b.inner, "</tool_call>", rest);
      CleanPart(TEXT, b.before, "<tool_call>", b.inner + ("</tool_call>" + rest));
    } else {
      CleanPart(THINK, b.inner, "</think>", rest);
      CleanPart(TEXT, b.before, "<think>", b.inner + ("</think>" + rest));
    }
  }

  /** The splitter reads back what was marked up: every byte goes where it belongs, and of
      the text behind the last block only a tail that may become a marker is held. */
  lemma {:induction false} MarkupSplits(bs: seq<Block>, last: string) returns (keep: nat)
    requires (forall i :: 0 <= i < |bs| ==> Clean(bs[i])) && PlainText(last)
    ensures keep <= |last| && LongestPartial(TEXT, last, keep)
    ensures Split(TEXT, Markup(bs, last)) ==
            Parted(Belongs(bs) + Route(TEXT, last[..|last| - keep]), TEXT, last[|last| - keep..])
  {
    hide Split, Free, Partial, Route;
    if bs == [] {
      keep := Longest(TEXT, last, |last|);
      PlainHasNone(last);
      SplitNoMarker(TEXT, last, keep);
    } else {
      keep := MarkupSplits(bs[1..], last);
      BlockSplits(bs[0], Markup(bs[1..], last));
      EventsJoined(bs, Route(TEXT, last[..|last| - keep]));
    }
  }

  lemma EventsJoined(bs: seq<Block>, x: seq<Event>)
    requires bs != []
    ensures var b := bs[0]; var c := if b.call then TOOL else THINK;
      var m := if b.call then "<tool_call>" else "<think>"; var n := if b.call then "</tool_call>" else "</think>";
      Belongs(bs) + x ==
        Route(TEXT, b.before) + ([Drop(TEXT, m)] + (Route(c, b.inner) + ([Drop(c, n)] + (Belongs(bs[1..]) + x))))
  {
    hide Route;
  }

  lemma PlainHasNone(s: string)
    requires PlainText(s)
    ensures NoMarkerBefore(TEXT, s, |s|)
  {
    hide AtPos;
  }

  lemma {:induction false} Longest(chan: Chan, t: string, n: nat) returns (keep: nat)
    requires n <= |t| && forall k :: n < k <= |t| ==> !Partial(chan, Tail(t, k))
    ensures LongestPartial(chan, t, keep)
  {
    hide Partial;
    if n == 0 || Partial(chan, Tail(t, n)) { keep := n; } else { keep := Longest(chan, t, n - 1); }
  }
}
