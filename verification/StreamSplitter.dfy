/** The splitter as the server runs it: piece by piece, jumping from marker to marker. */
module StreamSplitter {
  import opened StreamSplit
  import opened Strings

  type Segment = (Chan, string)

  /** The bytes of segments, each with its channel; empty segments carry none. */
  function Routed(out: seq<Segment>): seq<Event> {
    if out == [] then [] else Route(out[0].0, out[0].1) + Routed(out[1..])
  }

  /** The routed bytes among the events. */
  function BytesOf(events: seq<Event>): seq<Event> {
    if events == [] then []
    else (if events[0].Byte? then [events[0]] else []) + BytesOf(events[1..])
  }

  lemma {:induction false} RoutedConcat(a: seq<Segment>, b: seq<Segment>)
    ensures Routed(a + b) == Routed(a) + Routed(b)
  {
    if a == [] {
      assert a + b == b;
    } else {
      assert (a + b)[1..] == a[1..] + b;
      RoutedConcat(a[1..], b);
    }
  }

  lemma {:induction false} BytesOfConcat(a: seq<Event>, b: seq<Event>)
    ensures BytesOf(a + b) == BytesOf(a) + BytesOf(b)
  {
    if a == [] {
      assert a + b == b;
    } else {
      assert (a + b)[1..] == a[1..] + b;
      BytesOfConcat(a[1..], b);
      var e := if a[0].Byte? then [a[0]] else [];
      assert BytesOf(a + b) == e + BytesOf(a[1..] + b);
      assert e + (BytesOf(a[1..]) + BytesOf(b)) == (e + BytesOf(a[1..])) + BytesOf(b);
    }
  }

  lemma {:induction false} BytesOfRoute(chan: Chan, s: string)
    ensures BytesOf(Route(chan, s)) == Route(chan, s)
  {
    if s != "" { BytesOfRoute(chan, s[1..]); }
  }

  // ------------------------------------- can two calls run into one another?

  /** What a consumer that buffers TOOL segments and flushes on any other segment can
      tell: is the last segment a TOOL one, has a new call been opened since, have two
      calls ended up in one buffer?  `think` remembers a think block opened since the
      last call closed. */
  datatype Track = Track(lastTool: bool, think: bool, newCall: bool, folded: bool)

  const NO_TRACK := Track(false, false, false, false)

  function TrackEvent(k: Track, e: Event): Track {
    match e
    case Byte(chan, c) =>
      if chan == TOOL then k.(lastTool := true, newCall := false, folded := k.folded || (k.lastTool && k.newCall))
      else k.(lastTool := false)
    case Drop(chan, m) =>
      if chan == TOOL then k.(think := false)
      else if chan == TEXT && m == C_OPEN then k.(newCall := true, lastTool := k.lastTool && k.think)
      else if chan == TEXT && m == T_OPEN then k.(think := true)
      else k
  }

  /** Whether calls fold into one another, read off the stream alone: a call directly
      behind another one, with nothing but empty think blocks in between. */
  function TrackAll(k: Track, events: seq<Event>): Track
    decreases |events|
  {
    if events == [] then k else TrackAll(TrackEvent(k, events[0]), events[1..])
  }

  lemma {:induction false} TrackAllConcat(k: Track, a: seq<Event>, b: seq<Event>)
    ensures TrackAll(k, a + b) == TrackAll(TrackAll(k, a), b)
    decreases |a|
  {
    if a == [] {
      assert a + b == b;
    } else {
      assert (a + b)[1..] == a[1..] + b;
      TrackAllConcat(TrackEvent(k, a[0]), a[1..], b);
    }
  }

  lemma {:induction false} TrackRoute(k: Track, chan: Chan, s: string)
    ensures TrackAll(k, Route(chan, s)) ==
      if s == "" then k
      else if chan == TOOL then k.(lastTool := true, newCall := false, folded := k.folded || (k.lastTool && k.newCall))
      else k.(lastTool := false)
    decreases |s|
  {
    if s != "" { TrackRoute(TrackEvent(k, Byte(chan, s[0])), chan, s[1..]); }
  }

  /** What may stand between two calls: think blocks, stray closers, visible text. */
  predicate BetweenCalls(gap: seq<Event>) {
    forall i :: 0 <= i < |gap| ==>
      match gap[i]
      case Byte(chan, _) => chan != TOOL
      case Drop(chan, m) => chan != TOOL && !(chan == TEXT && m == C_OPEN)
  }

  predicate HasByte(events: seq<Event>) {
    exists i :: 0 <= i < |events| && events[i].Byte?
  }

  predicate OpensThink(events: seq<Event>) {
    exists i :: 0 <= i < |events| && events[i] == Drop(TEXT, T_OPEN)
  }

  lemma {:induction false} TrackGap(k: Track, gap: seq<Event>)
    requires BetweenCalls(gap)
    ensures TrackAll(k, gap) == k.(lastTool := k.lastTool && !HasByte(gap), think := k.think || OpensThink(gap))
    decreases |gap|
  {
    if gap != [] {
      var e, rest := gap[0], gap[1..];
      assert gap == [e] + rest;
      TrackGap(TrackEvent(k, e), rest);
      HasCons(e, rest);
    }
  }

  lemma HasCons(e: Event, rest: seq<Event>)
    ensures HasByte([e] + rest) == (e.Byte? || HasByte(rest))
    ensures OpensThink([e] + rest) == (e == Drop(TEXT, T_OPEN) || OpensThink(rest))
  {
    var all := [e] + rest;
    assert all[0] == e;
    if HasByte(rest) { var i :| 0 <= i < |rest| && rest[i].Byte?; assert all[i + 1].Byte?; }
    if OpensThink(rest) { var i :| 0 <= i < |rest| && rest[i] == Drop(TEXT, T_OPEN); assert all[i + 1] == rest[i]; }
    if HasByte(all) && !e.Byte? { var i :| 0 <= i < |all| && all[i].Byte?; assert rest[i - 1].Byte?; }
    if OpensThink(all) && e != Drop(TEXT, T_OPEN) {
      var i :| 0 <= i < |all| && all[i] == Drop(TEXT, T_OPEN);
      assert rest[i - 1] == all[i];
    }
  }

  /** Two neighbouring calls end up in one buffer exactly when nothing is routed between
      them although a think block was opened: the boundary segment that keeps adjacent
      calls apart is lost behind an empty think block, and only there. */
  lemma NeighboursFoldExactly(k: Track, a: string, gap: seq<Event>, b: string)
    requires a != "" && b != "" && BetweenCalls(gap)
    requires !k.folded && !(k.lastTool && k.newCall)
    ensures var events := Route(TOOL, a) + ([Drop(TOOL, C_CLOSE)] + (gap + ([Drop(TEXT, C_OPEN)] + Route(TOOL, b))));
      TrackAll(k, events).folded <==> !HasByte(gap) && OpensThink(gap)
  {
    hide Route, TrackAll;
    var last := Route(TOOL, b);
    var k1 := TrackAll(k, Route(TOOL, a));
    TrackRoute(k, TOOL, a);
    TrackAllConcat(k, Route(TOOL, a), [Drop(TOOL, C_CLOSE)] + (gap + ([Drop(TEXT, C_OPEN)] + last)));
    TrackAllConcat(k1, [Drop(TOOL, C_CLOSE)], gap + ([Drop(TEXT, C_OPEN)] + last));
    TrackOne(k1, Drop(TOOL, C_CLOSE));
    var k2 := TrackAll(k1, [Drop(TOOL, C_CLOSE)]);
    TrackAllConcat(k2, gap, [Drop(TEXT, C_OPEN)] + last);
    TrackGap(k2, gap);
    var k3 := TrackAll(k2, gap);
    TrackAllConcat(k3, [Drop(TEXT, C_OPEN)], last);
    TrackOne(k3, Drop(TEXT, C_OPEN));
    TrackRoute(TrackAll(k3, [Drop(TEXT, C_OPEN)]), TOOL, b);
  }

  // ------------------------------------------- two calls as a stream spells them

  function Call(body: string): string { C_OPEN + body + C_CLOSE }

  /** The closer ends the body: none stands in it or across its end. */
  predicate IsBody(body: string) {
    body != "" && NoMarkerBefore(TOOL, body + C_CLOSE, |body|)
  }

  const EMPTY_THINK := T_OPEN + T_CLOSE

  /** Nothing but stray closers and empty think blocks, with at least one block. */
  predicate OnlyEmptyThinks(g: string, seen: bool)
    decreases |g|
  {
    if g == "" then seen
    else if C_CLOSE <= g then OnlyEmptyThinks(g[|C_CLOSE|..], seen)
    else EMPTY_THINK <= g && OnlyEmptyThinks(g[|EMPTY_THINK|..], true)
  }

  /** A text after which no call is open, read in full: its held end turns out to be text. */
  function Gap(g: string): seq<Event> {
    Split(TEXT, g).events + Route(TEXT, Split(TEXT, g).hold)
  }

  predicate IsGap(g: string) {
    Split(TEXT, g).chan == TEXT && BetweenCalls(Split(TEXT, g).events)
  }

  lemma {:induction false} RouteIsBetween(s: string)
    ensures BetweenCalls(Route(TEXT, s)) && !OpensThink(Route(TEXT, s)) && HasByte(Route(TEXT, s)) == (s != "")
  {
    if s != "" {
      RouteIsBetween(s[1..]);
      HasCons(Byte(TEXT, s[0]), Route(TEXT, s[1..]));
    }
  }

  lemma {:induction false} HasConcat(a: seq<Event>, b: seq<Event>)
    ensures HasByte(a + b) == (HasByte(a) || HasByte(b))
    ensures OpensThink(a + b) == (OpensThink(a) || OpensThink(b))
    decreases |a|
  {
    hide HasByte, OpensThink;
    if a == [] {
      assert a + b == b;
      HasNothing();
    } else {
      assert a + b == [a[0]] + (a[1..] + b) && a == [a[0]] + a[1..];
      HasConcat(a[1..], b);
      HasCons(a[0], a[1..] + b);
      HasCons(a[0], a[1..]);
    }
  }

  lemma HasNothing()
    ensures !HasByte([]) && !OpensThink([])
  {}

  lemma BetweenCons(e: Event, rest: seq<Event>)
    requires BetweenCalls([e] + rest)
    ensures BetweenCalls(rest) && BetweenCalls([e])
  {
    forall i | 0 <= i < |rest| ensures rest[i] == ([e] + rest)[i + 1] {}
    assert ([e] + rest)[0] == e;
  }

  lemma ReadGap(g: string, seen: bool)
    ensures OnlyEmptyThinks(g, seen) ==
      if g == "" then seen
      else if C_CLOSE <= g then OnlyEmptyThinks(g[|C_CLOSE|..], seen)
      else EMPTY_THINK <= g && OnlyEmptyThinks(g[|EMPTY_THINK|..], true)
  {}

  lemma NoFrontIsNoGap(g: string)
    requires !AnyFront(TEXT, g)
    ensures !(C_CLOSE <= g) && !(EMPTY_THINK <= g)
  {
    if C_CLOSE <= g { FrontUnique(TEXT, g, C_CLOSE); }
    if EMPTY_THINK <= g {
      assert T_OPEN <= g;
      FrontUnique(TEXT, g, T_OPEN);
    }
  }

  /** A think block that is left was left at once, or something was said in it. */
  lemma ThinkAhead(rest: string)
    requires Split(THINK, rest).chan == TEXT
    ensures T_CLOSE <= rest ==>
      var r := Split(TEXT, rest[|T_CLOSE|..]);
      Split(THINK, rest) == Parted([Drop(THINK, T_CLOSE)] + r.events, r.chan, r.hold)
    ensures !(T_CLOSE <= rest) ==> HasByte(Split(THINK, rest).events)
  {
    hide Split, AnyFront, Front, Partial, HasByte;
    if rest == "" {
      SplitEmpty(THINK);
    } else if AnyFront(THINK, rest) {
      SplitFront(THINK, rest);
      assert Front(THINK, rest) == T_CLOSE;
    } else {
      if T_CLOSE <= rest { FrontUnique(THINK, rest, T_CLOSE); }
      if Partial(THINK, rest) {
        SplitHold(THINK, rest);
      } else {
        SplitByte(THINK, rest);
        HasCons(Byte(THINK, rest[0]), Split(THINK, rest[1..]).events);
      }
    }
  }

  /** What a silent gap is in the text: stray closers and empty think blocks. */
  lemma {:induction false} GapSpelled(g: string, seen: bool)
    requires IsGap(g)
    ensures !HasByte(Gap(g)) && (seen || OpensThink(Gap(g))) <==> OnlyEmptyThinks(g, seen)
    decreases |g|
  {
    hide Split, AnyFront, Front, Partial, HasByte, OpensThink, BetweenCalls, Route, OnlyEmptyThinks;
    var r := Split(TEXT, g);
    HasConcat(r.events, Route(TEXT, r.hold));
    RouteIsBetween(r.hold);
    ReadGap(g, seen);
    if g == "" {
      SplitEmpty(TEXT);
      HasNothing();
    } else if AnyFront(TEXT, g) {
      SplitFront(TEXT, g);
      var m := Front(TEXT, g);
      var s := Split(Behind(TEXT, m), g[|m|..]);
      BetweenCons(Drop(TEXT, m), s.events);
      HasCons(Drop(TEXT, m), s.events);
      HasConcat(s.events, Route(TEXT, s.hold));
      if C_CLOSE <= g {
        FrontUnique(TEXT, g, C_CLOSE);
        GapSpelled(g[|C_CLOSE|..], seen);
      } else {
        OnlyOpenerLeft(m, s.events);
        ThinkAhead(g[|m|..]);
        FrontOfTwo(T_OPEN, T_CLOSE, g);
        if T_CLOSE <= g[|T_OPEN|..] {
          var rest := g[|EMPTY_THINK|..];
          assert g[|T_OPEN|..][|T_CLOSE|..] == rest;
          var u := Split(TEXT, rest);
          BetweenCons(Drop(THINK, T_CLOSE), u.events);
          HasCons(Drop(THINK, T_CLOSE), u.events);
          HasConcat(u.events, Route(TEXT, u.hold));
          GapSpelled(rest, true);
        }
      }
    } else {
      NoFrontIsNoGap(g);
      if Partial(TEXT, g) {
        SplitHold(TEXT, g);
      } else {
        SplitByte(TEXT, g);
        HasCons(Byte(TEXT, g[0]), Split(TEXT, g[1..]).events);
      }
    }
  }

  lemma FrontOfTwo(a: string, b: string, g: string)
    requires a <= g
    ensures a + b <= g <==> b <= g[|a|..]
  {
    assert g == a + g[|a|..];
    assert a + b <= g ==> b == g[|a|..][..|b|];
    assert b <= g[|a|..] ==> g[|a|..] == b + g[|a|..][|b|..];
  }

  lemma OnlyOpenerLeft(m: string, rest: seq<Event>)
    requires m in Markers(TEXT) && m != C_CLOSE && BetweenCalls([Drop(TEXT, m)])
    ensures m == T_OPEN
  {
    assert [Drop(TEXT, m)][0] == Drop(TEXT, m);
  }

  /** A held beginning of a marker in front of a call was text. */
  lemma HoldThenCall(hold: string, rest: string)
    requires hold != "" ==> Partial(TEXT, hold)
    ensures NoMarkerBefore(TEXT, hold + C_OPEN + rest, |hold|)
    ensures AtPos(hold + C_OPEN + rest, C_OPEN, |hold|)
  {
    var t := hold + C_OPEN + rest;
    assert t[|hold|..] == C_OPEN + rest;
    AngleOnlyAtFront(TEXT, C_OPEN, 0);
    assert t[|hold|] == '<';
    forall m, p | m in Markers(TEXT) && 0 <= p < |hold| ensures !AtPos(t, m, p) {
      if AtPos(t, m, p) {
        AngleOnlyAtFront(TEXT, m, 0);
        var i :| 0 <= i < |Markers(TEXT)| && hold < Markers(TEXT)[i];
        var w := Markers(TEXT)[i];
        assert t[p] == t[p..][0] == '<' && hold[p] == w[p];
        AngleOnlyAtFront(TEXT, w, p);
        if |hold| < |m| {
          assert t[p..][|hold|] == m[|hold|];
          AngleOnlyAtFront(TEXT, m, |hold|);
        } else {
          assert m <= w by { assert t[p..][..|m|] == w[..|m|]; }
          FrontUnique(TEXT, w, m);
          FrontUnique(TEXT, w, w);
        }
      }
    }
  }

  /** A call at the front of a text: its body is routed to TOOL between the two markers. */
  lemma SplitCall(hold: string, body: string, rest: string)
    requires (hold != "" ==> Partial(TEXT, hold)) && IsBody(body)
    ensures var r := Split(TEXT, rest);
      Split(TEXT, hold + Call(body) + rest) == Parted(
        Route(TEXT, hold) + ([Drop(TEXT, C_OPEN)] + (Route(TOOL, body) + ([Drop(TOOL, C_CLOSE)] + r.events))),
        r.chan, r.hold)
  {
    hide Split, Route, NoMarkerBefore, AtPos, Partial, IsBody;
    var inner := body + C_CLOSE + rest;
    Reassociate(hold, C_OPEN, body, C_CLOSE, rest);
    HoldThenCall(hold, inner);
    SplitJump(TEXT, hold, C_OPEN, inner);
    BodyThenCloser(body, rest);
    SplitJump(TOOL, body, C_CLOSE, rest);
  }

  lemma Reassociate(a: string, b: string, c: string, d: string, e: string)
    ensures a + (b + c + d) + e == a + b + (c + d + e)
  {}

  /** `SplitAtMarker` on a text given in three parts. */
  lemma SplitJump(chan: Chan, head: string, m: string, rest: string)
    requires m in Markers(chan) && AtPos(head + m + rest, m, |head|) && NoMarkerBefore(chan, head + m + rest, |head|)
    ensures var r := Split(Behind(chan, m), rest);
      Split(chan, head + m + rest) == r.(events := Route(chan, head) + ([Drop(chan, m)] + r.events))
  {
    hide Split, Route, NoMarkerBefore, AtPos, Markers;
    var t := head + m + rest;
    SplitAtMarker(chan, t, |head|, m);
    assert t[..|head|] == head && t[|head| + |m|..] == rest;
  }

  lemma BodyThenCloser(body: string, rest: string)
    requires IsBody(body)
    ensures var t := body + C_CLOSE + rest; AtPos(t, C_CLOSE, |body|) && NoMarkerBefore(TOOL, t, |body|)
  {
    var t := body + C_CLOSE + rest;
    assert t[|body|..] == C_CLOSE + rest;
    forall m, p | m in Markers(TOOL) && 0 <= p < |body| ensures !AtPos(t, m, p) {
      var u := body + C_CLOSE;
      assert !AtPos(u, m, p);
      assert t[p..] == u[p..] + rest;
      PrefixCases(m, u[p..], rest);
    }
  }

  lemma GapIsBetween(g: string)
    requires IsGap(g)
    ensures BetweenCalls(Gap(g))
  {
    RouteIsBetween(Split(TEXT, g).hold);
  }

  lemma GapThenCall(hold: string, b: string)
    requires (hold != "" ==> Partial(TEXT, hold)) && IsBody(b)
    ensures Split(TEXT, hold + Call(b)).events ==
      Route(TEXT, hold) + ([Drop(TEXT, C_OPEN)] + (Route(TOOL, b) + [Drop(TOOL, C_CLOSE)]))
  {
    hide Split, Route, IsBody;
    assert hold + Call(b) + "" == hold + Call(b);
    SplitCall(hold, b, "");
    SplitEmpty(TEXT);
    assert [Drop(TOOL, C_CLOSE)] + [] == [Drop(TOOL, C_CLOSE)];
  }

  lemma StartOfCall()
    ensures TrackEvent(NO_TRACK, Drop(TEXT, C_OPEN)) == Track(false, false, true, false)
  {}

  lemma BodyGiven(body: string)
    requires IsBody(body)
    ensures body != ""
  {}

  lemma CloserKeepsFold(k: Track)
    ensures TrackEvent(k, Drop(TOOL, C_CLOSE)).folded == k.folded
  {}

  lemma Regroup(a: seq<Event>, g: seq<Event>, hold: seq<Event>, b: seq<Event>)
    ensures var open, close := [Drop(TEXT, C_OPEN)], [Drop(TOOL, C_CLOSE)];
      [] + (open + (a + (close + (g + (hold + (open + (b + close)))))))
      == open + ((a + (close + ((g + hold) + (open + b)))) + close)
  {}

  /** Two calls of a stream, with a text between them that opens no call: their bodies
      end up in one buffer exactly when that text is stray closers and empty think
      blocks, with at least one block. */
  lemma CallsFoldExactly(a: string, g: string, b: string)
    requires IsBody(a) && IsBody(b) && IsGap(g)
    ensures TrackAll(NO_TRACK, Split(TEXT, Call(a) + g + Call(b)).events).folded <==> OnlyEmptyThinks(g, false)
  {
    hide Split, Route, TrackAll, IsBody, BetweenCalls, HasByte, OpensThink, OnlyEmptyThinks, TrackEvent, Partial;
    var r := Split(TEXT, g);
    var gap := Gap(g);
    HoldIsPartial(TEXT, g);
    GapSpelled(g, false);
    GapIsBetween(g);
    var behind := Split(TEXT, g + Call(b));
    var last := [Drop(TOOL, C_CLOSE)];
    assert Call(a) + g + Call(b) == "" + Call(a) + (g + Call(b));
    SplitCall("", a, g + Call(b));
    SplitConcat(TEXT, g, Call(b));
    GapThenCall(r.hold, b);
    var k := TrackEvent(NO_TRACK, Drop(TEXT, C_OPEN));
    StartOfCall();
    BodyGiven(a);
    BodyGiven(b);
    NeighboursFoldExactly(k, a, gap, b);
    var events := Route(TOOL, a) + ([Drop(TOOL, C_CLOSE)] + (gap + ([Drop(TEXT, C_OPEN)] + Route(TOOL, b))));
    assert Split(TEXT, Call(a) + g + Call(b)).events == [Drop(TEXT, C_OPEN)] + (events + last) by {
      RouteNil(TEXT);
      Regroup(Route(TOOL, a), r.events, Route(TEXT, r.hold), Route(TOOL, b));
    }
    TrackAllConcat(NO_TRACK, [Drop(TEXT, C_OPEN)], events + last);
    TrackOne(NO_TRACK, Drop(TEXT, C_OPEN));
    TrackAllConcat(k, events, last);
    TrackOne(TrackAll(k, events), Drop(TOOL, C_CLOSE));
    CloserKeepsFold(TrackAll(k, events));
  }

  /** Calls back to back are kept apart; an empty think block between them is enough to
      lose the boundary, whatever the bodies are. */
  lemma EmptyThinkFolds(a: string, b: string)
    requires IsBody(a) && IsBody(b)
    ensures TrackAll(NO_TRACK, Split(TEXT, Call(a) + EMPTY_THINK + Call(b)).events).folded
    ensures !TrackAll(NO_TRACK, Split(TEXT, Call(a) + "" + Call(b)).events).folded
  {
    hide Split, TrackAll, IsBody, AnyFront, Front, Partial;
    var g := EMPTY_THINK;
    SplitEmpty(TEXT);
    CallsFoldExactly(a, "", b);
    FrontUnique(TEXT, g, T_OPEN);
    SplitFront(TEXT, g);
    assert g[|T_OPEN|..] == T_CLOSE && T_CLOSE[|T_CLOSE|..] == "";
    FrontUnique(THINK, T_CLOSE, T_CLOSE);
    SplitFront(THINK, T_CLOSE);
    assert Split(TEXT, g).events == [Drop(TEXT, T_OPEN), Drop(THINK, T_CLOSE)];
    assert g[|EMPTY_THINK|..] == "";
    assert !(C_CLOSE <= g) by { assert C_CLOSE[1] != g[1]; }
    assert OnlyEmptyThinks("", true);
    CallsFoldExactly(a, g, b);
  }

  lemma Regard(a: string, b: string, c: string, d: string, e: string, f: string)
    ensures a + (b + c) + (d + e + f) == a + b + c + d + e + f
  {}

  /** An input on which two calls run into one another. */
  lemma CallsThatFold()
    ensures IsBody("a") && IsBody("b")
    ensures var t := C_OPEN + "a" + C_CLOSE + T_OPEN + T_CLOSE + C_OPEN + "b" + C_CLOSE;
      TrackAll(NO_TRACK, Split(TEXT, t).events).folded
  {
    hide Split, TrackAll;
    assert IsBody("a") by { assert ("a" + C_CLOSE)[0..][0] == 'a' && C_CLOSE[0] == '<'; }
    assert IsBody("b") by { assert ("b" + C_CLOSE)[0..][0] == 'b' && C_CLOSE[0] == '<'; }
    EmptyThinkFolds("a", "b");
    Regard(C_OPEN + "a" + C_CLOSE, T_OPEN, T_CLOSE, C_OPEN, "b", C_CLOSE);
  }

  /** The consumer's own view of one segment. */
  function TrackSegment(k: Track, seg: Segment): Track {
    if seg.0 == TOOL then k.(lastTool := true, newCall := false, folded := k.folded || (k.lastTool && k.newCall))
    else k.(lastTool := false)
  }

  // ------------------------------------------------------------- searching

  /** First position at or behind `p` where `m` occurs, or -1. */
  function FindFrom(t: string, m: string, p: nat): int
    requires p <= |t|
    decreases |t| - p
  {
    if m <= t[p..] then p else if p == |t| then -1 else FindFrom(t, m, p + 1)
  }

  lemma {:induction false} FindIsFirst(t: string, m: string, p: nat)
    requires p <= |t|
    ensures var r := FindFrom(t, m, p);
      && (r >= 0 ==> p <= r && AtPos(t, m, r))
      && forall q :: p <= q && (r < 0 || q < r) ==> !AtPos(t, m, q)
    decreases |t| - p
  {
    if !(m <= t[p..]) && p < |t| { FindIsFirst(t, m, p + 1); }
  }

  /** `keep` is the length of the longest tail of `t` that begins `m` properly. */
  predicate LongestFor(m: string, t: string, keep: nat) {
    && keep <= |t|
    && (keep > 0 ==> Tail(t, keep) < m)
    && forall k :: keep < k <= |t| ==> !(Tail(t, k) < m)
  }

  lemma LongestOfOne(chan: Chan, t: string, keep: nat)
    requires chan != TEXT && LongestFor(Markers(chan)[0], t, keep)
    ensures LongestPartial(chan, t, keep)
  {
    forall k | keep < k <= |t| ensures !Partial(chan, Tail(t, k)) {}
  }

  lemma LongestOfThree(t: string, a: nat, b: nat, c: nat)
    requires LongestFor(T_OPEN, t, a) && LongestFor(C_OPEN, t, b) && LongestFor(C_CLOSE, t, c)
    ensures LongestPartial(TEXT, t, Max(Max(a, b), c))
  {
    var keep := Max(Max(a, b), c);
    assert Markers(TEXT)[0] == T_OPEN && Markers(TEXT)[1] == C_OPEN && Markers(TEXT)[2] == C_CLOSE;
    forall k | keep < k <= |t| ensures !Partial(TEXT, Tail(t, k)) {}
  }

  function Max(a: nat, b: nat): nat { if a < b then b else a }

  // ------------------------------------------------------------ the splitter

  /** The rest of a split, with some events in front. */
  function After(events: seq<Event>, r: Parted): Parted {
    r.(events := events + r.events)
  }

  class Splitter {
    var chan: Chan
    var hold: string
    var toolBoundary: bool
    /** The consumer's view of everything emitted. */
    ghost var seen: Track

    /** Behind a call whose segment is still open the boundary flag is up, unless a
        think block took it down. */
    ghost predicate Valid()
      reads this`chan, this`seen, this`toolBoundary
    {
      && (seen.lastTool && chan != TOOL ==> toolBoundary == !seen.think)
      && (chan == THINK ==> !toolBoundary)
    }

    /** A stream starts in TEXT, or in a channel the prompt has opened already. */
    constructor (chan: Chan)
      ensures Valid() && this.chan == chan && hold == "" && seen == NO_TRACK
    {
      this.chan, hold, toolBoundary := chan, "", false;
      seen := NO_TRACK;
    }

    /** Longest tail of the held text that properly begins the marker. */
    method TailKeep(m: string) returns (keep: nat)
      requires m != ""
      ensures LongestFor(m, hold, keep)
    {
      keep := if |hold| < |m| - 1 then |hold| else |m| - 1;
      while keep > 0
        invariant keep <= |hold| && keep < |m|
        invariant forall k :: keep < k <= |hold| ==> !(Tail(hold, k) < m)
      {
        if hold[|hold| - keep..] == m[..keep] { assert Tail(hold, keep) < m; return; }
        assert !(Tail(hold, keep) < m);
        keep := keep - 1;
      }
    }

    /** Emit everything but the last `keep` bytes. */
    method EmitHead(out: seq<Segment>, keep: nat) returns (more: seq<Segment>, emitted: bool)
      requires keep <= |hold|
      modifies this`hold, this`seen
      ensures hold == old(hold)[|old(hold)| - keep..]
      ensures var head := old(hold)[..|old(hold)| - keep];
        && emitted == (head != "")
        && more == (if emitted then out + [(chan, head)] else out)
        && seen == TrackAll(old(seen), Route(chan, head))
    {
      TrackRoute(seen, chan, hold[..|hold| - keep]);
      if |hold| > keep {
        more := out + [(chan, hold[..|hold| - keep])];
        seen := TrackSegment(seen, (chan, hold[..|hold| - keep]));
        hold := hold[|hold| - keep..];
        return more, true;
      }
      return out, false;
    }

    /** Emit the bytes in front of the marker at `e`, drop the marker, change channel. */
    method TakeMarker(out: seq<Segment>, e: nat, m: string) returns (more: seq<Segment>)
      requires Valid() && m in Markers(chan) && AtPos(hold, m, e) && e + |m| <= |hold|
      modifies this
      ensures Valid() && hold == old(hold)[e + |m|..] && chan == Behind(old(chan), m)
      ensures Routed(more) == Routed(out) + Route(old(chan), old(hold)[..e])
      ensures seen == TrackAll(old(seen), Route(old(chan), old(hold)[..e]) + [Drop(old(chan), m)])
    {
      hide Markers, AtPos, Route, Routed;
      ghost var head := hold[..e];
      TrackRoute(seen, chan, head);
      TrackAllConcat(seen, Route(chan, head), [Drop(chan, m)]);
      TrackOne(TrackAll(seen, Route(chan, head)), Drop(chan, m));
      RoutedSnoc(out, chan, head);
      RoutedSnoc(out, TEXT, "");
      RouteNil(chan);
      more := out;
      if chan == TEXT && m == C_OPEN {
        if e == 0 && toolBoundary {
          more := more + [(TEXT, "")];
          seen := TrackSegment(seen, (TEXT, ""));
        }
        seen := seen.(newCall := true);
      }
      if e > 0 {
        more := more + [(chan, hold[..e])];
        seen := TrackSegment(seen, (chan, hold[..e]));
      }
      if chan == TEXT {
        if m == T_OPEN { toolBoundary := false; seen := seen.(think := true); }
        if m == C_OPEN { toolBoundary := false; }
      } else {
        toolBoundary := chan == TOOL;
        if chan == TOOL { seen := seen.(think := false); }
      }
      hold := hold[e + |m|..];
      chan := Behind(chan, m);
    }

    /** The first marker of the channel in the held text, or none. */
    method NextMarker() returns (e: int, m: string)
      ensures e >= 0 ==> m in Markers(chan) && AtPos(hold, m, e) && NoMarkerBefore(chan, hold, e)
      ensures e < 0 ==> NoMarkerBefore(chan, hold, |hold| + 1)
    {
      if chan == TEXT {
        e, m := FirstOfThree();
      } else {
        m := if chan == THINK then T_CLOSE else C_CLOSE;
        FindIsFirst(hold, m, 0);
        e := FindFrom(hold, m, 0);
      }
    }

    method FirstOfThree() returns (e: int, m: string)
      requires chan == TEXT
      ensures e >= 0 ==> m in Markers(chan) && AtPos(hold, m, e) && NoMarkerBefore(chan, hold, e)
      ensures e < 0 ==> NoMarkerBefore(chan, hold, |hold| + 1)
    {
      hide AtPos;
      FindIsFirst(hold, T_OPEN, 0);
      FindIsFirst(hold, C_OPEN, 0);
      FindIsFirst(hold, C_CLOSE, 0);
      var pt, pc, sc := FindFrom(hold, T_OPEN, 0), FindFrom(hold, C_OPEN, 0), FindFrom(hold, C_CLOSE, 0);
      e, m := pt, T_OPEN;
      if pc >= 0 && (e < 0 || pc < e) { e, m := pc, C_OPEN; }
      if sc >= 0 && (e < 0 || sc < e) { e, m := sc, C_CLOSE; }
    }

    /** How much of the held text to keep when it contains no marker. */
    method Keep() returns (keep: nat)
      ensures LongestPartial(chan, hold, keep)
    {
      if chan == TEXT {
        keep := TailKeep(T_OPEN);
        var a := keep;
        var b := TailKeep(C_OPEN);
        keep := Max(keep, b);
        var c := TailKeep(C_CLOSE);
        keep := Max(keep, c);
        LongestOfThree(hold, a, b, c);
      } else {
        keep := TailKeep(if chan == THINK then T_CLOSE else C_CLOSE);
        LongestOfOne(chan, hold, keep);
      }
    }

    /** Feed one piece: what is routed, and the state left behind, is what the one-pass
        splitter makes of the held text and the piece. */
    method Feed(piece: string) returns (out: seq<Segment>)
      requires Valid()
      modifies this
      ensures Valid()
      ensures var r := Split(old(chan), old(hold) + piece);
        && chan == r.chan && hold == r.hold
        && Routed(out) == BytesOf(r.events)
        && seen == TrackAll(old(seen), r.events)
    {
      hide Markers, AtPos, Route, Split, TrackAll, NoMarkerBefore, Routed, BytesOf, LongestPartial;
      hold := hold + piece;
      out := [];
      ghost var done: seq<Event> := [];
      ghost var all := Split(old(chan), hold);
      NothingYet(seen);
      assert After([], all) == all;
      while true
        invariant Valid() && After(done, Split(chan, hold)) == all
        invariant Routed(out) == BytesOf(done) && seen == TrackAll(old(seen), done)
        decreases |hold|
      {
        var e, m := NextMarker();
        if e < 0 { break; }
        SplitAtMarker(chan, hold, e, m);
        MarkerLength(chan, m);
        ghost var step := Route(chan, hold[..e]) + [Drop(chan, m)];
        StepBytes(chan, hold[..e], m);
        BytesOfConcat(done, step);
        TrackAllConcat(old(seen), done, step);
        AfterAfter(done, step, Split(Behind(chan, m), hold[e + |m|..]), Route(chan, hold[..e]), Drop(chan, m));
        out := TakeMarker(out, e, m);
        done := done + step;
      }
      var keep := Keep();
      LastStep(keep);
      ghost var head := Route(chan, hold[..|hold| - keep]);
      BytesOfRoute(chan, hold[..|hold| - keep]);
      BytesOfConcat(done, head);
      TrackAllConcat(old(seen), done, head);
      RoutedSnoc(out, chan, hold[..|hold| - keep]);
      RouteNil(chan);
      out := FinishFeed(out, keep);
    }

    method FinishFeed(out: seq<Segment>, keep: nat) returns (more: seq<Segment>)
      requires Valid() && keep <= |hold|
      modifies this`hold, this`seen, this`toolBoundary
      ensures Valid() && hold == old(hold)[|old(hold)| - keep..]
      ensures Routed(more) == Routed(out) + Route(chan, old(hold)[..|old(hold)| - keep])
      ensures seen == TrackAll(old(seen), Route(chan, old(hold)[..|old(hold)| - keep]))
    {
      hide Route, TrackAll, Routed;
      RoutedSnoc(out, chan, hold[..|hold| - keep]);
      RouteNil(chan);
      TrackRoute(seen, chan, hold[..|hold| - keep]);
      var emitted;
      more, emitted := EmitHead(out, keep);
      if chan == TEXT && emitted { toolBoundary := false; }
    }

    lemma LastStep(keep: nat)
      requires NoMarkerBefore(chan, hold, |hold| + 1) && LongestPartial(chan, hold, keep)
      ensures keep <= |hold| && Split(chan, hold) == Parted(Route(chan, hold[..|hold| - keep]), chan, hold[|hold| - keep..])
    {
      hide Split, Route, LongestPartial;
      assert NoMarkerBefore(chan, hold, |hold|);
      assert keep <= |hold| by { LongestFits(chan, hold, keep); }
      SplitNoMarker(chan, hold, keep);
    }

    /** End of the stream: the held bytes were no marker after all. */
    method Flush() returns (out: seq<Segment>)
      requires Valid()
      modifies this`hold
      ensures Valid() && hold == "" && Routed(out) == Route(chan, old(hold))
    {
      out := [];
      RoutedSnoc([], chan, hold);
      if hold != "" { out := [(chan, hold)]; hold := ""; }
    }
  }

  lemma LongestFits(chan: Chan, t: string, keep: nat)
    requires LongestPartial(chan, t, keep)
    ensures keep <= |t|
  {}

  lemma MarkerLength(chan: Chan, m: string)
    requires m in Markers(chan)
    ensures |m| > 0
  {}

  lemma NothingYet(k: Track)
    ensures Routed([]) == BytesOf([]) && TrackAll(k, []) == k
  {}

  lemma StepBytes(chan: Chan, s: string, m: string)
    ensures BytesOf(Route(chan, s) + [Drop(chan, m)]) == Route(chan, s)
  {
    BytesOfRoute(chan, s);
    BytesOfConcat(Route(chan, s), [Drop(chan, m)]);
    assert [Drop(chan, m)][1..] == [];
  }

  lemma AfterAfter(done: seq<Event>, step: seq<Event>, r: Parted, head: seq<Event>, e: Event)
    requires step == head + [e]
    ensures After(done + step, r) == After(done, r.(events := head + ([e] + r.events)))
  {
    assert (done + step) + r.events == done + (head + ([e] + r.events));
  }

  lemma TrackOne(k: Track, e: Event)
    ensures TrackAll(k, [e]) == TrackEvent(k, e)
  {
    assert [e][1..] == [];
  }

  lemma RouteNil(chan: Chan)
    ensures Route(chan, "") == []
  {}

  lemma RoutedSnoc(out: seq<Segment>, chan: Chan, s: string)
    ensures Routed(out + [(chan, s)]) == Routed(out) + Route(chan, s)
  {
    RoutedConcat(out, [(chan, s)]);
    assert [(chan, s)][1..] == [];
    assert Routed([(chan, s)]) == Route(chan, s) + [];
  }

  /** A whole stream in any pieces: the routed bytes, the channel and the held bytes at
      the end, and whether two calls fold into one another, depend on the stream alone. */
  method FeedAll(start: Chan, pieces: seq<string>) returns (out: seq<Segment>, s: Splitter)
    ensures fresh(s) && s.Valid()
    ensures var r := Split(start, Concat(pieces));
      && Routed(out) == BytesOf(r.events)
      && s.chan == r.chan && s.hold == r.hold && |s.hold| <= 11
      && s.seen == TrackAll(NO_TRACK, r.events)
      && Spell(r.events) + s.hold == Concat(pieces)
  {
    hide Split, Routed, BytesOf, TrackAll;
    s := new Splitter(start);
    out := [];
    NothingYet(NO_TRACK);
    SplitEmpty(start);
    var k := 0;
    while k < |pieces|
      invariant 0 <= k <= |pieces| && fresh(s) && s.Valid()
      invariant var r := Split(start, Concat(pieces[..k]));
        && Routed(out) == BytesOf(r.events) && s.chan == r.chan && s.hold == r.hold
        && s.seen == TrackAll(NO_TRACK, r.events)
    {
      var a := Split(start, Concat(pieces[..k]));
      var b := Split(a.chan, a.hold + pieces[k]);
      SplitConcat(start, Concat(pieces[..k]), pieces[k]);
      ConcatSnoc(pieces[..k], pieces[k]);
      assert pieces[..k + 1] == pieces[..k] + [pieces[k]];
      BytesOfConcat(a.events, b.events);
      TrackAllConcat(NO_TRACK, a.events, b.events);
      var more := s.Feed(pieces[k]);
      RoutedConcat(out, more);
      out := out + more;
      k := k + 1;
    }
    assert pieces[..|pieces|] == pieces;
    SplitSpells(start, Concat(pieces));
    HoldIsPartial(start, Concat(pieces));
  }
}
