/** The constraining controller in a serial loop, as a function on its state and its history. */
module ConstrainRun {
  import opened ToolGrammar
  import opened GrammarState
  import opened GrammarLexemes
  import opened GrammarLanguage
  import opened GrammarLiveness
  import opened MaskLanguage
  import opened MaskCache

  const MARKER := "<tool_call>"
  const WINDOW := 64
  const LONGEST := 54  // bytes of a token for which the window suffices

  /** The last 64 bytes. */
  function Last(s: string): string {
    if |s| <= WINDOW then s else s[|s| - WINDOW..]
  }

  predicate MarkerAt(s: string, p: int) {
    0 <= p && p + |MARKER| <= |s| && s[p..p + |MARKER|] == MARKER
  }

  /** The last position at or below `p` where the marker occurs, or -1. */
  function FindFrom(s: string, p: int): (r: int)
    ensures -1 <= r && (r >= 0 ==> r <= p && MarkerAt(s, r))
    decreases p + 1
  {
    if p < 0 then -1 else if MarkerAt(s, p) then p else FindFrom(s, p - 1)
  }

  function RFind(s: string): int {
    FindFrom(s, |s| - |MARKER|)
  }

  function Decode(vocab: seq<string>, id: int): string {
    if 0 <= id < |vocab| then vocab[id] else ""
  }

  datatype Ctl = Ctl(
    names: seq<string>,
    enabled: bool,       // off behind a call that a fenced body follows
    active: bool,
    tg: Config,
    tail: string,
    engaged: nat,        // markers that started a call
    disengaged: nat,     // calls given up
    h: History)

  /** How the loop stands: it goes on, a closed call has stopped it, or it has thrown. */
  datatype End = Going | Stopped | Threw

  /** What happened in the request so far; only the end is ever read. */
  datatype History = History(
    text: string,        // every byte decoded
    from: nat,           // where in the text the rolling window starts
    mark: nat,           // where the body of the last call starts
    word: string,        // the literal word the last reset left behind
    rejects: nat,        // calls given up after they had been engaged
    calls: seq<string>,  // bytes since the marker, at every close
    end: End)

  const NO_HISTORY := History("", 0, 0, "", 0, [], Going)

  /** What the scan sees of a token that is not inside a call: the rest of its bytes
      after a marker it completes. */
  datatype Scan = Nothing | Remainder(bytes: string)

  function ScanToken(tail: string, bytes: string): Scan {
    var t := Last(tail + bytes);
    var pos := RFind(t);
    if pos < 0 || |bytes| > |t| || pos + |MARKER| <= |t| - |bytes| then Nothing
    else Remainder(t[pos + |MARKER|..])
  }

  /** A token outside a call. */
  function ScanStep(s: Ctl, bytes: string): Ctl {
    var text := s.h.text + bytes;
    var s1 := s.(tail := Last(s.tail + bytes), h := s.h.(text := text));
    match ScanToken(s.tail, bytes)
    case Nothing => s1
    case Remainder(rem) => EngageStep(s1, rem)
  }

  /** The bytes after the marker start a call, finish one, or spoil it at once. */
  function EngageStep(s: Ctl, rem: string): Ctl {
    var g := Run(Init(s.names, s.tg.litWord), rem);
    var h := s.h.(word := s.tg.litWord, mark := if |rem| <= |s.h.text| then |s.h.text| - |rem| else 0);
    var s2 := s.(tg := g, engaged := s.engaged + 1, h := h);
    if g.dead then s2.(disengaged := s.disengaged + 1)
    else if g.IsClosed() then s2.(h := h.(calls := h.calls + [rem]))
    else s2.(active := true)
  }

  /** A token inside a call. */
  function FeedStep(s: Ctl, bytes: string): Ctl {
    var text := s.h.text + bytes;
    var g := Run(s.tg, bytes);
    var s1 := s.(tg := g, h := s.h.(text := text));
    if g.dead then s1.(active := false, disengaged := s.disengaged + 1, h := s1.h.(rejects := s.h.rejects + 1))
    else if g.IsClosed() then
      var body := if s.h.mark <= |text| then text[s.h.mark..] else "";
      s1.(active := false, tail := "", h := s1.h.(from := |text|, calls := s.h.calls + [body]))
    else s1
  }

  /** One token through scan and feed. */
  function FedStep(vocab: seq<string>, s: Ctl, id: int): Ctl {
    var bytes := Decode(vocab, id);
    if !s.enabled || (!s.active && s.names == []) then s.(h := s.h.(text := s.h.text + bytes))
    else if s.active then FeedStep(s, bytes)
    else ScanStep(s, bytes)
  }

  /** Did this token close a call? */
  predicate ClosesCall(s: Ctl, t: Ctl) {
    !t.active && t.tg.IsClosed() && (s.active || t.engaged != s.engaged)
  }

  /** Did it start a call that its own bytes spoil? */
  predicate SpoilsCall(s: Ctl, t: Ctl) {
    t.engaged != s.engaged && !t.active && !t.tg.IsClosed()
  }

  /** What the loop makes of a token: a call spoiled at its entry is an error, a closed
      call stops the turn, unless its tool expects a fenced body: then the rest of the
      turn is free. */
  function Settle(body: string -> bool, s: Ctl, t: Ctl): Ctl {
    if SpoilsCall(s, t) then t.(h := t.h.(end := Threw))
    else if !ClosesCall(s, t) then t
    else if body(t.tg.namePref) then t.(enabled := false)
    else t.(h := t.h.(end := Stopped))
  }

  /** One token of the loop, with the mask pool never full; an ended loop stays as it is. */
  function SerialStep(vocab: seq<string>, body: string -> bool, s: Ctl, id: int): Ctl {
    if s.h.end != Going then s else Settle(body, s, FedStep(vocab, s, id))
  }

  function SerialRun(vocab: seq<string>, body: string -> bool, s: Ctl, ids: seq<int>): Ctl
    decreases |ids|
  {
    if ids == [] then s else SerialRun(vocab, body, SerialStep(vocab, body, s, ids[0]), ids[1..])
  }

  lemma {:induction false} EndedStays(vocab: seq<string>, body: string -> bool, s: Ctl, ids: seq<int>)
    requires s.h.end != Going
    ensures SerialRun(vocab, body, s, ids) == s
    decreases |ids|
  {
    if ids != [] { EndedStays(vocab, body, s, ids[1..]); }
  }

  lemma EndedStep(vocab: seq<string>, body: string -> bool, s: Ctl, id: int)
    requires s.h.end != Going
    ensures SerialStep(vocab, body, s, id) == s
  {}

  /** While a call is open the token is drawn from its mask, the closer id only once
      the body is complete. */
  predicate Drawn(vocab: seq<string>, closerId: int, s: Ctl, id: int) {
    s.active ==> 0 <= id < |vocab| && Legal(vocab, closerId, s.tg, id) && (id == closerId ==> s.tg.st == Done)
  }

  predicate Obeys(vocab: seq<string>, body: string -> bool, closerId: int, s: Ctl, ids: seq<int>)
    decreases |ids|
  {
    ids == [] ||
    (Drawn(vocab, closerId, s, ids[0]) && Obeys(vocab, body, closerId, SerialStep(vocab, body, s, ids[0]), ids[1..]))
  }

  predicate ShortTokens(vocab: seq<string>) {
    forall i :: 0 <= i < |vocab| ==> |vocab[i]| <= LONGEST
  }

  predicate CloserBytes(vocab: seq<string>, closerId: int) {
    0 <= closerId < |vocab| ==> vocab[closerId] == CLOSER || vocab[closerId] == ""
  }

  // ----------------------------------------------- the rolling window suffices

  lemma {:induction false} FindFromLast(s: string, p: int)
    ensures var r := FindFrom(s, p);
      && r <= (if p < 0 then -1 else p) && r >= -1
      && (r >= 0 ==> MarkerAt(s, r))
      && forall q :: r < q <= p ==> !MarkerAt(s, q)
    decreases p + 1
  {
    if p >= 0 && !MarkerAt(s, p) { FindFromLast(s, p - 1); }
  }

  /** The last marker of the whole history. */
  predicate LastMarker(s: string, p: int) {
    MarkerAt(s, p) && forall q :: p < q <= |s| ==> !MarkerAt(s, q)
  }

  lemma MarkersShift(s: string, t: string, k: nat)
    requires k <= |s| && t == s[k..]
    ensures forall q :: q >= 0 ==> MarkerAt(t, q) == MarkerAt(s, q + k)
  {
    forall q | q >= 0 ensures MarkerAt(t, q) == MarkerAt(s, q + k) {
      if q + |MARKER| <= |t| {
        assert t[q..q + |MARKER|] == s[q + k..q + k + |MARKER|];
      }
    }
  }

  lemma RFindIsLast(t: string)
    ensures RFind(t) < 0 ==> forall q :: !MarkerAt(t, q)
    ensures RFind(t) >= 0 ==> LastMarker(t, RFind(t)) && RFind(t) + |MARKER| <= |t|
  {
    FindFromLast(t, |t| - |MARKER|);
  }

  lemma MarkerFits(s: string, p: int)
    requires MarkerAt(s, p)
    ensures 0 <= p && p + |MARKER| <= |s|
  {}

  lemma LastIsSuffix(s: string) returns (k: nat)
    ensures k <= |s| && Last(s) == s[k..] && (k > 0 ==> k == |s| - WINDOW) && (k == 0 ==> |s| <= WINDOW)
  {
    k := |s| - |Last(s)|;
  }

  /** What the last marker of a suffix says about the whole. */
  lemma SuffixMarkers(all: string, t: string, k: nat)
    requires k <= |all| && t == all[k..]
    ensures var pos := RFind(t);
      && (forall p :: MarkerAt(all, p) ==> 0 <= p && (p < k || (pos >= 0 && p <= pos + k)))
      && (pos >= 0 ==> MarkerAt(all, pos + k) && pos + |MARKER| <= |t|)
  {
    hide MarkerAt, FindFrom, RFind;
    MarkersShift(all, t, k);
    RFindIsLast(t);
    forall p | MarkerAt(all, p) ensures 0 <= p && (p < k || (RFind(t) >= 0 && p <= RFind(t) + k)) {
      MarkerFits(all, p);
      if p >= k {
        assert MarkerAt(t, p - k);
        MarkerFits(t, p - k);
      }
    }
  }

  /** Scanning the window finds exactly the markers that the whole history would show to
      end inside this token. */
  ghost predicate ScanIsRight(seen: string, bytes: string) {
    match ScanToken(Last(seen), bytes)
    case Nothing => forall p :: MarkerAt(seen + bytes, p) ==> p + |MARKER| <= |seen|
    case Remainder(rem) =>
      |rem| < |bytes| && LastMarker(seen + bytes, |seen + bytes| - |rem| - |MARKER|)
      && rem == (seen + bytes)[|seen + bytes| - |rem|..]
  }

  lemma WindowSuffices(seen: string, bytes: string)
    requires |bytes| <= LONGEST
    ensures ScanIsRight(seen, bytes)
  {
    hide MarkerAt, RFind, Last;
    var all := seen + bytes;
    LastOfLast(seen, bytes);
    var k := LastIsSuffix(all);
    SuffixMarkers(all, Last(all), k);
    var pos := RFind(Last(all));
    match ScanToken(Last(seen), bytes)
    case Nothing =>
    case Remainder(rem) =>
      assert |all| - |rem| - |MARKER| == pos + k;
      assert rem == all[pos + k + |MARKER|..];
  }

  lemma LastOfLast(seen: string, bytes: string)
    ensures Last(Last(seen) + bytes) == Last(seen + bytes)
  {
    var a, b := Last(Last(seen) + bytes), Last(seen + bytes);
    assert a == b;
  }

  /** One byte more and a marker can be missed: 10 of its bytes and a 55-byte token
      do not fit the window together. */
  lemma WindowTooShort(bytes: string)
    requires |bytes| == LONGEST + 1 && bytes[0] == '>' && forall k :: 1 <= k < |bytes| ==> bytes[k] != '<'
    ensures !ScanIsRight("<tool_call", bytes)
  {
    var all := "<tool_call" + bytes;
    assert all[0..11] == MARKER;
    assert MarkerAt(all, 0);
    var t := Last(all);
    assert t == all[1..];
    FindFromLast(t, |t| - |MARKER|);
    forall q | 0 <= q < |t| ensures t[q] != '<' {
      assert t[q] == all[q + 1];
    }
    forall q ensures !MarkerAt(t, q) {
      assert 0 <= q && q + |MARKER| <= |t| ==> t[q..q + |MARKER|][0] == t[q] != MARKER[0];
    }
  }

  /** The scan is right for all tokens of at most `n` bytes exactly up to 54. */
  lemma WindowExactly(n: nat)
    ensures (forall seen, bytes :: |bytes| <= n ==> ScanIsRight(seen, bytes)) <==> n <= 54
  {
    hide ScanIsRight;
    if n <= LONGEST {
      forall seen, bytes | |bytes| <= n ensures ScanIsRight(seen, bytes) { WindowSuffices(seen, bytes); }
    } else {
      var bytes := seq(LONGEST + 1, i => if i == 0 then '>' else 'x');
      WindowTooShort(bytes);
    }
  }

  // ------------------------------------------------------------- invariants

  ghost predicate BodyOk(s: Ctl) {
    && |MARKER| <= s.h.mark <= |s.h.text|
    && s.h.text[s.h.mark - |MARKER|..s.h.mark] == MARKER
    && s.tg == Run(Init(s.names, s.h.word), s.h.text[s.h.mark..])
    && !s.tg.dead && !s.tg.IsClosed()
  }

  /** The bytes since a marker begin with one legal call, and only one. */
  ghost predicate BeginsWithCall(names: seq<string>, w: string) {
    exists k :: OnlyCall(names, w, k)
  }

  ghost predicate OnlyCall(names: seq<string>, w: string, k: nat) {
    k <= |w| && forall j :: 0 <= j <= |w| ==> (IsToolCall(names, w[..j]) <==> j == k)
  }

  ghost predicate Sound(s: Ctl) {
    && (s.active ==> BodyOk(s))
    && (s.enabled && !s.active && s.names != [] ==> s.h.from <= |s.h.text| && s.tail == Last(s.h.text[s.h.from..]))
    && (forall i :: 0 <= i < |s.h.calls| ==> BeginsWithCall(s.names, s.h.calls[i]))
  }

  /** Sound, and at most one call has closed: the loop only goes on behind one with the
      constraint switched off. */
  ghost predicate Good(s: Ctl) {
    && Sound(s)
    && |s.h.calls| <= 1
    && (s.h.end == Going && s.enabled ==> s.h.calls == [])
    && (s.active ==> s.enabled && s.h.end == Going)
  }

  /** A fresh request. */
  function Fresh(names: seq<string>, enabled: bool, tg: Config): Ctl {
    Ctl(names, enabled, false, tg, "", 0, 0, NO_HISTORY)
  }

  lemma ClosedBodyIsCall(names: seq<string>, word: string, w: string)
    requires Run(Init(names, word), w).IsClosed()
    ensures BeginsWithCall(names, w)
  {
    hide Run, Closes, Advance, IsToolCall;
    var k := FirstClose(Init(names, word), w);
    forall j | 0 <= j <= |w| ensures IsToolCall(names, w[..j]) <==> j == k {
      ClosesExactlyOnToolCalls(names, word, w[..j]);
      if Closes(Init(names, word), w[..j]) { ClosesOnce(Init(names, word), w, j, k); }
    }
    assert OnlyCall(names, w, k);
  }

  /** A run closes for the first time only once. */
  lemma ClosesOnce(g: Config, w: string, j: nat, k: nat)
    requires j <= |w| && k <= |w| && Closes(g, w[..j]) && Closes(g, w[..k])
    ensures j == k
  {
    hide Run, Closes, Advance;
    ClosesIsFirst(g, w[..j]);
    ClosesIsFirst(g, w[..k]);
    assert forall a, b :: 0 <= a <= b <= |w| ==> w[..b][..a] == w[..a];
  }

  /** A drawn token never kills the machine. */
  lemma DrawnIsLegal(vocab: seq<string>, closerId: int, s: Ctl, id: int)
    requires CloserBytes(vocab, closerId) && s.active && Drawn(vocab, closerId, s, id) && !s.tg.dead
    ensures !Run(s.tg, Decode(vocab, id)).dead
  {
    hide Run, Advance;
    if id == closerId && vocab[id] == CLOSER {
      CloserFromDone(s.tg);
    } else if vocab[id] == "" {
      RunNil(s.tg);
    }
  }

  lemma CloserFromDone(g: Config)
    requires g.st == Done && !g.dead
    ensures !Run(g, CLOSER).dead
  {
    hide Run, Advance, Closes;
    CloserCloses(g);
    ClosesIsFirst(g, CLOSER);
  }

  lemma FeedKeepsGood(vocab: seq<string>, closerId: int, s: Ctl, id: int)
    requires CloserBytes(vocab, closerId) && Sound(s) && s.active && Drawn(vocab, closerId, s, id)
    ensures var t := FeedStep(s, Decode(vocab, id));
      && Sound(t) && t.h.rejects == s.h.rejects && t.disengaged == s.disengaged && t.names == s.names
      && (t.active ==> t.h.calls == s.h.calls) && (!t.active ==> t.tg.IsClosed() && |t.h.calls| == |s.h.calls| + 1)
  {
    hide Run, Advance, IsToolCall;
    var bytes := Decode(vocab, id);
    DrawnIsLegal(vocab, closerId, s, id);
    var text := s.h.text + bytes;
    assert text[s.h.mark..] == s.h.text[s.h.mark..] + bytes;
    RunConcat(Init(s.names, s.h.word), s.h.text[s.h.mark..], bytes);
    var g := Run(s.tg, bytes);
    assert text[s.h.mark - |MARKER|..s.h.mark] == s.h.text[s.h.mark - |MARKER|..s.h.mark];
    if g.IsClosed() {
      ClosedBodyIsCall(s.names, s.h.word, text[s.h.mark..]);
      assert text[|text|..] == "";
    }
  }

  lemma ScanKeepsGood(s: Ctl, bytes: string)
    requires Sound(s) && s.enabled && !s.active && s.names != [] && |bytes| <= LONGEST
    ensures var t := ScanStep(s, bytes);
      && Sound(t) && t.h.rejects == s.h.rejects && t.names == s.names
      && |t.h.calls| == |s.h.calls| + if ClosesCall(s, t) then 1 else 0
  {
    hide Run, Advance, ScanToken, EngageStep, BeginsWithCall, Last, LastMarker, MarkerAt, Config.IsClosed;
    var seen := s.h.text[s.h.from..];
    var text := s.h.text + bytes;
    assert text[s.h.from..] == seen + bytes;
    WindowSuffices(seen, bytes);
    LastOfLast(seen, bytes);
    match ScanToken(s.tail, bytes)
    case Nothing =>
    case Remainder(rem) =>
      EntryBody(s.h.from, text, rem);
      EngageKeepsGood(s.(tail := Last(s.tail + bytes), h := s.h.(text := text)), rem);
  }

  lemma EngageKeepsGood(s: Ctl, rem: string)
    requires Sound(s) && !s.active && s.names != [] && |rem| + |MARKER| <= |s.h.text|
    requires var mark := |s.h.text| - |rem|;
      rem == s.h.text[mark..] && s.h.text[mark - |MARKER|..mark] == MARKER
    ensures var t := EngageStep(s, rem);
      && Sound(t) && t.h.rejects == s.h.rejects && t.names == s.names && t.engaged == s.engaged + 1
      && |t.h.calls| == |s.h.calls| + if !t.active && t.tg.IsClosed() then 1 else 0
  {
    hide Run, Advance, BeginsWithCall, Last;
    if Run(Init(s.names, s.tg.litWord), rem).IsClosed() {
      ClosedBodyIsCall(s.names, s.tg.litWord, rem);
    }
  }

  /** The remainder of the marker's token is the body so far. */
  lemma EntryBody(from: nat, text: string, rem: string)
    requires from <= |text| && LastMarker(text[from..], |text[from..]| - |rem| - |MARKER|)
    requires |rem| <= |text[from..]| && rem == text[from..][|text[from..]| - |rem|..]
    ensures |rem| + |MARKER| <= |text|
    ensures var mark := |text| - |rem|;
      rem == text[mark..] && text[mark - |MARKER|..mark] == MARKER
  {
    var t := text[from..];
    var p := |t| - |rem| - |MARKER|;
    assert |t| == |text| - from;
    assert t[p..p + |MARKER|] == MARKER;
    assert text[from + p..from + p + |MARKER|] == t[p..p + |MARKER|];
  }

  lemma StepKeepsGood(vocab: seq<string>, body: string -> bool, closerId: int, s: Ctl, id: int)
    requires CloserBytes(vocab, closerId) && ShortTokens(vocab)
    requires Good(s) && Drawn(vocab, closerId, s, id)
    ensures var t := SerialStep(vocab, body, s, id);
      Good(t) && t.h.rejects == s.h.rejects && t.names == s.names && (s.active ==> t.disengaged == s.disengaged)
  {
    hide Run, Advance, BeginsWithCall, ScanStep, FeedStep, BodyOk, Last, Config.IsClosed;
    if s.h.end == Going && s.enabled {
      if s.active {
        FeedKeepsGood(vocab, closerId, s, id);
      } else if s.names != [] {
        ScanKeepsGood(s, Decode(vocab, id));
      }
      StepShape(vocab, s, id);
    }
  }

  /** What a step leaves alone. */
  lemma StepShape(vocab: seq<string>, s: Ctl, id: int)
    ensures var t := FedStep(vocab, s, id); t.enabled == s.enabled && t.h.end == s.h.end
    ensures FeedStep(s, Decode(vocab, id)).engaged == s.engaged
  {
    hide Run, Advance, ScanToken, Last, Config.IsClosed;
  }

  /** Over any run whose in-call tokens are drawn from the masks: while a call is open
      the machine is exactly the run on the bytes since its marker, no open call is
      ever given up, and at a close the bytes since the marker begin with one legal call
      and no other. */
  lemma {:induction false} SerialRunIsSafe(vocab: seq<string>, body: string -> bool, closerId: int, s: Ctl, ids: seq<int>)
    requires CloserBytes(vocab, closerId) && ShortTokens(vocab)
    requires Good(s) && Obeys(vocab, body, closerId, s, ids)
    ensures var t := SerialRun(vocab, body, s, ids); Good(t) && t.h.rejects == s.h.rejects && t.names == s.names
    decreases |ids|
  {
    hide Good, SerialStep, Drawn;
    if ids != [] {
      StepKeepsGood(vocab, body, closerId, s, ids[0]);
      SerialRunIsSafe(vocab, body, closerId, SerialStep(vocab, body, s, ids[0]), ids[1..]);
    }
  }

  lemma FreshIsGood(names: seq<string>, enabled: bool, tg: Config)
    ensures Good(Fresh(names, enabled, tg))
  {}

  /** Under the conditions of a run no state is a dead end either: with names that can
      be finished, an open call always has a byte string that closes it. */
  lemma OpenCallCanClose(s: Ctl)
    requires Good(s) && s.active && Finishable(s.names)
    ensures CanClose(s.tg)
  {
    hide Run, Advance, Closes, Finishable, Inv;
    InitInv(s.names, s.h.word);
    RunKeeps(Init(s.names, s.h.word), s.h.text[s.h.mark..]);
    var w := CanFinish(s.tg);
  }

  // --------------------------------------------- where a call starts in the text

  /** The last marker of `seen` is at `p` and ends inside its last `n` bytes. */
  ghost predicate EntersAt(seen: string, n: nat, p: int) {
    LastMarker(seen, p) && p + |MARKER| > |seen| - n
  }

  /** Where a call stands whose body so far is `w`: open, closed, or spoilt. */
  ghost predicate AtBody(body: string -> bool, s: Ctl, t: Ctl, w: string, litWord: string) {
    var g := Run(Init(s.names, litWord), w);
    && t.tg == g
    && (t.active <==> !g.dead && !g.IsClosed())
    && t.disengaged == s.disengaged + (if g.dead then 1 else 0)
    && t.h.calls == s.h.calls + (if g.IsClosed() then [w] else [])
    && (t.enabled <==> !(g.IsClosed() && body(g.namePref)))
    && t.h.end ==
       (if g.dead && !s.active then Threw else if g.IsClosed() && !body(g.namePref) then Stopped else Going)
  }

  /** Outside a call: one starts behind the last marker of the text, if this token
      completed it; otherwise nothing happens. */
  ghost predicate Engages(body: string -> bool, s: Ctl, t: Ctl, bytes: string) {
    s.h.from <= |t.h.text| &&
    var seen := t.h.text[s.h.from..];
    if exists p :: EntersAt(seen, |bytes|, p) then
      t.engaged == s.engaged + 1
      && exists p :: EntersAt(seen, |bytes|, p) && AtBody(body, s, t, seen[p + |MARKER|..], s.tg.litWord)
    else
      !t.active && t.engaged == s.engaged && t.tg == s.tg && t.enabled && t.h.end == Going && t.h.calls == s.h.calls
  }

  /** One token, told over the text: free text once constraining is off, else a call that
      goes on, or one that may start. */
  ghost predicate Told(body: string -> bool, s: Ctl, t: Ctl, bytes: string) {
    && t.h.text == s.h.text + bytes
    && t.names == s.names
    && t.h.from == (if s.active && t.tg.IsClosed() then |t.h.text| else s.h.from)
    && if !s.enabled || (!s.active && s.names == []) then t == s.(h := s.h.(text := t.h.text))
       else if s.active then
         s.h.mark <= |t.h.text| && t.engaged == s.engaged && AtBody(body, s, t, t.h.text[s.h.mark..], s.h.word)
       else Engages(body, s, t, bytes)
  }

  /** Every token of a good state, legal or not, is told right. */
  lemma StepTold(vocab: seq<string>, body: string -> bool, s: Ctl, id: int)
    requires ShortTokens(vocab) && Good(s) && s.h.end == Going
    ensures Told(body, s, SerialStep(vocab, body, s, id), Decode(vocab, id))
  {
    hide Run, Advance, BeginsWithCall, Engages, ScanStep, Last, ScanToken;
    var bytes := Decode(vocab, id);
    var t := SerialStep(vocab, body, s, id);
    if s.enabled && s.active {
      var text := s.h.text + bytes;
      assert text[s.h.mark..] == s.h.text[s.h.mark..] + bytes;
      RunConcat(Init(s.names, s.h.word), s.h.text[s.h.mark..], bytes);
    } else if s.enabled && s.names != [] {
      ScanTold(body, s, bytes);
    }
  }

  lemma ScanTold(body: string -> bool, s: Ctl, bytes: string)
    requires Good(s) && s.h.end == Going && s.enabled && !s.active && s.names != [] && |bytes| <= LONGEST
    ensures var t := Settle(body, s, ScanStep(s, bytes));
      && t.h.text == s.h.text + bytes && t.names == s.names && t.h.from == s.h.from
      && Engages(body, s, t, bytes)
  {
    hide Run, Advance, ScanToken, BeginsWithCall, Last, LastMarker, Config.IsClosed;
    var seen, text := s.h.text[s.h.from..], s.h.text + bytes;
    var t := Settle(body, s, ScanStep(s, bytes));
    assert text[s.h.from..] == seen + bytes;
    WindowSuffices(seen, bytes);
    match ScanToken(s.tail, bytes)
    case Nothing =>
      forall p ensures !EntersAt(seen + bytes, |bytes|, p) {
        if LastMarker(seen + bytes, p) { LastMarkerIs(seen + bytes, p); }
      }
    case Remainder(rem) =>
      var p := |seen + bytes| - |rem| - |MARKER|;
      assert EntersAt(seen + bytes, |bytes|, p);
      EngageTold(body, s, bytes, rem);
      assert AtBody(body, s, t, (seen + bytes)[p + |MARKER|..], s.tg.litWord);
  }

  lemma LastMarkerIs(s: string, p: int)
    requires LastMarker(s, p)
    ensures MarkerAt(s, p)
  {}

  lemma EngageTold(body: string -> bool, s: Ctl, bytes: string, rem: string)
    requires s.h.end == Going && s.enabled && !s.active
    ensures var t := Settle(body, s, EngageStep(s.(tail := Last(s.tail + bytes), h := s.h.(text := s.h.text + bytes)), rem));
      && t.h.text == s.h.text + bytes && t.names == s.names && t.h.from == s.h.from
      && t.engaged == s.engaged + 1
      && AtBody(body, s, t, rem, s.tg.litWord)
  {
    hide Run, Advance, Last;
  }

  lemma {:induction false} SerialRunConcat(vocab: seq<string>, body: string -> bool, s: Ctl, v: seq<int>, w: seq<int>)
    ensures SerialRun(vocab, body, s, v + w) == SerialRun(vocab, body, SerialRun(vocab, body, s, v), w)
    decreases |v|
  {
    hide SerialStep;
    if v == [] {
      assert v + w == w;
    } else {
      assert (v + w)[1..] == v[1..] + w;
      SerialRunConcat(vocab, body, SerialStep(vocab, body, s, v[0]), v[1..], w);
    }
  }

  lemma {:induction false} ObeysFront(vocab: seq<string>, body: string -> bool, closerId: int, s: Ctl, ids: seq<int>, n: nat)
    requires n <= |ids| && Obeys(vocab, body, closerId, s, ids)
    ensures Obeys(vocab, body, closerId, s, ids[..n])
    ensures n < |ids| ==> Drawn(vocab, closerId, SerialRun(vocab, body, s, ids[..n]), ids[n])
    decreases n
  {
    hide SerialStep, Drawn;
    if n > 0 {
      assert ids[..n][1..] == ids[1..][..n - 1];
      ObeysFront(vocab, body, closerId, SerialStep(vocab, body, s, ids[0]), ids[1..], n - 1);
    }
  }

  lemma SerialRunNext(vocab: seq<string>, body: string -> bool, s: Ctl, ids: seq<int>, n: nat)
    requires n < |ids|
    ensures SerialRun(vocab, body, s, ids[..n + 1]) == SerialStep(vocab, body, SerialRun(vocab, body, s, ids[..n]), ids[n])
  {
    hide SerialStep;
    assert ids[..n + 1] == ids[..n] + [ids[n]];
    SerialRunConcat(vocab, body, s, ids[..n], [ids[n]]);
    var a := SerialRun(vocab, body, s, ids[..n]);
    assert SerialRun(vocab, body, a, [ids[n]]) == SerialStep(vocab, body, a, ids[n]);
  }

  /** Over a whole run: whatever came before, each of its tokens is told right. */
  lemma SerialRunTold(vocab: seq<string>, body: string -> bool, closerId: int, s: Ctl, ids: seq<int>, n: nat)
    requires CloserBytes(vocab, closerId) && ShortTokens(vocab) && n < |ids|
    requires Good(s) && Obeys(vocab, body, closerId, s, ids)
    ensures var a, b := SerialRun(vocab, body, s, ids[..n]), SerialRun(vocab, body, s, ids[..n + 1]);
      if a.h.end == Going then Told(body, a, b, Decode(vocab, ids[n])) else b == a
  {
    hide Good, SerialStep, Drawn, Told, Obeys;
    ObeysFront(vocab, body, closerId, s, ids, n);
    SerialRunIsSafe(vocab, body, closerId, s, ids[..n]);
    SerialRunNext(vocab, body, s, ids, n);
    var a := SerialRun(vocab, body, s, ids[..n]);
    if a.h.end == Going { StepTold(vocab, body, a, ids[n]); } else { EndedStep(vocab, body, a, ids[n]); }
  }

  /** The bytes of a run. */
  function Spoken(vocab: seq<string>, ids: seq<int>): string {
    if ids == [] then "" else Spoken(vocab, ids[..|ids| - 1]) + Decode(vocab, ids[|ids| - 1])
  }

  /** One call at most has been started, and it is open exactly if a marker was said. */
  ghost predicate OpenBehindMarker(t: Ctl) {
    && t.h.from == 0
    && t.engaged == (if t.active then 1 else 0)
    && (t.active <==> exists p :: MarkerAt(t.h.text, p))
  }

  lemma OpenNext(vocab: seq<string>, body: string -> bool, closerId: int, s: Ctl, id: int)
    requires CloserBytes(vocab, closerId) && ShortTokens(vocab) && Good(s) && Drawn(vocab, closerId, s, id)
    requires s.h.end == Going && s.names != []
    requires s.enabled ==> OpenBehindMarker(s)
    requires var t := SerialStep(vocab, body, s, id);
      && t.h.end == Going && t.enabled
      && Told(body, s, t, Decode(vocab, id))
    ensures var t := SerialStep(vocab, body, s, id);
      s.enabled && OpenBehindMarker(t) && t.h.text == s.h.text + Decode(vocab, id)
  {
    hide Run, Advance, SerialStep, Drawn, MarkerAt, BodyOk, BeginsWithCall, LastMarker, EntersAt;
    var t, bytes := SerialStep(vocab, body, s, id), Decode(vocab, id);
    if s.active {
      StepKeepsGood(vocab, body, closerId, s, id);
      var p :| MarkerAt(s.h.text, p);
      MarkerStays(s.h.text, bytes, p);
    } else {
      NoneEnters(s.h.text, bytes);
      assert t.h.text[0..] == t.h.text;
      if p :| EntersAt(t.h.text, |bytes|, p) { EntersIsMarker(t.h.text, |bytes|, p); }
    }
  }

  lemma MarkerStays(s: string, bytes: string, p: int)
    requires MarkerAt(s, p)
    ensures MarkerAt(s + bytes, p)
  {
    assert (s + bytes)[p..p + |MARKER|] == s[p..p + |MARKER|];
  }

  lemma EntersIsMarker(s: string, n: nat, p: int)
    requires EntersAt(s, n, p)
    ensures MarkerAt(s, p)
  {}

  /** With no marker before, a marker is there exactly if the last one ends in the new bytes. */
  lemma NoneEnters(s: string, bytes: string)
    requires forall p :: !MarkerAt(s, p)
    ensures (exists p :: EntersAt(s + bytes, |bytes|, p)) <==> exists p :: MarkerAt(s + bytes, p)
  {
    hide MarkerAt, RFind;
    var all := s + bytes;
    if p :| EntersAt(all, |bytes|, p) { EntersIsMarker(all, |bytes|, p); }
    if exists p :: MarkerAt(all, p) {
      RFindIsLast(all);
      var r := RFind(all);
      if r + |MARKER| <= |s| { MarkerWithin(s, bytes, r); }
      assert EntersAt(all, |bytes|, r);
    }
  }

  lemma MarkerWithin(s: string, bytes: string, p: int)
    requires MarkerAt(s + bytes, p) && p + |MARKER| <= |s|
    ensures MarkerAt(s, p)
  {
    assert (s + bytes)[p..p + |MARKER|] == s[p..p + |MARKER|];
  }

  /** In a request whose loop still goes on with constraining in force a call is open
      exactly if there is a marker anywhere in what was said. */
  lemma {:induction false} OpenExactlyBehindMarker(vocab: seq<string>, body: string -> bool, closerId: int, names: seq<string>, tg: Config, ids: seq<int>)
    requires CloserBytes(vocab, closerId) && ShortTokens(vocab) && names != []
    requires Obeys(vocab, body, closerId, Fresh(names, true, tg), ids)
    ensures var t := SerialRun(vocab, body, Fresh(names, true, tg), ids);
      t.h.end == Going && t.enabled ==>
        && t.h.text == Spoken(vocab, ids)
        && OpenBehindMarker(t)
    decreases |ids|
  {
    hide Good, SerialStep, Drawn, Told, Obeys, Run, Advance, MarkerAt;
    var s := Fresh(names, true, tg);
    var t := SerialRun(vocab, body, s, ids);
    FreshIsGood(names, true, tg);
    if ids == [] {
      NoMarker();
    } else {
      var n := |ids| - 1;
      ObeysFront(vocab, body, closerId, s, ids, n);
      OpenExactlyBehindMarker(vocab, body, closerId, names, tg, ids[..n]);
      SerialRunTold(vocab, body, closerId, s, ids, n);
      SerialRunNext(vocab, body, s, ids, n);
      assert ids[..n + 1] == ids;
      SerialRunIsSafe(vocab, body, closerId, s, ids[..n]);
      var a := SerialRun(vocab, body, s, ids[..n]);
      if t.h.end == Going && t.enabled { OpenNext(vocab, body, closerId, a, ids[n]); }
    }
  }

  lemma NoMarker()
    ensures forall p :: !MarkerAt("", p)
  {}

  // ------------------------------------------- what the masks offer is accepted

  /** While a call is open the mask of its state offers exactly what the text of the call
      can go on with. */
  lemma OpenCallMask(vocab: seq<string>, closerId: int, s: Ctl, id: nat)
    requires Good(s) && s.active && Finishable(s.names) && id < |vocab|
    ensures s.h.mark <= |s.h.text|
    ensures var u := s.h.text[s.h.mark..];
      Bit(FreshMask(vocab, closerId, s.tg), id) <==>
      if id == closerId then CallComplete(s.names, u) else vocab[id] != "" && CallContinues(s.names, u, vocab[id])
  {
    hide Run, Advance, FreshMask, Bit, Finishable, CallComplete, CallContinues, Config.IsClosed;
    MaskOffersCalls(vocab, closerId, s.names, s.h.word, s.h.text[s.h.mark..], id);
  }

  /** Every token a mask offers in a live run is accepted byte by byte, with one
      exception: the closer id half-way through the closing tag. */
  lemma OfferedAcceptedExactly(vocab: seq<string>, closerId: int, g: Config, id: nat)
    requires Inv(g) && CloserBytes(vocab, closerId) && id < |vocab| && Legal(vocab, closerId, g, id)
    ensures TokenOk(g, vocab[id]) <==> !(id == closerId && vocab[id] != "" && g.st == Closer)
  {
    hide Run, Advance;
    if id == closerId && vocab[id] != "" {
      if g.st == Closer {
        CloserIdWider(vocab, id, g);
      } else if g.st == Done {
        CloserFromDone(g);
      } else {
        ClosedStays(g, vocab[id]);
      }
    }
  }
}
