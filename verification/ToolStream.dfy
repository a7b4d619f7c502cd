/** The two JSON repairers as objects: the buffered stepper driven over a whole text,
    and the streamer fed whatever pieces arrive. */
module ToolStream {
  import opened Json
  import opened JsonRepair
  import opened JsonTagged
  import opened JsonRescan
  import JsonMending
  import opened CallHead
  import opened Strings

  // ------------------------------------------------------------ the stepper

  class JsonSanitizerStepper {
    /** The switches: look-ahead behind quotes, escaping of control bytes. */
    const lookahead: bool
    const control: bool
    var depth: int
    var inStr: bool
    var esc: bool
    var stringIsKey: bool
    var ctx: Context
    /** The marks: a quote was escaped, a control byte was escaped. */
    var quoteUsed: bool
    var controlUsed: bool

    ghost function View(): Core
      reads this
    {
      Core(depth, inStr, esc, stringIsKey, ctx)
    }

    constructor (lookahead: bool, control: bool)
      ensures View() == START && !quoteUsed && !controlUsed
      ensures this.lookahead == lookahead && this.control == control
    {
      this.lookahead, this.control := lookahead, control;
      depth, inStr, esc, stringIsKey, ctx := 0, false, false, false, [];
      quoteUsed, controlUsed := false, false;
    }

    /** Skips white space behind the quote at `j`. */
    static method QuoteTerminatesString(s: string, j: nat, isKey: bool) returns (b: bool)
      requires j < |s|
      ensures b == QuoteTerminates(s[j + 1..], isKey)
    {
      var k := j + 1;
      while k < |s|
        invariant j < k <= |s|
        invariant QuoteTerminates(s[k..], isKey) == QuoteTerminates(s[j + 1..], isKey)
      {
        var c := s[k];
        assert s[k..][1..] == s[k + 1..];
        if !IsWs(c) { return Ends(c, isKey); }
        k := k + 1;
      }
      return true;
    }

    /** Process `src[i]`; `out` is what it adds. */
    method Step(src: string, i: nat) returns (out: string)
      requires i < |src|
      modifies this
      ensures var m := ModeStep(lookahead, control, old(View()), src[i], src[i + 1..]);
        && View() == m.st && out == m.out
        && quoteUsed == (old(quoteUsed) || m.quote) && controlUsed == (old(controlUsed) || m.control)
    {
      var c := src[i];
      if esc { esc := false; return [c]; }
      if inStr {
        if c == '\\' { esc := true; return [c]; }
        if c == '"' {
          var ends := true;
          if lookahead { ends := QuoteTerminatesString(src, i, stringIsKey); }
          if ends { inStr := false; return [c]; }
          quoteUsed := true;
          return "\\\"";
        }
        if control && c == '\n' { controlUsed := true; return "\\n"; }
        if control && c == '\r' { controlUsed := true; return "\\r"; }
        if control && c == '\t' { controlUsed := true; return "\\t"; }
        return [c];
      }
      if c == '"' {
        stringIsKey := OpeningStringIsKey(ctx);
        inStr := true;
      } else {
        ctx := Structural(ctx, c);
        if c == '{' { depth := depth + 1; } else if c == '}' { depth := depth - 1; }
      }
      return [c];
    }
  }

  /** One scan of a segment: the index of the closing brace, or -1. */
  method ScanSegment(text: string, start: nat, look: bool) returns (end: int, san: string, control: bool, quote: bool)
    requires start <= |text|
    ensures var q := SegmentScan(look, START, text[start..]);
      && san == q.scan.out && end == (if q.scan.closed then start + q.scan.used - 1 else -1)
      && control == q.control && quote == q.quote
  {
    hide ModeStep, SegmentScan;
    var st := new JsonSanitizerStepper(look, true);
    san := "";
    var j := start;
    ghost var all := SegmentScan(look, START, text[start..]);
    while j < |text|
      invariant start <= j <= |text| && st.lookahead == look && st.control && fresh(st)
      invariant var q := SegmentScan(look, st.View(), text[j..]);
        && all.scan.closed == q.scan.closed && all.scan.out == san + q.scan.out && all.scan.used == j - start + q.scan.used
        && all.control == (st.controlUsed || q.control) && all.quote == (st.quoteUsed || q.quote)
    {
      SegmentUnfolds(look, st.View(), text[j..]);
      assert text[j..][0] == text[j] && text[j..][1..] == text[j + 1..];
      var piece := st.Step(text, j);
      san := san + piece;
      if !st.inStr && st.depth == 0 && text[j] == '}' { return j, san, st.controlUsed, st.quoteUsed; }
      j := j + 1;
    }
    SegmentUnfolds(look, st.View(), text[j..]);
    end, control, quote := -1, st.controlUsed, st.quoteUsed;
  }

  /** Both scans: the second only behind an unbalanced first that escaped a quote, so the
      quote mark is left on segments that balance only. */
  method RecoverSegment(text: string, start: nat) returns (end: int, san: string, control: bool, quote: bool)
    requires start <= |text|
    ensures var q := Recovered(text[start..]);
      && san == q.scan.out && end == (if q.scan.closed then start + q.scan.used - 1 else -1)
      && control == q.control && quote == q.quote
    ensures quote ==> end >= 0
    ensures forall k: nat :: JsonMending.ObjectFront(text[start..], k) ==>
      end == start + k - 1 && san == text[start..][..k] && !control && !quote
    ensures forall d :: JsonMending.DraftFront(JsonMending.BUFFERED, text[start..], d) ==>
      && end == start + |JsonMending.DraftText(d)| - 1 && san == JsonMending.MeantText(d)
      && control == JsonMending.ObjectPiece(d).control && quote == JsonMending.ObjectPiece(d).quote
  {
    MarkedMeansClosed(text[start..]);
    JsonMending.FrontRecovered(text[start..]);
    hide SegmentScan, JsonMending.ObjectFront, JsonMending.DraftFront, JsonMending.DraftText, JsonMending.MeantText;
    end, san, control, quote := ScanSegment(text, start, true);
    if end < 0 && quote { end, san, control, quote := ScanSegment(text, start, false); }
  }

  // ----------------------------------------------------------- the streamer

  const HEAD_LIMIT := 512

  datatype State = Head | Args | Done | InvalidDone | Fallback

  /** No feed stopped between the limit and the opening brace of the arguments. */
  predicate NeverStalled(cuts: set<nat>, at: int) {
    forall n :: n in cuts ==> !(HEAD_LIMIT < n <= at)
  }

  lemma StallsNoMore(cuts: set<nat>, at: int, n: nat)
    requires NeverStalled(cuts, at) && at < n
    ensures NeverStalled(cuts + {n}, at)
  {}

  /** The head is of another shape, or a feed left it undecided beyond the limit. */
  ghost predicate Refuses(raw: string, cuts: set<nat>) {
    MatchHead(raw) == Refused || exists n :: n in cuts && HEAD_LIMIT < n <= |raw| && MatchHead(raw[..n]) == Undecided
  }

  lemma StaysRefused(raw: string, cuts: set<nat>, t: string)
    requires Refuses(raw, cuts)
    ensures Refuses(raw + t, cuts + {|raw + t|})
  {
    hide MatchHead;
    HeadFits(raw, t);
    if n: nat :| n in cuts && HEAD_LIMIT < n <= |raw| && MatchHead(raw[..n]) == Undecided {
      assert (raw + t)[..n] == raw[..n];
    }
  }

  lemma RefusesNow(raw: string, cuts: set<nat>)
    requires MatchHead(raw) == Refused || (MatchHead(raw) == Undecided && |raw| > HEAD_LIMIT && |raw| in cuts)
    ensures Refuses(raw, cuts)
  {
    hide MatchHead;
    assert raw[..|raw|] == raw;
  }

  class ToolCallStreamer {
    /** Would the finished object parse?  The JSON parser is not part of this model. */
    const parses: string -> bool
    var state: State
    var raw: string
    var head: string
    var name: string
    var isOpen: bool
    var trail: string
    var sanitized: string
    var depth: int
    var inStr: bool
    var esc: bool
    var stringIsKey: bool
    var ctx: Context
    var pendQ: bool
    var pendTag: bool
    var outerSeen: bool
    var pendWs: string
    var tag: string
    /** Bytes behind the closing brace of the arguments. */
    ghost var rest: string
    /** How much had been fed after each feed. */
    ghost var cuts: set<nat>

    ghost function View(): Stream
      reads this`state, this`depth, this`inStr, this`esc, this`stringIsKey, this`ctx, this`pendQ, this`pendTag, this`pendWs, this`tag
    {
      Stream(Core(depth, inStr, esc, stringIsKey, ctx), pendQ, pendTag, pendWs, tag, state == Done || state == InvalidDone)
    }

    ghost predicate Untouched()
      reads this
    {
      View() == STREAM_START && sanitized == "" && trail == "" && rest == "" && !outerSeen && !isOpen
    }

    /** Behind the head the state is a function of the bytes behind it, however they were
        chopped; in front of it only the limit looks at the pieces. */
    ghost predicate Valid()
      reads this
    {
      && (forall n :: n in cuts ==> n <= |raw|)
      && (isOpen <==> state != Head && state != Fallback)
      && match state
         case Head => Untouched() && head == raw && |raw| <= HEAD_LIMIT && MatchHead(raw) == Undecided
         case Fallback => Untouched() && Refuses(raw, cuts)
         case _ => Streams()
    }

    ghost predicate Streams()
      reads this
    {
      && MatchHead(raw).Matched? && MatchHead(raw).name == name && NeverStalled(cuts, ArgsAt(raw))
      && Follows(MatchHead(raw).args)
    }

    /** The arguments fed so far are `args`. */
    ghost predicate Follows(args: string)
      reads this`state, this`depth, this`inStr, this`esc, this`stringIsKey, this`ctx, this`pendQ, this`pendTag, this`pendWs, this`tag
      reads this`trail, this`outerSeen, this`rest, this`sanitized
    {
      && StreamRun(STREAM_START, args) == Ran(View(), sanitized, rest)
      && (state == Args || state == if parses(sanitized) then Done else InvalidDone)
      && trail == Trail(rest)
      && outerSeen == OuterSeen(rest)
    }

    constructor (parses: string -> bool)
      ensures Valid() && raw == "" && sanitized == "" && state == Head && cuts == {} && this.parses == parses
    {
      this.parses := parses;
      state, raw, head, name, isOpen := Head, "", "", "", false;
      trail, sanitized, rest, cuts := "", "", "", {};
      depth, inStr, esc, stringIsKey, ctx := 0, false, false, false, [];
      pendQ, pendTag, outerSeen, pendWs, tag := false, false, false, "", "";
    }

    method AddTrail(s: string)
      requires trail == Trail(rest) && outerSeen == OuterSeen(rest)
      modifies this`trail, this`outerSeen, this`rest
      ensures rest == old(rest) + s && trail == Trail(rest) && outerSeen == OuterSeen(rest)
    {
      TrailConcat(rest, s);
      rest := rest + s;
      var k := 0;
      if !outerSeen {
        while k < |s| && IsWs(s[k])
          invariant 0 <= k <= |s| && forall i :: 0 <= i < k ==> IsWs(s[i])
          invariant Trail(s[k..]) == Trail(s)
        {
          assert s[k..][1..] == s[k + 1..];
          k := k + 1;
        }
        if k == |s| { return; }
        outerSeen := true;
        assert OuterSeen(s);
        assert s[k..][1..] == s[k + 1..];
        if s[k] == '}' { k := k + 1; }
      }
      trail := trail + s[k..];
    }

    /** Feed argument bytes: scanned while the object is open, trail behind it. */
    method FeedArgs(t: string, ghost args: string) returns (out: string)
      requires Follows(args)
      modifies this`state, this`depth, this`inStr, this`esc, this`stringIsKey, this`ctx, this`pendQ, this`pendTag, this`pendWs, this`tag
      modifies this`trail, this`outerSeen, this`rest, this`sanitized
      ensures Follows(args + t) && sanitized == old(sanitized) + out
    {
      hide StreamStep, StreamRun, Trail, OuterSeen;
      StreamRunConcat(STREAM_START, args, t);
      StreamRunReads(STREAM_START, args);
      TrailEmpty();
      if state == Done || state == InvalidDone { AddTrail(t); return ""; }
      out := Scan(t);
      sanitized := sanitized + out;
      ValidateDone();
    }

    /** Feed body bytes; `out` is the fragment to send on. */
    method Feed(t: string) returns (out: string, openedNow: bool)
      requires Valid()
      modifies this
      ensures Valid() && raw == old(raw) + t && sanitized == old(sanitized) + out
      ensures cuts == old(cuts) + {|raw|} && openedNow == (isOpen && !old(isOpen)) && (old(isOpen) ==> isOpen)
    {
      hide Follows, MatchHead, VerdictFits, Refuses, NeverStalled;
      if state == Head {
        out, openedNow := FeedHead(t);
        return;
      }
      HeadGrows(raw, t);
      out, openedNow := "", false;
      if state == Fallback {
        StaysRefused(raw, cuts, t);
      } else {
        ghost var args := MatchHead(raw).args;
        StallsNoMore(cuts, ArgsAt(raw), |raw + t|);
        out := FeedArgs(t, args);
        FollowsOpen(args + t);
      }
      Count(t);
    }

    method FeedHead(t: string) returns (out: string, openedNow: bool)
      requires Valid() && state == Head
      modifies this
      ensures Valid() && raw == old(raw) + t && sanitized == out && cuts == old(cuts) + {|raw|} && openedNow == isOpen
    {
      hide Follows, MatchHead, Refuses, NeverStalled;
      assert forall n :: n in cuts ==> n <= HEAD_LIMIT;
      Count(t);
      head := head + t;
      out, openedNow := Decide();
    }

    lemma FollowsOpen(args: string)
      requires Follows(args)
      ensures state == Args || state == Done || state == InvalidDone
    {}

    method Count(t: string)
      modifies this`raw, this`cuts
      ensures raw == old(raw) + t && cuts == old(cuts) + {|raw|}
    {
      raw, cuts := raw + t, cuts + {|raw + t|};
    }

    /** In the head: match it, and once it matches stream what is behind it. */
    method Decide() returns (out: string, openedNow: bool)
      requires state == Head && Untouched() && head == raw && |raw| in cuts
      requires forall n :: n in cuts ==> n <= |raw|
      requires forall n :: n in cuts && n < |raw| ==> n <= HEAD_LIMIT
      modifies this
      ensures Valid() && raw == old(raw) && cuts == old(cuts) && sanitized == out && openedNow == isOpen
    {
      hide Follows, MatchHead, VerdictFits, Refuses;
      HeadGrows(raw, "");
      assert raw + "" == raw;
      out, openedNow := "", false;
      var m, nm, consumed := Match(head);
      if m == 0 {
        if |head| > HEAD_LIMIT {
          RefusesNow(raw, cuts);
          state := Fallback;
        }
        return;
      }
      if m < 0 {
        RefusesNow(raw, cuts);
        state := Fallback;
        return;
      }
      out := OpenCall(nm, consumed);
      openedNow := true;
    }

    /** The head has matched: the call is open and what is behind the head streams. */
    method OpenCall(nm: string, consumed: nat) returns (out: string)
      requires state == Head && Untouched() && consumed <= |head|
      modifies this`state, this`depth, this`inStr, this`esc, this`stringIsKey, this`ctx, this`pendQ, this`pendTag, this`pendWs, this`tag
      modifies this`trail, this`outerSeen, this`rest, this`sanitized, this`head, this`name, this`isOpen
      ensures Follows(old(head)[consumed..]) && sanitized == out && isOpen && name == nm
      ensures state == Args || state == Done || state == InvalidDone
    {
      hide Follows;
      state, isOpen, name := Args, true, nm;
      var behind := head[consumed..];
      head := "";
      FollowsNothing();
      out := FeedArgs(behind, "");
      assert "" + behind == behind && "" + out == out;
      FollowsOpen(behind);
    }

    lemma FollowsNothing()
      requires View() == STREAM_START && state == Args && sanitized == "" && trail == "" && rest == "" && !outerSeen
      ensures Follows("")
    {}

    /** What more bytes mean for the head. */
    lemma HeadGrows(b: string, t: string)
      ensures MatchHead(b) != Undecided ==> MatchHead(b + t) == LongerVerdict(MatchHead(b), t)
      ensures MatchHead(b).Matched? ==> ArgsAt(b + t) == ArgsAt(b) < |b|
      ensures MatchHead(b) == Undecided && MatchHead(b + t).Matched? ==> |b| <= ArgsAt(b + t) < |b + t|
      ensures forall n :: 0 <= n <= |b| ==> (b + t)[..n] == b[..n]
    {
      HeadFits(b, t);
      HeadFits(b + t, "");
      HeadFits(b, "");
    }

    method ValidateDone()
      modifies this`state
      ensures state == if old(state) == Done && !parses(sanitized) then InvalidDone else old(state)
    {
      if state == Done && !parses(sanitized) { state := InvalidDone; }
    }

    /** The streaming loop over one piece. */
    method Scan(input: string) returns (out: string)
      requires state == Args && rest == "" && trail == "" && !outerSeen
      modifies this`state, this`depth, this`inStr, this`esc, this`stringIsKey, this`ctx, this`pendQ, this`pendTag, this`pendWs, this`tag
      modifies this`trail, this`outerSeen, this`rest
      ensures StreamRun(old(View()), input) == Ran(View(), out, rest)
      ensures (state == Args || state == Done) && trail == Trail(rest) && outerSeen == OuterSeen(rest)
    {
      hide StreamStep;
      out := "";
      var i := 0;
      assert input[0..] == input;
      while i < |input| && state == Args
        invariant 0 <= i <= |input|
        invariant (state == Args || state == Done) && rest == "" && trail == "" && !outerSeen
        invariant StreamRun(old(View()), input) == var r := StreamRun(View(), input[i..]); Ran(r.st, out + r.out, r.rest)
        decreases |input| - i
      {
        assert input[i..][1..] == input[i + 1..];
        var piece := Byte(input[i]);
        out := out + piece;
        i := i + 1;
      }
      if state != Args { AddTrail(input[i..]); }
    }

    /** One byte of the loop: a byte that does not go on with a half-read tag is
        processed again with the tag flushed. */
    method Byte(c: char) returns (out: string)
      requires state == Args
      modifies this`state, this`depth, this`inStr, this`esc, this`stringIsKey, this`ctx, this`pendQ, this`pendTag, this`pendWs, this`tag
      ensures (state == Args || state == Done) && Out(View(), out) == StreamStep(old(View()), c)
    {
      hide Resolve;
      out := "";
      if tag != "" {
        var want := if inStr then TAG_CLOSE else TAG_OPEN;
        if |tag| < |want| && c == want[|tag|] {
          tag := tag + [c];
          if |tag| == |want| {
            tag := "";
            if inStr { pendTag := true; } else { out := "\""; inStr := true; stringIsKey := false; }
          }
          return;
        }
        out := tag;
        tag := "";
      }
      var more := PendingByte(c);
      out := out + more;
    }

    method PendingByte(c: char) returns (out: string)
      requires state == Args && tag == ""
      modifies this`state, this`depth, this`inStr, this`esc, this`stringIsKey, this`ctx, this`pendQ, this`pendTag, this`pendWs, this`tag
      ensures (state == Args || state == Done) && Out(View(), out) == Resolve(old(View()), c)
    {
      hide Plain, Held;
      out := "";
      if pendQ || pendTag {
        if IsWs(c) { pendWs := pendWs + [c]; return; }
        out := Release(c);
      }
      var plain := PlainByte(c);
      out := out + plain;
    }

    /** The white space was content: escaped byte by byte. */
    method EscapeAll(ws: string) returns (out: string)
      ensures out == EscapeControls(ws)
    {
      out := "";
      var k := 0;
      assert ws[0..] == ws;
      while k < |ws|
        invariant 0 <= k <= |ws| && out + EscapeControls(ws[k..]) == EscapeControls(ws)
      {
        assert ws[k..][1..] == ws[k + 1..];
        assert out + (EscapeControl(ws[k]) + EscapeControls(ws[k + 1..])) == (out + EscapeControl(ws[k])) + EscapeControls(ws[k + 1..]);
        out := out + EscapeControl(ws[k]);
        k := k + 1;
      }
    }

    /** Decide a held quote or tag by the first byte behind it. */
    method Release(c: char) returns (out: string)
      requires (pendQ || pendTag) && state == Args
      modifies this`inStr, this`pendQ, this`pendTag, this`pendWs
      ensures out == Held(old(View()), Ends(c, stringIsKey))
      ensures View() == old(View()).(pendQ := false, pendTag := false, pendWs := "",
                core := old(View()).core.(inStr := if Ends(c, stringIsKey) then false else old(inStr)))
    {
      if Ends(c, stringIsKey) {
        out := "\"";
        out := out + pendWs;
        inStr := false;
      } else {
        out := if pendTag then TAG_CLOSE else "\\\"";
        var ws := EscapeAll(pendWs);
        out := out + ws;
      }
      pendWs := "";
      pendQ := false;
      pendTag := false;
    }

    method PlainByte(c: char) returns (out: string)
      requires state == Args
      modifies this`state, this`depth, this`inStr, this`esc, this`stringIsKey, this`ctx, this`pendQ, this`tag
      ensures (state == Args || state == Done) && Out(View(), out) == Plain(old(View()), c)
    {
      if esc { esc := false; return [c]; }
      if inStr {
        if c == '\\' { esc := true; return [c]; }
        if c == '"' { pendQ := true; return ""; }
        if c == '<' { tag := [c]; return ""; }
        return EscapeControl(c);
      }
      if c == '<' { tag := [c]; return ""; }
      if c == '"' {
        stringIsKey := OpeningStringIsKey(ctx);
        inStr := true;
      } else {
        ctx := Structural(ctx, c);
        if c == '{' {
          depth := depth + 1;
        } else if c == '}' {
          depth := depth - 1;
          if depth == 0 { state := Done; }
        }
      }
      return [c];
    }

    /** End of the turn: an object that is still open gets what is held back, a pending
        quote as a terminator. */
    method Finalize() returns (ok: bool, tail: string)
      modifies this`tag, this`pendQ, this`pendTag
      ensures ok == (state == Done)
      ensures tail == if state == Args then FinalTail(old(View())) else ""
    {
      tail := "";
      if state == Done { return true, ""; }
      if state == Args {
        if tag != "" { tail := tag; tag := ""; }
        if pendQ || pendTag {
          tail := tail + ("\"" + pendWs);
          pendQ := false;
          pendTag := false;
        }
      }
      return false, tail;
    }
  }

  /** How much has been fed after each of the first `k` pieces. */
  function Cuts(pieces: seq<string>, k: nat): set<nat>
    requires k <= |pieces|
  {
    set j | 1 <= j <= k :: |Concat(pieces[..j])|
  }

  lemma CutsOneMore(pieces: seq<string>, k: nat)
    requires k < |pieces|
    ensures Cuts(pieces, k + 1) == Cuts(pieces, k) + {|Concat(pieces[..k + 1])|}
  {}

  /** Whether a matching head streams does not depend on the pieces exactly when the
      arguments begin within the limit; a longer head streams in some pieces and not in
      others. */
  lemma AnyPiecesExactly(body: string)
    requires MatchHead(body).Matched?
    ensures (forall pieces :: Concat(pieces) == body ==> NeverStalled(Cuts(pieces, |pieces|), ArgsAt(body))) <==>
            ArgsAt(body) <= 512
    ensures Concat([body]) == body && NeverStalled(Cuts([body], 1), ArgsAt(body))
  {
    hide MatchHead;
    var at := ArgsAt(body);
    DecidedAtBrace(body, |body|);
    ConcatOne(body);
    assert [body][..1] == [body];
    if at > HEAD_LIMIT {
      var a, b := body[..HEAD_LIMIT + 1], body[HEAD_LIMIT + 1..];
      ConcatOne(a);
      ConcatSnoc([a], b);
      var pieces := [a] + [b];
      assert pieces[..1] == [a] && a + b == body;
      assert |a| in Cuts(pieces, 2);
    }
  }

  /** A whole call body, in any pieces.  It streams exactly when its head is the expected
      one and no feed stopped between the limit and the arguments; then name, fragments
      with the final tail, trail and verdict depend on the body alone: they are what reading
      the arguments with unlimited look-ahead writes, for arguments without content tags
      the buffered scan.  Legal and drifted objects come out as the objects meant. */
  method StreamCall(parses: string -> bool, pieces: seq<string>)
      returns (isOpen: bool, name: string, sent: string, trail: string, ok: bool)
    ensures var body := Concat(pieces);
      isOpen <==> MatchHead(body).Matched? && NeverStalled(Cuts(pieces, |pieces|), ArgsAt(body))
    ensures !isOpen ==> sent == "" && trail == "" && !ok
    ensures isOpen ==>
      var v := MatchHead(Concat(pieces)); var r := StreamRun(STREAM_START, v.args);
      && name == v.name && sent == Streamed(v.args) && trail == Trail(r.rest)
      && ok == (r.st.done && parses(r.out))
    ensures isOpen ==>
      var args := MatchHead(Concat(pieces)).args; var q := TaggedScan(START, args);
      && sent == q.out
      && trail == (if q.closed then Trail(args[q.used..]) else "")
      && ok == (q.closed && parses(q.out))
      && (TagFree(args) ==> q == BufferedScan(START, args))
    ensures isOpen ==>
      var args := MatchHead(Concat(pieces)).args;
      && (forall k: nat :: JsonMending.ObjectFront(args, k) && TagFree(args[..k]) ==>
        sent == args[..k] && trail == Trail(args[k..]) && ok == parses(args[..k]))
      && forall d :: JsonMending.DraftFront(JsonMending.STREAMED, args, d) ==>
        && sent == JsonMending.MeantText(d) && trail == Trail(args[|JsonMending.DraftText(d)|..])
        && ok == parses(JsonMending.MeantText(d))
  {
    hide StreamRun, BufferedScan, TagFree, Trail, OuterSeen, MatchHead, VerdictFits, TaggedScan;
    hide JsonMending.ObjectFront, JsonMending.DraftFront, JsonMending.DraftText, JsonMending.MeantText;
    var s := new ToolCallStreamer(parses);
    sent := "";
    var k := 0;
    while k < |pieces|
      invariant 0 <= k <= |pieces|
      invariant s.Valid() && s.sanitized == sent && s.raw == Concat(pieces[..k]) && s.cuts == Cuts(pieces, k)
    {
      hide ToolCallStreamer.Valid;
      assert pieces[..k + 1] == pieces[..k] + [pieces[k]];
      ConcatSnoc(pieces[..k], pieces[k]);
      CutsOneMore(pieces, k);
      var piece, openedNow := s.Feed(pieces[k]);
      sent := sent + piece;
      k := k + 1;
    }
    assert pieces[..k] == pieces;
    isOpen, name, trail := s.isOpen, s.name, s.trail;
    Opens(s);
    TrailEmpty();
    var tail;
    ghost var w := s.sanitized;
    assert w + "" == w;
    if isOpen { Behind(s, MatchHead(s.raw).args); }
    ok, tail := s.Finalize();
    sent := sent + tail;
    if isOpen { JsonMending.FrontStreamed(MatchHead(Concat(pieces)).args); }
  }

  /** A streamer has opened its call exactly when the head matches and no feed stalled. */
  lemma Opens(s: ToolCallStreamer)
    requires s.Valid()
    ensures s.isOpen <==> MatchHead(s.raw).Matched? && NeverStalled(s.cuts, ArgsAt(s.raw))
  {
    hide MatchHead, StreamRun, Trail, OuterSeen;
    if s.state == Fallback && MatchHead(s.raw).Matched? {
      var n :| n in s.cuts && HEAD_LIMIT < n <= |s.raw| && MatchHead(s.raw[..n]) == Undecided;
      DecidedAtBrace(s.raw, n);
    }
  }

  /** What has been streamed of the arguments, against the buffered scan. */
  lemma Behind(s: ToolCallStreamer, args: string)
    requires s.Valid() && s.isOpen && args == MatchHead(s.raw).args
    ensures var r := StreamRun(STREAM_START, args);
      && s.sanitized == r.out && s.trail == Trail(r.rest) && (r.st.done <==> s.state != Args)
      && (r.st.done ==> s.state == if s.parses(r.out) then Done else InvalidDone)
      && (!r.st.done ==> r.st == s.View() && r.rest == "")
    ensures var q := TaggedScan(START, args); var r := StreamRun(STREAM_START, args);
      && q.closed == r.st.done && r.rest == args[q.used..] && q.out == Streamed(args)
      && (TagFree(args) ==> q == BufferedScan(START, args))
  {
    hide MatchHead, StreamRun, Trail, OuterSeen, BufferedScan, TagFree, TaggedScan;
    StreamRunReads(STREAM_START, args);
    StreamIsTagged(args);
    if TagFree(args) { TagFreeScan(START, args); }
  }

  lemma TrailEmpty()
    ensures Trail("") == "" && !OuterSeen("")
  {}
}
