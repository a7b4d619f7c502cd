/** What the repairs make of JSON whose strings have drifted: raw control bytes, inner
    quotes and content tags are mended, and everything else, all of it in legal JSON, is
    left alone. */
module JsonMending {
  import opened Json
  import opened JsonRepair
  import opened JsonTagged
  import opened JsonRescan

  // ------------------------------------------------------- one scan for all forms

  /** The switches: look-ahead behind quotes, content tags. */
  datatype Mode = Mode(look: bool, tags: bool)

  datatype Taken = Taken(st: Core, out: string, used: nat, control: bool, quote: bool)

  function ReadStep(m: Mode, b: Core, src: string): (r: Taken)
    requires src != ""
    ensures 0 < r.used <= |src|
  {
    if m.tags && !b.esc && Want(b.inStr) <= src then
      var t := TaggedStep(b, src);
      Taken(t.st, t.out, t.used, false, false)
    else
      var t := ModeStep(m.look, true, b, src[0], src[1..]);
      Taken(t.st, t.out, 1, t.control, t.quote)
  }

  function ReadScan(m: Mode, b: Core, src: string): Segment
    decreases |src|
  {
    if src == "" then Segment(Scanned(false, "", 0), false, false)
    else
      var o := ReadStep(m, b, src);
      if Balanced(o.st, src[0]) then Segment(Scanned(true, o.out, o.used), o.control, o.quote)
      else
        var r := ReadScan(m, o.st, src[o.used..]);
        Segment(Scanned(r.scan.closed, o.out + r.scan.out, o.used + r.scan.used), o.control || r.control, o.quote || r.quote)
  }

  lemma ReadUnfolds(m: Mode, b: Core, src: string)
    requires src != ""
    ensures var o := ReadStep(m, b, src); var r := ReadScan(m, o.st, src[o.used..]);
      ReadScan(m, b, src) ==
        if Balanced(o.st, src[0]) then Segment(Scanned(true, o.out, o.used), o.control, o.quote)
        else Segment(Scanned(r.scan.closed, o.out + r.scan.out, o.used + r.scan.used), o.control || r.control, o.quote || r.quote)
  {
    hide ReadStep, Balanced;
  }

  /** Without tags it is the recovery's scan, with tags and look-ahead the stream's. */
  lemma {:induction false} UntaggedIsSegment(look: bool, b: Core, src: string)
    ensures ReadScan(Mode(look, false), b, src) == SegmentScan(look, b, src)
    decreases |src|
  {
    hide ModeStep, Balanced, TaggedStep;
    if src != "" {
      SegmentUnfolds(look, b, src);
      UntaggedIsSegment(look, ModeStep(look, true, b, src[0], src[1..]).st, src[1..]);
    }
  }

  lemma {:induction false} TaggedIsStream(b: Core, src: string)
    ensures ReadScan(Mode(true, true), b, src).scan == TaggedScan(b, src)
    decreases |src|
  {
    hide ModeStep, Balanced, BufferedStep;
    if src != "" {
      BothOn(b, src[0], src[1..]);
      hide TaggedStep;
      ReadIsTagged(b, src);
      TaggedUnfolds(b, src);
      TaggedIsStream(ReadStep(Mode(true, true), b, src).st, src[ReadStep(Mode(true, true), b, src).used..]);
    }
  }

  lemma ReadIsTagged(b: Core, src: string)
    requires src != ""
    ensures var o := ReadStep(Mode(true, true), b, src); TaggedStep(b, src) == Read(o.st, o.out, o.used)
  {
    hide ModeStep, BufferedStep;
    BothOn(b, src[0], src[1..]);
  }

  // ---------------------------------------------------------- pieces of a text

  /** A piece of text, what is written for it, and the marks it leaves. */
  datatype Piece = Piece(text: string, out: string, control: bool, quote: bool)

  function Same(w: string): Piece { Piece(w, w, false, false) }

  function Join(p: Piece, q: Piece): Piece {
    Piece(p.text + q.text, p.out + q.out, p.control || q.control, p.quote || q.quote)
  }

  function Before(p: Piece, r: Segment): Segment {
    Segment(Scanned(r.scan.closed, p.out + r.scan.out, |p.text| + r.scan.used), p.control || r.control, p.quote || r.quote)
  }

  /** In front of `u` the scan turns the piece into what it should and goes from `b` to `e`. */
  predicate Turns(m: Mode, b: Core, p: Piece, e: Core, u: string) {
    ReadScan(m, b, p.text + u) == Before(p, ReadScan(m, e, u))
  }

  lemma TurnsNothing(m: Mode, b: Core, u: string)
    ensures Turns(m, b, Same(""), b, u)
  {
    hide ReadScan;
    assert "" + u == u;
    assert "" + ReadScan(m, b, u).scan.out == ReadScan(m, b, u).scan.out;
  }

  lemma TurnsOn(m: Mode, b: Core, p: Piece, c: Core, q: Piece, e: Core, u: string)
    requires Turns(m, b, p, c, q.text + u) && Turns(m, c, q, e, u)
    ensures Turns(m, b, Join(p, q), e, u)
  {
    hide ReadScan;
    assert (p.text + q.text) + u == p.text + (q.text + u);
    var r := ReadScan(m, e, u);
    assert p.out + (q.out + r.scan.out) == (p.out + q.out) + r.scan.out;
  }

  /** A byte no tag starts at. */
  lemma TurnsByte(m: Mode, b: Core, c: char, e: Core, out: string, control: bool, quote: bool, u: string)
    requires m.tags && !b.esc ==> !(Want(b.inStr) <= [c] + u)
    requires ModeStep(m.look, true, b, c, u) == Marked(e, out, control, quote) && !Balanced(e, c)
    ensures Turns(m, b, Piece([c], out, control, quote), e, u)
  {
    hide ModeStep, Balanced;
    assert ([c] + u)[0] == c && ([c] + u)[1..] == u;
    ReadUnfolds(m, b, [c] + u);
  }

  lemma NoAngle(inStr: bool, c: char, u: string)
    requires c != '<'
    ensures !(Want(inStr) <= [c] + u)
  {
    WantBytes(inStr, 0);
  }

  /** Outside strings and inside the object. */
  predicate Open(b: Core) {
    !b.inStr && !b.esc && b.depth >= 1 && b.ctx != []
  }

  lemma KindStep(m: Mode, b: Core, k: bool, u: string)
    requires !b.inStr && !b.esc && u != ""
    ensures var o, n := ReadStep(m, b, u), ReadStep(m, b.(isKey := k), u);
      && n == o.(st := n.st) && (n.st == o.st || (!o.st.inStr && !o.st.esc && n.st == o.st.(isKey := k)))
  {
    hide OpeningStringIsKey, Structural, Want;
  }

  /** Which kind of string was read last matters to nothing outside strings. */
  lemma {:induction false} KindForgotten(m: Mode, b: Core, k: bool, u: string)
    requires !b.inStr && !b.esc
    ensures ReadScan(m, b.(isKey := k), u) == ReadScan(m, b, u)
    decreases |u|
  {
    hide ReadStep;
    if u != "" {
      KindStep(m, b, k, u);
      var o, n := ReadStep(m, b, u), ReadStep(m, b.(isKey := k), u);
      if n.st != o.st { KindForgotten(m, o.st, k, u[o.used..]); }
    }
  }

  // ------------------------------------------------------ outside of strings

  /** A byte that changes nothing outside strings and begins no tag. */
  predicate Idle(c: char) {
    c != '"' && c != '{' && c != '}' && c != '[' && c != ']' && c != ':' && c != ',' && c != '<'
  }

  predicate IdleAll(w: string) {
    forall i :: 0 <= i < |w| ==> Idle(w[i])
  }

  lemma IdleByte(m: Mode, b: Core, c: char, u: string)
    requires Open(b) && Idle(c)
    ensures Turns(m, b, Same([c]), b, u)
  {
    hide ReadScan;
    assert Structural(b.ctx, c) == b.ctx;
    NoAngle(b.inStr, c, u);
    TurnsByte(m, b, c, b, [c], false, false, u);
  }

  lemma {:induction false} IdleTurns(m: Mode, b: Core, w: string, u: string)
    requires Open(b) && IdleAll(w)
    ensures Turns(m, b, Same(w), b, u)
    decreases |w|
  {
    hide Turns;
    if w == "" {
      TurnsNothing(m, b, u);
    } else {
      IdleByte(m, b, w[0], w[1..] + u);
      IdleTurns(m, b, w[1..], u);
      TurnsOn(m, b, Same([w[0]]), b, Same(w[1..]), b, u);
      assert w == [w[0]] + w[1..];
    }
  }

  lemma WsTurns(m: Mode, b: Core, w: string, u: string)
    requires Open(b) && AllWs(w)
    ensures Turns(m, b, Same(w), b, u)
  {
    hide Turns;
    IdleTurns(m, b, w, u);
  }

  // ------------------------------------------------------------ drifted strings

  /** How a string is written: between quotes or content tags, its text raw. */
  datatype Spelling = Spelling(openTag: bool, raw: string, closeTag: bool)

  function OpenText(s: Spelling): string { if s.openTag then "<content>" else "\"" }
  function CloseText(s: Spelling): string { if s.closeTag then "</content>" else "\"" }

  /** The string body that is meant: raw control bytes and inner quotes escaped. */
  function Mend(raw: string): string
    decreases |raw|
  {
    if raw == "" then ""
    else if raw[0] == '\\' && |raw| >= 2 then raw[..2] + Mend(raw[2..])
    else MendByte(raw[0]) + Mend(raw[1..])
  }

  function RawControl(raw: string): bool
    decreases |raw|
  {
    if raw == "" then false
    else if raw[0] == '\\' && |raw| >= 2 then RawControl(raw[2..])
    else raw[0] == '\n' || raw[0] == '\r' || raw[0] == '\t' || RawControl(raw[1..])
  }

  function RawQuote(raw: string): bool
    decreases |raw|
  {
    if raw == "" then false
    else if raw[0] == '\\' && |raw| >= 2 then RawQuote(raw[2..])
    else raw[0] == '"' || RawQuote(raw[1..])
  }

  /** Does a quote in front of `rest` look like the end of its string? */
  ghost predicate LooksLikeEnd(rest: string, isKey: bool) {
    exists k :: 0 <= k < |rest| && AllWs(rest[..k]) && (if isKey then rest[k] == ':' else rest[k] == ',' || rest[k] == '}' || rest[k] == ']')
  }

  /** Raw text that can be mended: legal escapes, no control bytes but the three, and no
      quote or closing tag that what follows makes look like the end of the string. */
  ghost predicate Mendable(m: Mode, isKey: bool, raw: string)
    decreases |raw|
  {
    raw == "" ||
    if raw[0] == '\\' then
      && |raw| >= 2
      && (if raw[1] == 'u' then |raw| >= 6 && IsHex(raw[2]) && IsHex(raw[3]) && IsHex(raw[4]) && IsHex(raw[5]) else IsEscape(raw[1]))
      && Mendable(m, isKey, raw[2..])
    else
      && (raw[0] == '"' ==> m.look && !LooksLikeEnd(raw[1..], isKey))
      && (m.tags && TAG_CLOSE <= raw ==> !LooksLikeEnd(raw[|TAG_CLOSE|..], isKey))
      && (raw[0] >= ' ' || raw[0] == '\n' || raw[0] == '\r' || raw[0] == '\t')
      && Mendable(m, isKey, raw[1..])
  }

  ghost predicate Spelled(m: Mode, isKey: bool, s: Spelling) {
    (s.openTag ==> m.tags && !isKey) && (s.closeTag ==> m.tags) && Mendable(m, isKey, s.raw)
  }

  /** The look-ahead sees what the text says, up to the delimiter behind it. */
  lemma {:induction false} LookIs(x: string, c: char, u: string, isKey: bool)
    requires c == '"' || c == '<'
    ensures QuoteTerminates(x + ([c] + u), isKey) <==> LooksLikeEnd(x, isKey)
    decreases |x|
  {
    if x == "" {
      assert x + ([c] + u) == [c] + u;
    } else {
      assert (x + ([c] + u))[0] == x[0] && (x + ([c] + u))[1..] == x[1..] + ([c] + u);
      if IsWs(x[0]) {
        LookIs(x[1..], c, u, isKey);
        LookPastWs(x, isKey);
      } else {
        assert x[..0] == "";
        assert forall k :: 0 < k < |x| ==> x[..k][0] == x[0];
      }
    }
  }

  lemma LookPastWs(x: string, isKey: bool)
    requires x != "" && IsWs(x[0])
    ensures LooksLikeEnd(x, isKey) <==> LooksLikeEnd(x[1..], isKey)
  {
    forall k | 0 < k < |x| ensures AllWs(x[..k]) <==> AllWs(x[1..][..k - 1]) {
      assert x[..k] == [x[0]] + x[1..][..k - 1];
    }
    if LooksLikeEnd(x[1..], isKey) {
      var k :| 0 <= k < |x[1..]| && AllWs(x[1..][..k])
        && (if isKey then x[1..][k] == ':' else x[1..][k] == ',' || x[1..][k] == '}' || x[1..][k] == ']');
      assert x[k + 1] == x[1..][k];
    }
    if LooksLikeEnd(x, isKey) {
      var k :| 0 <= k < |x| && AllWs(x[..k]) && (if isKey then x[k] == ':' else x[k] == ',' || x[k] == '}' || x[k] == ']');
      assert x[k] == x[1..][k - 1];
    }
  }

  /** A closing tag at the front of raw text and its delimiter stands in the raw text. */
  lemma TagInRaw(raw: string, c: char, u: string)
    requires raw != "" && (c == '"' || c == '<')
    ensures TAG_CLOSE <= raw + ([c] + u) ==> TAG_CLOSE <= raw
  {
    assert TAG_CLOSE == ['<', '/', 'c', 'o', 'n', 't', 'e', 'n', 't', '>'];
    assert forall k :: 0 < k < |TAG_CLOSE| ==> TAG_CLOSE[k] != '"' && TAG_CLOSE[k] != '<';
    assert (raw + ([c] + u))[|raw|] == c;
  }

  function BodyPiece(raw: string): Piece { Piece(raw, Mend(raw), RawControl(raw), RawQuote(raw)) }

  /** The front of a raw text as a piece: an escape, or one byte. */
  function FrontPiece(raw: string): Piece
    requires raw != "" && (raw[0] == '\\' ==> |raw| >= 2)
  {
    if raw[0] == '\\' then Same(raw[..2])
    else Piece([raw[0]], Mend([raw[0]]), raw[0] == '\n' || raw[0] == '\r' || raw[0] == '\t', raw[0] == '"')
  }

  /** What is written for one raw byte. */
  function MendByte(c: char): string {
    match c case '"' => "\\\"" case '\n' => "\\n" case '\r' => "\\r" case '\t' => "\\t" case _ => [c]
  }

  lemma OneMended(c: char)
    ensures Mend([c]) == MendByte(c)
  {
    assert [c][1..] == "" && Mend("") == "";
    assert MendByte(c) + "" == MendByte(c);
  }

  lemma BodyFront(raw: string)
    requires raw != "" && (raw[0] == '\\' ==> |raw| >= 2)
    ensures var n := if raw[0] == '\\' then 2 else 1; BodyPiece(raw) == Join(FrontPiece(raw), BodyPiece(raw[n..]))
  {
    if raw[0] == '\\' {
      assert raw == raw[..2] + raw[2..];
    } else {
      assert raw == [raw[0]] + raw[1..];
      OneMended(raw[0]);
    }
  }

  /** Inside a string: an escape passes. */
  lemma EscapeTurns(m: Mode, b: Core, c: char, u: string)
    requires b.inStr && !b.esc
    ensures Turns(m, b, Same(['\\', c]), b, u)
  {
    hide ReadScan, Turns;
    var e := b.(esc := true);
    NoAngle(b.inStr, '\\', [c] + u);
    TurnsByte(m, b, '\\', e, ['\\'], false, false, [c] + u);
    TurnsByte(m, e, c, b, [c], false, false, u);
    TurnsOn(m, b, Same(['\\']), e, Same([c]), b, u);
    assert ['\\'] + [c] == ['\\', c];
  }

  /** Any other byte is mended by itself. */
  lemma ByteTurns(m: Mode, b: Core, c: char, u: string)
    requires b.inStr && !b.esc && c != '\\' && (c >= ' ' || c == '\n' || c == '\r' || c == '\t')
    requires c == '"' ==> m.look && !QuoteTerminates(u, b.isKey)
    requires m.tags ==> !(TAG_CLOSE <= [c] + u)
    ensures Turns(m, b, FrontPiece([c]), b, u)
  {
    hide ReadScan, Turns, QuoteTerminates;
    OneMended(c);
    TurnsByte(m, b, c, b, Mend([c]), c == '\n' || c == '\r' || c == '\t', c == '"', u);
  }

  /** Bytes that are nothing special inside strings. */
  predicate PlainBytes(p: string) {
    forall i :: 0 <= i < |p| ==> p[i] != '"' && p[i] != '\\' && p[i] >= ' '
  }

  lemma {:induction false} PlainFront(m: Mode, isKey: bool, p: string, x: string)
    requires PlainBytes(p)
    ensures BodyPiece(p + x) == Join(Same(p), BodyPiece(x))
    ensures Mendable(m, isKey, p + x) ==> Mendable(m, isKey, x)
    decreases |p|
  {
    hide LooksLikeEnd;
    if p == "" {
      assert p + x == x && "" + Mend(x) == Mend(x);
    } else {
      assert (p + x)[0] == p[0] && (p + x)[1..] == p[1..] + x;
      PlainFront(m, isKey, p[1..], x);
      assert [p[0]] + (p[1..] + Mend(x)) == p + Mend(x);
    }
  }

  /** A closing tag that does not look like an end is text. */
  lemma TagTurns(m: Mode, b: Core, u: string)
    requires m.tags && b.inStr && !b.esc && !QuoteTerminates(u, b.isKey)
    ensures Turns(m, b, Same(TAG_CLOSE), b, u)
  {
    hide QuoteTerminates, ModeStep, BufferedStep;
    var src := TAG_CLOSE + u;
    assert src[|TAG_CLOSE|..] == u && src[0] == TAG_CLOSE[0] == '<';
    ReadUnfolds(m, b, src);
    assert ReadStep(m, b, src) == Taken(b, TAG_CLOSE, |TAG_CLOSE|, false, false);
    hide ReadScan, ReadStep;
  }

  lemma {:induction false} BodyTurns(m: Mode, b: Core, raw: string, c: char, u: string)
    requires b.inStr && !b.esc && Mendable(m, b.isKey, raw) && (c == '"' || c == '<')
    ensures Turns(m, b, BodyPiece(raw), b, [c] + u)
    decreases |raw|
  {
    hide Turns, LooksLikeEnd, QuoteTerminates;
    if raw == "" {
      TurnsNothing(m, b, [c] + u);
    } else if raw[0] == '\\' {
      EscapeTurns(m, b, raw[1], raw[2..] + ([c] + u));
      assert raw[..2] == ['\\', raw[1]];
      BodyTurns(m, b, raw[2..], c, u);
      BodyFront(raw);
      TurnsOn(m, b, Same(raw[..2]), b, BodyPiece(raw[2..]), b, [c] + u);
    } else if m.tags && TAG_CLOSE <= raw {
      var x := raw[|TAG_CLOSE|..];
      assert raw == TAG_CLOSE + x;
      TagIsPlain();
      PlainFront(m, b.isKey, TAG_CLOSE, x);
      LookIs(x, c, u, b.isKey);
      TagTurns(m, b, x + ([c] + u));
      BodyTurns(m, b, x, c, u);
      TurnsOn(m, b, Same(TAG_CLOSE), b, BodyPiece(x), b, [c] + u);
    } else {
      var x := raw[1..];
      LookIs(x, c, u, b.isKey);
      TagInRaw(raw, c, u);
      assert raw + ([c] + u) == [raw[0]] + (x + ([c] + u));
      ByteTurns(m, b, raw[0], x + ([c] + u));
      BodyTurns(m, b, x, c, u);
      BodyFront(raw);
      assert FrontPiece([raw[0]]) == FrontPiece(raw);
      TurnsOn(m, b, FrontPiece(raw), b, BodyPiece(x), b, [c] + u);
    }
  }

  lemma TagIsPlain()
    ensures PlainBytes(TAG_CLOSE)
  {
    assert TAG_CLOSE == ['<', '/', 'c', 'o', 'n', 't', 'e', 'n', 't', '>'];
  }

  /** What is meant is a string body of RFC 8259. */
  lemma {:induction false} MendedIsBody(m: Mode, isKey: bool, raw: string)
    requires Mendable(m, isKey, raw)
    ensures IsStringBody(Mend(raw))
    decreases |raw|
  {
    hide LooksLikeEnd;
    if raw != "" {
      if raw[0] == '\\' {
        MendedIsBody(m, isKey, raw[2..]);
        if raw[1] == 'u' { HexMended(raw); } else { assert (raw[..2] + Mend(raw[2..]))[2..] == Mend(raw[2..]); }
      } else {
        MendedIsBody(m, isKey, raw[1..]);
        ByteIsBody(raw[0], Mend(raw[1..]));
      }
    }
  }

  lemma ByteIsBody(c: char, rest: string)
    requires IsStringBody(rest) && c != '\\' && (c >= ' ' || c == '\n' || c == '\r' || c == '\t')
    ensures IsStringBody(MendByte(c) + rest)
  {
    var w := MendByte(c) + rest;
    assert w[|MendByte(c)|..] == rest;
  }

  lemma HexMended(raw: string)
    requires |raw| >= 6 && raw[0] == '\\' && raw[1] == 'u' && IsStringBody(Mend(raw[2..]))
    requires IsHex(raw[2]) && IsHex(raw[3]) && IsHex(raw[4]) && IsHex(raw[5])
    ensures IsStringBody(Mend(raw))
  {
    hide Mend, Mendable, RawControl, RawQuote, IsStringBody;
    var x := raw[6..];
    var h := raw[2..6];
    assert raw[2..] == h + x;
    PlainFront(Mode(false, false), false, h, x);
    EscapeMended(raw);
    HexBehind(h, Mend(x));
    UnicodeBody(raw[..2], h, Mend(x));
  }

  lemma EscapeMended(raw: string)
    requires |raw| >= 2 && raw[0] == '\\'
    ensures Mend(raw) == raw[..2] + Mend(raw[2..])
  {}

  lemma UnicodeBody(e: string, h: string, rest: string)
    requires e == ['\\', 'u'] && |h| == 4 && IsHex(h[0]) && IsHex(h[1]) && IsHex(h[2]) && IsHex(h[3]) && IsStringBody(rest)
    ensures IsStringBody(e + (h + rest))
  {
    var w := e + (h + rest);
    assert w[2] == h[0] && w[3] == h[1] && w[4] == h[2] && w[5] == h[3] && w[6..] == rest;
  }

  lemma HexBehind(h: string, rest: string)
    requires |h| == 4 && IsHex(h[0]) && IsHex(h[1]) && IsHex(h[2]) && IsHex(h[3]) && IsStringBody(h + rest)
    ensures IsStringBody(rest)
  {
    var w := h + rest;
    assert IsStringBody(w[1..]);
    assert w[1..][1..] == w[2..] && IsStringBody(w[2..]);
    assert w[2..][1..] == w[3..] && IsStringBody(w[3..]);
    assert w[3..][1..] == rest;
  }

  function SpellPiece(s: Spelling): Piece {
    Join(Piece(OpenText(s), "\"", false, false), Join(BodyPiece(s.raw), Piece(CloseText(s), "\"", false, false)))
  }

  lemma OpenTurns(m: Mode, b: Core, s: Spelling, u: string)
    requires Open(b) && (s.openTag ==> m.tags && !OpeningStringIsKey(b.ctx))
    ensures Turns(m, b, Piece(OpenText(s), "\"", false, false), b.(isKey := OpeningStringIsKey(b.ctx), inStr := true), u)
  {
    hide ReadScan, OpeningStringIsKey;
    var e := b.(isKey := OpeningStringIsKey(b.ctx), inStr := true);
    if s.openTag {
      var src := TAG_OPEN + u;
      assert src[|TAG_OPEN|..] == u && src[0] == TAG_OPEN[0] == '<';
      ReadUnfolds(m, b, src);
      assert ReadStep(m, b, src) == Taken(e, "\"", |TAG_OPEN|, false, false);
    } else {
      NoAngle(b.inStr, '"', u);
      TurnsByte(m, b, '"', e, "\"", false, false, u);
    }
  }

  lemma CloseTurns(m: Mode, e: Core, s: Spelling, u: string)
    requires e.inStr && !e.esc && (s.closeTag ==> m.tags) && QuoteTerminates(u, e.isKey)
    ensures Turns(m, e, Piece(CloseText(s), "\"", false, false), e.(inStr := false), u)
  {
    hide ReadScan, QuoteTerminates;
    var o := e.(inStr := false);
    if s.closeTag {
      var src := TAG_CLOSE + u;
      assert src[|TAG_CLOSE|..] == u && src[0] == TAG_CLOSE[0] == '<';
      ReadUnfolds(m, e, src);
      assert ReadStep(m, e, src) == Taken(o, "\"", |TAG_CLOSE|, false, false);
    } else {
      NoAngle(e.inStr, '"', u);
      TurnsByte(m, e, '"', o, "\"", false, false, u);
    }
  }

  /** A whole string, if what follows it lets it close. */
  lemma StringTurns(m: Mode, b: Core, s: Spelling, u: string)
    requires Open(b) && Spelled(m, OpeningStringIsKey(b.ctx), s) && QuoteTerminates(u, OpeningStringIsKey(b.ctx))
    ensures Turns(m, b, SpellPiece(s), b, u)
  {
    hide ReadScan, Turns, Mendable, QuoteTerminates, OpeningStringIsKey;
    var e := b.(isKey := OpeningStringIsKey(b.ctx), inStr := true);
    var o := e.(inStr := false);
    var open, body, close := Piece(OpenText(s), "\"", false, false), BodyPiece(s.raw), Piece(CloseText(s), "\"", false, false);
    OpenTurns(m, b, s, (s.raw + CloseText(s)) + u);
    assert CloseText(s) + u == [CloseText(s)[0]] + (CloseText(s)[1..] + u);
    BodyTurns(m, e, s.raw, CloseText(s)[0], CloseText(s)[1..] + u);
    CloseTurns(m, e, s, u);
    TurnsOn(m, e, body, e, close, o, u);
    TurnsOn(m, b, open, e, Join(body, close), o, u);
    KindAfter(m, b, SpellPiece(s), o, u);
  }

  lemma KindAfter(m: Mode, b: Core, p: Piece, o: Core, u: string)
    requires Open(b) && Turns(m, b, p, o, u) && o == b.(isKey := o.isKey)
    ensures Turns(m, b, p, b, u)
  {
    hide ReadScan;
    KindForgotten(m, b, o.isKey, u);
  }

  // ------------------------------------------------------- structural bytes

  function Closing(c: char): char {
    if c == '{' then '}' else ']'
  }

  /** The state inside brackets whose frame is `f`. */
  function Inside(b: Core, f: Frame): Core {
    b.(ctx := b.ctx + [f], depth := b.depth + if f.kind == '{' then 1 else 0)
  }

  function Into(b: Core, c: char): Core {
    Inside(b, Frame(c, c == '{'))
  }

  /** The innermost object now expects a value, or a key. */
  function Expecting(b: Core, key: bool): Core
    requires b.ctx != []
  {
    b.(ctx := b.ctx[|b.ctx| - 1 := Frame('{', key)])
  }

  predicate InObject(b: Core) {
    Open(b) && b.ctx[|b.ctx| - 1].kind == '{'
  }

  lemma StructureTurns(m: Mode, b: Core, c: char, e: Core, u: string)
    requires !b.inStr && !b.esc && c != '<' && c != '"' && e == Outside(b, c) && !Balanced(e, c)
    ensures Turns(m, b, Same([c]), e, u)
  {
    hide ReadScan;
    NoAngle(b.inStr, c, u);
    TurnsByte(m, b, c, e, [c], false, false, u);
  }

  lemma OpenBracket(m: Mode, b: Core, c: char, u: string)
    requires Open(b) && (c == '{' || c == '[')
    ensures Turns(m, b, Same([c]), Into(b, c), u)
  {
    StructureTurns(m, b, c, Into(b, c), u);
  }

  /** The bracket that fits takes the state back to the one in front of the pair. */
  lemma CloseBracket(m: Mode, b: Core, f: Frame, u: string)
    requires Open(b) && (f.kind == '{' || f.kind == '[')
    ensures Turns(m, Inside(b, f), Same([Closing(f.kind)]), b, u)
  {
    var e := Inside(b, f);
    assert e.ctx[..|e.ctx| - 1] == b.ctx;
    StructureTurns(m, e, Closing(f.kind), b, u);
  }

  lemma ColonTurns(m: Mode, b: Core, u: string)
    requires InObject(b)
    ensures Turns(m, b, Same([':']), Expecting(b, false), u)
  {
    StructureTurns(m, b, ':', Expecting(b, false), u);
  }

  lemma CommaTurns(m: Mode, b: Core, u: string)
    requires Open(b)
    ensures Turns(m, b, Same([',']), if InObject(b) then Expecting(b, true) else b, u)
  {
    StructureTurns(m, b, ',', if InObject(b) then Expecting(b, true) else b, u);
  }

  // ------------------------------------------------------------------- values

  lemma IdleJoined(v: string, w: string)
    requires IdleAll(v) && IdleAll(w)
    ensures IdleAll(v + w)
  {}

  lemma NumberIdle(n: Number)
    requires WellFormedNumber(n)
    ensures IdleAll(NumberText(n))
  {
    hide IdleAll;
    MinusIdle(n.minus);
    WholeIdle(n.whole);
    FracIdle(n.frac);
    ExponentIdle(n.exp);
    IdleJoined(n.frac, n.exp);
    IdleJoined(n.whole, n.frac + n.exp);
    IdleJoined(n.minus, n.whole + (n.frac + n.exp));
  }

  lemma MinusIdle(w: string)
    requires w == "" || w == "-"
    ensures IdleAll(w)
  {}

  lemma WholeIdle(w: string)
    requires w == "0" || AllDigits(w)
    ensures IdleAll(w)
  {}

  lemma FracIdle(w: string)
    requires w == "" || (w[0] == '.' && AllDigits(w[1..]))
    ensures IdleAll(w)
  {
    if w != "" { DigitsBehind(w, 1); }
  }

  lemma DigitsBehind(w: string, k: nat)
    requires k <= |w| && AllDigits(w[k..]) && forall i :: 0 <= i < k ==> Idle(w[i])
    ensures IdleAll(w)
  {
    forall i | 0 <= i < |w| ensures Idle(w[i]) {
      if i >= k { assert w[i] == w[k..][i - k]; }
    }
  }

  lemma ExponentIdle(e: string)
    requires e == "" || WellFormedExponent(e)
    ensures IdleAll(e)
  {
    if e != "" {
      if |e| >= 3 && AllDigits(e[2..]) && (e[1] == '+' || e[1] == '-') { DigitsBehind(e, 2); } else { DigitsBehind(e, 1); }
    }
  }

  lemma WordIdle(w: string)
    requires w == "true" || w == "false" || w == "null"
    ensures IdleAll(w)
  {}

  /** A JSON value as a model may write it: every string in its own spelling. */
  datatype Draft =
    | Leaf(text: Value)         // a number, a word, an empty array
    | Str(s: Spelling)
    | Arr(items: Drafts)
    | Obj(members: DraftMembers)

  datatype Drafts =
    | LastDraft(before: string, value: Draft, after: string)
    | MoreDrafts(before: string, value: Draft, after: string, rest: Drafts)

  datatype DraftPair = DraftPair(before: string, key: Spelling, beforeColon: string, afterColon: string,
                                 value: Draft, after: string)

  datatype DraftMembers =
    | NoDrafts(gap: string)
    | SomeDrafts(list: DraftPairs)

  datatype DraftPairs =
    | LastDraftPair(pair: DraftPair)
    | MoreDraftPairs(pair: DraftPair, rest: DraftPairs)

  predicate LeafOk(v: Value) {
    WellFormed(v) && (v.Word? || v.Num? || v.EmptyArray?)
  }

  ghost predicate DraftOk(m: Mode, d: Draft) {
    match d
    case Leaf(v) => LeafOk(v)
    case Str(s) => Spelled(m, false, s)
    case Arr(items) => DraftsOk(m, items)
    case Obj(members) => MembersOk(m, members)
  }

  ghost predicate DraftsOk(m: Mode, e: Drafts) {
    AllWs(e.before) && DraftOk(m, e.value) && AllWs(e.after) && (e.MoreDrafts? ==> DraftsOk(m, e.rest))
  }

  ghost predicate PairOk(m: Mode, p: DraftPair) {
    && AllWs(p.before) && Spelled(m, true, p.key) && AllWs(p.beforeColon)
    && AllWs(p.afterColon) && DraftOk(m, p.value) && AllWs(p.after)
  }

  ghost predicate MembersOk(m: Mode, d: DraftMembers) {
    match d
    case NoDrafts(gap) => AllWs(gap)
    case SomeDrafts(list) => PairsOk(m, list)
  }

  ghost predicate PairsOk(m: Mode, ps: DraftPairs) {
    PairOk(m, ps.pair) && (ps.MoreDraftPairs? ==> PairsOk(m, ps.rest))
  }

  /** The value that is meant. */
  function Meant(d: Draft): Value {
    match d
    case Leaf(v) => v
    case Str(s) => String(Mend(s.raw))
    case Arr(items) => Array(MeantItems(items))
    case Obj(members) => Object(MeantMembers(members))
  }

  function MeantItems(e: Drafts): Items {
    match e
    case LastDraft(x, v, y) => LastItem(x, Meant(v), y)
    case MoreDrafts(x, v, y, rest) => MoreItems(x, Meant(v), y, MeantItems(rest))
  }

  function MeantPair(p: DraftPair): Pair {
    Pair(p.before, Mend(p.key.raw), p.beforeColon, p.afterColon, Meant(p.value), p.after)
  }

  function MeantMembers(d: DraftMembers): Members {
    match d
    case NoDrafts(gap) => NoMembers(gap)
    case SomeDrafts(list) => Members(MeantPairs(list))
  }

  function MeantPairs(ps: DraftPairs): PairList {
    match ps
    case LastDraftPair(p) => LastPair(MeantPair(p))
    case MoreDraftPairs(p, rest) => MorePairs(MeantPair(p), MeantPairs(rest))
  }

  /** Its text, what should come out, and the marks. */
  function DraftPiece(d: Draft): Piece
    decreases d, 0
  {
    match d
    case Leaf(v) => Same(Text(v))
    case Str(s) => SpellPiece(s)
    case Arr(items) => Join(Same("["), Join(ItemsPiece(items), Same("]")))
    case Obj(members) => Join(Same("{"), Join(MembersPiece(members), Same("}")))
  }

  function ItemPiece(before: string, d: Draft, after: string): Piece
    decreases d, 1
  {
    Join(Same(before), Join(DraftPiece(d), Same(after)))
  }

  function ItemsPiece(e: Drafts): Piece {
    Join(ItemPiece(e.before, e.value, e.after), if e.MoreDrafts? then Join(Same(","), ItemsPiece(e.rest)) else Same(""))
  }

  function PairPiece(p: DraftPair): Piece {
    Join(Same(p.before), Join(SpellPiece(p.key),
      Join(Same(p.beforeColon), Join(Same(":"), ItemPiece(p.afterColon, p.value, p.after)))))
  }

  function MembersPiece(d: DraftMembers): Piece {
    match d
    case NoDrafts(gap) => Same(gap)
    case SomeDrafts(list) => PairsPiece(list)
  }

  function PairsPiece(ps: DraftPairs): Piece {
    Join(PairPiece(ps.pair), if ps.MoreDraftPairs? then Join(Same(","), PairsPiece(ps.rest)) else Same(""))
  }

  // ---------------------------------------------------------- how they are read

  /** What is read between two brackets that fit, with the state they come back to. */
  lemma Bracketed(m: Mode, b: Core, c: char, p: Piece, f: Frame, u: string)
    requires Open(b) && (c == '{' || c == '[') && f.kind == c
    requires Turns(m, Into(b, c), p, Inside(b, f), [Closing(c)] + u)
    ensures Turns(m, b, Join(Same([c]), Join(p, Same([Closing(c)]))), b, u)
  {
    hide Turns, Open;
    OpenBracket(m, b, c, (p.text + [Closing(c)]) + u);
    CloseBracket(m, b, f, u);
    TurnsOn(m, Into(b, c), p, Inside(b, f), Same([Closing(c)]), b, u);
    TurnsOn(m, b, Same([c]), Into(b, c), Join(p, Same([Closing(c)])), b, u);
  }

  lemma LeafTurns(m: Mode, b: Core, v: Value, u: string)
    requires Open(b) && LeafOk(v)
    ensures Turns(m, b, Same(Text(v)), b, u)
  {
    hide Turns;
    match v
    case Word(w) =>
      WordIdle(w);
      IdleTurns(m, b, w, u);
    case Num(n) =>
      NumberIdle(n);
      IdleTurns(m, b, NumberText(n), u);
    case EmptyArray(gap) =>
      WsTurns(m, Into(b, '['), gap, [']'] + u);
      Bracketed(m, b, '[', Same(gap), Frame('[', false), u);
  }

  /** A value in front of what may follow one. */
  lemma {:induction false} DraftTurns(m: Mode, b: Core, d: Draft, u: string)
    requires Open(b) && !OpeningStringIsKey(b.ctx) && DraftOk(m, d) && QuoteTerminates(u, false)
    ensures Turns(m, b, DraftPiece(d), b, u)
    decreases d, 0
  {
    hide Turns, QuoteTerminates, Mendable;
    match d
    case Leaf(v) => LeafTurns(m, b, v, u);
    case Str(s) => StringTurns(m, b, s, u);
    case Arr(items) =>
      ItemsTurn(m, Into(b, '['), items, u);
      Bracketed(m, b, '[', ItemsPiece(items), Frame('[', false), u);
    case Obj(members) =>
      var f := MembersTurn(m, b, members, u);
      Bracketed(m, b, '{', MembersPiece(members), f, u);
  }

  /** A value and the white space around it. */
  lemma {:induction false} ItemTurns(m: Mode, b: Core, before: string, d: Draft, after: string, c: char, u: string)
    requires Open(b) && !OpeningStringIsKey(b.ctx) && AllWs(before) && DraftOk(m, d) && AllWs(after)
    requires c == ',' || c == ']' || c == '}'
    ensures Turns(m, b, ItemPiece(before, d, after), b, [c] + u)
    decreases d, 1
  {
    hide Turns, QuoteTerminates, AllWs, DraftOk;
    WsTurns(m, b, before, (DraftPiece(d).text + after) + ([c] + u));
    QuoteAfterWs(after, c, u, false);
    DraftTurns(m, b, d, after + ([c] + u));
    WsTurns(m, b, after, [c] + u);
    TurnsOn(m, b, DraftPiece(d), b, Same(after), b, [c] + u);
    TurnsOn(m, b, Same(before), b, Join(DraftPiece(d), Same(after)), b, [c] + u);
  }

  /** The inside of an array, up to its bracket. */
  lemma {:induction false} ItemsTurn(m: Mode, b: Core, e: Drafts, u: string)
    requires Open(b) && !InObject(b) && DraftsOk(m, e)
    ensures Turns(m, b, ItemsPiece(e), b, [']'] + u)
    decreases e
  {
    hide Turns, QuoteTerminates, DraftOk;
    var c := if e.MoreDrafts? then ',' else ']';
    var behind := if e.MoreDrafts? then Join(Same(","), ItemsPiece(e.rest)) else Same("");
    var rest := if e.MoreDrafts? then ItemsPiece(e.rest).text + ([']'] + u) else u;
    assert behind.text + ([']'] + u) == [c] + rest;
    if e.MoreDrafts? {
      ItemsTurn(m, b, e.rest, u);
      CommaTurns(m, b, rest);
      TurnsOn(m, b, Same([',']), b, ItemsPiece(e.rest), b, [']'] + u);
    } else {
      TurnsNothing(m, b, [']'] + u);
    }
    ItemTurns(m, b, e.before, e.value, e.after, c, rest);
    TurnsOn(m, b, ItemPiece(e.before, e.value, e.after), b, behind, b, [']'] + u);
  }

  /** The inside of an object, up to its brace, and what the object expects there. */
  lemma {:induction false} MembersTurn(m: Mode, b: Core, d: DraftMembers, u: string) returns (f: Frame)
    requires !b.inStr && !b.esc && b.depth >= 0 && MembersOk(m, d)
    ensures f.kind == '{' && Turns(m, Into(b, '{'), MembersPiece(d), Inside(b, f), ['}'] + u)
    decreases d
  {
    hide Turns, PairsOk;
    match d
    case NoDrafts(gap) =>
      f := Frame('{', true);
      WsTurns(m, Into(b, '{'), gap, ['}'] + u);
    case SomeDrafts(list) =>
      f := Frame('{', false);
      var i := Into(b, '{');
      assert i.ctx[|i.ctx| - 1 := f] == b.ctx + [f];
      PairsTurn(m, i, list, u);
  }

  lemma {:induction false} PairsTurn(m: Mode, b: Core, ps: DraftPairs, u: string)
    requires Open(b) && OpeningStringIsKey(b.ctx) && PairsOk(m, ps)
    ensures Turns(m, b, PairsPiece(ps), Expecting(b, false), ['}'] + u)
    decreases ps
  {
    hide Turns, PairOk;
    var e := Expecting(b, false);
    var c := if ps.MoreDraftPairs? then ',' else '}';
    var behind := if ps.MoreDraftPairs? then Join(Same(","), PairsPiece(ps.rest)) else Same("");
    var rest := if ps.MoreDraftPairs? then PairsPiece(ps.rest).text + (['}'] + u) else u;
    assert behind.text + (['}'] + u) == [c] + rest;
    if ps.MoreDraftPairs? {
      assert Expecting(e, true) == b && Expecting(b, false) == e;
      PairsTurn(m, b, ps.rest, u);
      CommaTurns(m, e, rest);
      TurnsOn(m, e, Same([',']), b, PairsPiece(ps.rest), e, ['}'] + u);
    } else {
      TurnsNothing(m, e, ['}'] + u);
    }
    PairTurns(m, b, ps.pair, c, rest);
    TurnsOn(m, b, PairPiece(ps.pair), e, behind, e, ['}'] + u);
  }

  lemma {:induction false} PairTurns(m: Mode, b: Core, p: DraftPair, c: char, u: string)
    requires Open(b) && OpeningStringIsKey(b.ctx) && PairOk(m, p) && (c == ',' || c == '}')
    ensures Turns(m, b, PairPiece(p), Expecting(b, false), [c] + u)
    decreases p
  {
    hide Turns, QuoteTerminates, AllWs, DraftOk, Mendable;
    var e, r := Expecting(b, false), [c] + u;
    var item := ItemPiece(p.afterColon, p.value, p.after);
    var colon := Join(Same([':']), item);
    var tail := Join(Same(p.beforeColon), colon);
    ItemTurns(m, e, p.afterColon, p.value, p.after, c, u);
    ColonTurns(m, b, item.text + r);
    TurnsOn(m, b, Same([':']), e, item, e, r);
    WsTurns(m, b, p.beforeColon, colon.text + r);
    TurnsOn(m, b, Same(p.beforeColon), b, colon, e, r);
    QuoteAfterWs(p.beforeColon, ':', item.text + r, true);
    assert tail.text + r == p.beforeColon + ([':'] + (item.text + r));
    StringTurns(m, b, p.key, tail.text + r);
    TurnsOn(m, b, SpellPiece(p.key), b, tail, e, r);
    WsTurns(m, b, p.before, (SpellPiece(p.key).text + tail.text) + r);
    TurnsOn(m, b, Same(p.before), b, Join(SpellPiece(p.key), tail), e, r);
  }

  // ------------------------------------------------------- what is written for it

  lemma {:induction false} DraftWritten(m: Mode, d: Draft)
    requires DraftOk(m, d)
    ensures DraftPiece(d).out == Text(Meant(d)) && WellFormed(Meant(d))
  {
    hide Mendable, Mend, LeafOk;
    match d
    case Leaf(v) => LeafIs(v);
    case Str(s) => MendedIsBody(m, false, s.raw);
    case Arr(items) => ItemsWritten(m, items);
    case Obj(members) => MembersWritten(m, members);
  }

  lemma LeafIs(v: Value)
    requires LeafOk(v)
    ensures WellFormed(v)
  {}

  lemma {:induction false} ItemsWritten(m: Mode, e: Drafts)
    requires DraftsOk(m, e)
    ensures ItemsPiece(e).out == ItemsText(MeantItems(e)) && WellFormedItems(MeantItems(e))
  {
    hide DraftPiece, Text, DraftOk, WellFormed, AllWs;
    DraftWritten(m, e.value);
    if e.MoreDrafts? { ItemsWritten(m, e.rest); }
    var x, y := DraftPiece(e.value).out, if e.MoreDrafts? then "," + ItemsPiece(e.rest).out else "";
    assert (e.before + (x + e.after)) + y == e.before + (x + (e.after + y));
  }

  lemma {:induction false} MembersWritten(m: Mode, d: DraftMembers)
    requires MembersOk(m, d)
    ensures MembersPiece(d).out == MembersText(MeantMembers(d)) && WellFormedMembers(MeantMembers(d))
  {
    hide PairsPiece, PairsText, WellFormedPairs, PairsOk;
    match d
    case NoDrafts(gap) =>
    case SomeDrafts(list) => PairsWritten(m, list);
  }

  lemma {:induction false} PairsWritten(m: Mode, ps: DraftPairs)
    requires PairsOk(m, ps)
    ensures PairsPiece(ps).out == PairsText(MeantPairs(ps)) && WellFormedPairs(MeantPairs(ps))
  {
    hide PairPiece, PairText, WellFormedPair, PairOk, MeantPair;
    PairWritten(m, ps.pair);
    if ps.MoreDraftPairs? { PairsWritten(m, ps.rest); }
  }

  lemma {:induction false} PairWritten(m: Mode, p: DraftPair)
    requires PairOk(m, p)
    ensures PairPiece(p).out == PairText(MeantPair(p)) && WellFormedPair(MeantPair(p))
  {
    hide DraftPiece, Text, DraftOk, WellFormed, AllWs, Mendable, Mend;
    DraftWritten(m, p.value);
    MendedIsBody(m, true, p.key.raw);
    var body, x := Mend(p.key.raw), p.beforeColon + (":" + (p.afterColon + (DraftPiece(p.value).out + p.after)));
    assert ("\"" + (body + "\"")) + x == "\"" + (body + ("\"" + x));
  }

  // -------------------------------------------------------- the whole object

  function ObjectPiece(d: DraftMembers): Piece {
    DraftPiece(Obj(d))
  }

  /** The object as it is written. */
  function DraftText(d: DraftMembers): string { ObjectPiece(d).text }

  /** The object as it is meant, as JSON text. */
  function MeantText(d: DraftMembers): string { Text(Object(MeantMembers(d))) }

  /** Whatever follows a drafted object, the scan closes at its own brace and writes the
      object that is meant, which is JSON; the marks say what had to be mended. */
  lemma ObjectMended(m: Mode, d: DraftMembers, rest: string)
    requires MembersOk(m, d)
    ensures ReadScan(m, START, DraftText(d) + rest) ==
            Segment(Scanned(true, MeantText(d), |DraftText(d)|), ObjectPiece(d).control, ObjectPiece(d).quote)
    ensures WellFormedMembers(MeantMembers(d))
  {
    hide ReadScan, ModeStep, Balanced, MembersOk, MembersPiece, MembersText, WellFormedMembers;
    var p := MembersPiece(d);
    var f := MembersTurn(m, START, d, rest);
    MembersWritten(m, d);
    LastBrace(m, f, rest);
    FirstBrace(m, p.text + (['}'] + rest));
    assert DraftText(d) == "{" + (p.text + "}") && MeantText(d) == "{" + (p.out + "}");
    assert DraftText(d) + rest == ['{'] + (p.text + (['}'] + rest));
  }

  lemma FirstBrace(m: Mode, u: string)
    ensures Turns(m, START, Same(['{']), Into(START, '{'), u)
  {
    StructureTurns(m, START, '{', Into(START, '{'), u);
  }

  lemma LastBrace(m: Mode, f: Frame, u: string)
    requires f.kind == '{'
    ensures ReadScan(m, Inside(START, f), ['}'] + u) == Segment(Scanned(true, ['}'], 1), false, false)
  {
    NoAngle(false, '}', u);
    ReadUnfolds(m, Inside(START, f), ['}'] + u);
    hide ReadScan;
  }

  const BUFFERED := Mode(true, false)
  const STREAMED := Mode(true, true)

  /** The recovery and the buffered scan mend every drafted object without content tags. */
  lemma DraftIsRecovered(d: DraftMembers, rest: string)
    requires MembersOk(BUFFERED, d)
    ensures Recovered(DraftText(d) + rest) ==
            Segment(Scanned(true, MeantText(d), |DraftText(d)|), ObjectPiece(d).control, ObjectPiece(d).quote)
    ensures BufferedScan(START, DraftText(d) + rest) == Scanned(true, MeantText(d), |DraftText(d)|)
    ensures WellFormedMembers(MeantMembers(d))
  {
    hide SegmentScan, BufferedScan, ReadScan, MembersOk, DraftText, MeantText;
    ObjectMended(BUFFERED, d, rest);
    UntaggedIsSegment(true, START, DraftText(d) + rest);
    FirstScanIsBuffered(START, DraftText(d) + rest);
  }

  /** The stream mends every drafted object, content tags included. */
  lemma DraftIsStreamed(d: DraftMembers, rest: string)
    requires MembersOk(STREAMED, d)
    ensures var r := StreamRun(STREAM_START, DraftText(d) + rest);
      r.st.done && r.out == MeantText(d) && r.rest == rest
    ensures WellFormedMembers(MeantMembers(d))
  {
    hide StreamRun, TaggedScan, ReadScan, MembersOk, DraftText, MeantText;
    var w := DraftText(d) + rest;
    ObjectMended(STREAMED, d, rest);
    TaggedIsStream(START, w);
    StreamIsTagged(w);
    assert w[|DraftText(d)|..] == rest;
    assert StreamRun(STREAM_START, w).out + "" == StreamRun(STREAM_START, w).out;
  }

  // ----------------------------------------------------------- legal JSON is left alone

  function PlainSpelling(body: string): Spelling { Spelling(false, body, false) }

  function Unchanged(v: Value): Draft {
    match v
    case String(s) => Str(PlainSpelling(s))
    case Array(items) => Arr(UnchangedItems(items))
    case Object(m) => Obj(UnchangedMembers(m))
    case _ => Leaf(v)
  }

  function UnchangedItems(e: Items): Drafts {
    match e
    case LastItem(x, v, y) => LastDraft(x, Unchanged(v), y)
    case MoreItems(x, v, y, rest) => MoreDrafts(x, Unchanged(v), y, UnchangedItems(rest))
  }

  function UnchangedPair(p: Pair): DraftPair {
    DraftPair(p.before, PlainSpelling(p.key), p.beforeColon, p.afterColon, Unchanged(p.value), p.after)
  }

  function UnchangedMembers(m: Members): DraftMembers {
    match m
    case NoMembers(gap) => NoDrafts(gap)
    case Members(list) => SomeDrafts(UnchangedPairs(list))
  }

  function UnchangedPairs(ps: PairList): DraftPairs {
    match ps
    case LastPair(p) => LastDraftPair(UnchangedPair(p))
    case MorePairs(p, rest) => MoreDraftPairs(UnchangedPair(p), UnchangedPairs(rest))
  }

  /** A legal string body needs no mending. */
  lemma {:induction false} LegalBody(look: bool, isKey: bool, s: string)
    requires IsStringBody(s)
    ensures Mendable(Mode(look, false), isKey, s) && BodyPiece(s) == Same(s)
    decreases |s|
  {
    hide LooksLikeEnd;
    if s == "" {
    } else if s[0] == '\\' {
      if s[1] == 'u' { HexIsBody(s); }
      LegalBody(look, isKey, s[2..]);
      BodyFront(s);
      assert s == s[..2] + s[2..];
    } else {
      LegalBody(look, isKey, s[1..]);
      BodyFront(s);
      OneMended(s[0]);
      assert s == [s[0]] + s[1..];
    }
  }

  /** Four hex digits are ordinary bytes of a string. */
  lemma HexIsBody(s: string)
    requires |s| >= 6 && IsHex(s[2]) && IsHex(s[3]) && IsHex(s[4]) && IsHex(s[5]) && IsStringBody(s[6..])
    ensures IsStringBody(s[2..])
  {
    assert s[5..][1..] == s[6..];
    assert IsStringBody(s[5..]);
    assert s[4..][1..] == s[5..];
    assert IsStringBody(s[4..]);
    assert s[3..][1..] == s[4..];
    assert IsStringBody(s[3..]);
    assert s[2..][1..] == s[3..];
  }

  lemma PlainSpelled(look: bool, isKey: bool, s: string)
    requires IsStringBody(s)
    ensures Spelled(Mode(look, false), isKey, PlainSpelling(s)) && SpellPiece(PlainSpelling(s)) == Same("\"" + (s + "\""))
  {
    hide Mendable, IsStringBody;
    LegalBody(look, isKey, s);
  }

  lemma {:induction false} UnchangedOk(look: bool, v: Value)
    requires WellFormed(v)
    ensures DraftOk(Mode(look, false), Unchanged(v)) && DraftPiece(Unchanged(v)) == Same(Text(v))
  {
    hide SpellPiece, Spelled;
    match v
    case String(s) => PlainSpelled(look, false, s);
    case Array(items) => UnchangedItemsOk(look, items);
    case Object(m) => UnchangedMembersOk(look, m);
    case Word(_) =>
    case Num(_) =>
    case EmptyArray(_) =>
  }

  lemma {:induction false} UnchangedItemsOk(look: bool, e: Items)
    requires WellFormedItems(e)
    ensures DraftsOk(Mode(look, false), UnchangedItems(e)) && ItemsPiece(UnchangedItems(e)) == Same(ItemsText(e))
  {
    hide DraftPiece, Text, DraftOk, WellFormed, Unchanged, AllWs;
    UnchangedOk(look, e.value);
    if e.MoreItems? { UnchangedItemsOk(look, e.rest); }
    var x, y := Text(e.value), if e.MoreItems? then "," + ItemsText(e.rest) else "";
    assert (e.before + (x + e.after)) + y == e.before + (x + (e.after + y));
  }

  lemma {:induction false} UnchangedMembersOk(look: bool, m: Members)
    requires WellFormedMembers(m)
    ensures MembersOk(Mode(look, false), UnchangedMembers(m)) && MembersPiece(UnchangedMembers(m)) == Same(MembersText(m))
  {
    hide PairsPiece, PairsText, PairsOk, WellFormedPairs;
    match m
    case NoMembers(gap) =>
    case Members(list) => UnchangedPairsOk(look, list);
  }

  lemma {:induction false} UnchangedPairsOk(look: bool, ps: PairList)
    requires WellFormedPairs(ps)
    ensures PairsOk(Mode(look, false), UnchangedPairs(ps)) && PairsPiece(UnchangedPairs(ps)) == Same(PairsText(ps))
  {
    hide PairPiece, PairText, PairOk, WellFormedPair, UnchangedPair;
    UnchangedPairOk(look, ps.pair);
    if ps.MorePairs? { UnchangedPairsOk(look, ps.rest); }
  }

  lemma {:induction false} UnchangedPairOk(look: bool, p: Pair)
    requires WellFormedPair(p)
    ensures PairOk(Mode(look, false), UnchangedPair(p)) && PairPiece(UnchangedPair(p)) == Same(PairText(p))
  {
    hide DraftPiece, Text, DraftOk, WellFormed, Unchanged, AllWs, Spelled, SpellPiece, IsStringBody;
    UnchangedOk(look, p.value);
    PlainSpelled(look, true, p.key);
    var x := p.beforeColon + (":" + (p.afterColon + (Text(p.value) + p.after)));
    assert ("\"" + (p.key + "\"")) + x == "\"" + (p.key + ("\"" + x));
  }

  /** The first `k` bytes of `src` are a JSON object. */
  ghost predicate ObjectFront(src: string, k: nat) {
    k <= |src| && exists m :: WellFormedMembers(m) && src[..k] == Text(Object(m))
  }

  /** Every legal object is a fixed point of both scans, whatever follows it: it closes
      at its own brace, and neither mark is set. */
  lemma LegalIsFixed(look: bool, src: string, k: nat)
    requires ObjectFront(src, k)
    ensures SegmentScan(look, START, src) == Segment(Scanned(true, src[..k], k), false, false)
  {
    hide SegmentScan, ReadScan, MembersPiece, WellFormedMembers, MembersOk, MembersText;
    var m :| WellFormedMembers(m) && src[..k] == Text(Object(m));
    var mode := Mode(look, false);
    UnchangedMembersOk(look, m);
    ObjectMended(mode, UnchangedMembers(m), src[k..]);
    UntaggedIsSegment(look, START, src);
    MembersWritten(mode, UnchangedMembers(m));
    assert src == src[..k] + src[k..];
  }

  /** So it is for the recovery and the buffered scan. */
  lemma LegalIsRecovered(src: string, k: nat)
    requires ObjectFront(src, k)
    ensures Recovered(src) == Segment(Scanned(true, src[..k], k), false, false)
    ensures BufferedScan(START, src) == Scanned(true, src[..k], k)
  {
    hide SegmentScan, BufferedScan;
    LegalIsFixed(true, src, k);
    FirstScanIsBuffered(START, src);
  }

  /** And for the stream, if the object spells no content tag. */
  lemma LegalIsStreamed(src: string, k: nat)
    requires ObjectFront(src, k) && TagFree(src[..k])
    ensures var r := StreamRun(STREAM_START, src);
      r.st.done && r.out == src[..k] && r.rest == src[k..]
  {
    hide StreamRun, BufferedScan, TagFree, ObjectFront;
    FrontAlone(src, k);
    var w := src[..k];
    LegalIsRecovered(w, k);
    StreamMatchesBuffered(w);
    assert w[..k] == w && w[k..] == "" && w + "" == w;
    StreamRunConcat(STREAM_START, w, src[k..]);
    assert src == w + src[k..] && "" + src[k..] == src[k..];
  }

  lemma FrontAlone(src: string, k: nat)
    requires ObjectFront(src, k)
    ensures k <= |src| && ObjectFront(src[..k], k)
  {
    assert src[..k][..k] == src[..k];
  }

  // ---------------------------------------------------------------- cut-off objects

  lemma {:induction false} EndsWhenCut(x: string, isKey: bool, j: nat)
    requires QuoteTerminates(x, isKey) && j <= |x|
    ensures QuoteTerminates(x[..j], isKey)
  {
    if j > 0 && IsWs(x[0]) {
      EndsWhenCut(x[1..], isKey, j - 1);
      assert x[..j][1..] == x[1..][..j - 1];
    }
  }

  lemma StepWhenCut(b: Core, c: char, x: string, j: nat)
    requires var k := ModeStep(true, true, b, c, x); j <= |x| && !k.control && !k.quote
    ensures var k := ModeStep(true, true, b, c, x); k.out == [c] && ModeStep(true, true, b, c, x[..j]) == k
  {
    hide QuoteTerminates;
    if QuoteTerminates(x, b.isKey) { EndsWhenCut(x, b.isKey, j); }
  }

  /** What a scan leaves alone it leaves alone when cut off anywhere. */
  lemma {:induction false} CutKept(b: Core, src: string, n: nat)
    requires var r := SegmentScan(true, b, src); !r.control && !r.quote && n <= r.scan.used
    ensures n <= |src| && SegmentScan(true, b, src[..n]).scan.out == src[..n]
    decreases n
  {
    hide ModeStep, Balanced;
    SegmentUnfolds(true, b, src);
    SegmentUnfolds(true, b, src[..n]);
    if n > 0 {
      assert src[..n][0] == src[0] && src[..n][1..] == src[1..][..n - 1];
      StepWhenCut(b, src[0], src[1..], n - 1);
      var k := ModeStep(true, true, b, src[0], src[1..]);
      if !Balanced(k.st, src[0]) { CutKept(k.st, src[1..], n - 1); }
      assert src[..n] == [src[0]] + src[1..][..n - 1];
    }
  }

  /** A legal object that stops arriving anywhere has been passed on as far as it came. */
  lemma LegalCutIsKept(src: string, k: nat, n: nat)
    requires ObjectFront(src, k) && n <= k
    ensures BufferedScan(START, src[..n]).out == src[..n]
    ensures TagFree(src[..n]) ==> Streamed(src[..n]) == src[..n]
  {
    hide SegmentScan, BufferedScan, TagFree, StreamRun;
    LegalIsFixed(true, src, k);
    CutKept(START, src, n);
    FirstScanIsBuffered(START, src[..n]);
    if TagFree(src[..n]) { StreamIsFirstScan(src[..n]); }
  }

  // --------------------------------------------------------------- in a longer text

  /** The drafted object stands at the front of `src`. */
  ghost predicate DraftFront(m: Mode, src: string, d: DraftMembers) {
    MembersOk(m, d) && |DraftText(d)| <= |src| && src[..|DraftText(d)|] == DraftText(d)
  }

  lemma FrontRecovered(src: string)
    ensures forall d :: DraftFront(BUFFERED, src, d) ==>
      Recovered(src) == Segment(Scanned(true, MeantText(d), |DraftText(d)|), ObjectPiece(d).control, ObjectPiece(d).quote)
    ensures forall k: nat :: ObjectFront(src, k) ==> Recovered(src) == Segment(Scanned(true, src[..k], k), false, false)
  {
    hide Recovered, MembersOk, MeantText, ObjectPiece, ObjectFront;
    forall d | DraftFront(BUFFERED, src, d)
      ensures Recovered(src) == Segment(Scanned(true, MeantText(d), |DraftText(d)|), ObjectPiece(d).control, ObjectPiece(d).quote)
    {
      DraftIsRecovered(d, src[|DraftText(d)|..]);
      assert src == src[..|DraftText(d)|] + src[|DraftText(d)|..];
    }
    forall k: nat | ObjectFront(src, k)
      ensures k <= |src| && Recovered(src) == Segment(Scanned(true, src[..k], k), false, false)
    {
      LegalIsRecovered(src, k);
    }
  }

  lemma FrontStreamed(src: string)
    ensures forall d :: DraftFront(STREAMED, src, d) ==>
      var r := StreamRun(STREAM_START, src);
      r.st.done && r.out == MeantText(d) && r.rest == src[|DraftText(d)|..] && Streamed(src) == MeantText(d)
    ensures forall k: nat :: ObjectFront(src, k) && TagFree(src[..k]) ==>
      var r := StreamRun(STREAM_START, src);
      r.st.done && r.out == src[..k] && r.rest == src[k..] && Streamed(src) == src[..k]
  {
    hide StreamRun, MembersOk, MeantText, ObjectPiece, ObjectFront, TagFree;
    var r := StreamRun(STREAM_START, src);
    assert r.out + "" == r.out;
    forall d | DraftFront(STREAMED, src, d)
      ensures r.st.done && r.out == MeantText(d) && r.rest == src[|DraftText(d)|..]
    {
      DraftIsStreamed(d, src[|DraftText(d)|..]);
      assert src == src[..|DraftText(d)|] + src[|DraftText(d)|..];
    }
    forall k: nat | ObjectFront(src, k) && (k <= |src| ==> TagFree(src[..k]))
      ensures k <= |src| && r.st.done && r.out == src[..k] && r.rest == src[k..]
    {
      FrontAlone(src, k);
      LegalIsStreamed(src, k);
    }
  }
}
