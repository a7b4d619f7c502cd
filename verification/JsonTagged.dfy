/** The streaming repair against a reading that looks ahead as far as it likes, content
    tags included: they write the same, whatever arrives. */
module JsonTagged {
  import opened Json
  import opened JsonRepair

  // ------------------------------------------------------------- the reference

  /** What one byte, or one whole tag, at the front of the text makes of the state. */
  datatype Read = Read(st: Core, out: string, used: nat)

  /** An opening tag outside strings is a quote that opens a value; a closing tag inside a
      string closes it if a quote in its place would, and is text otherwise. */
  function TaggedStep(b: Core, src: string): (r: Read)
    requires src != ""
    ensures 0 < r.used <= |src|
  {
    var want := Want(b.inStr);
    if b.esc || !(want <= src) then
      var o := BufferedStep(b, src[0], src[1..]);
      Read(o.st, o.out, 1)
    else if !b.inStr then Read(b.(inStr := true, isKey := false), "\"", |want|)
    else if QuoteTerminates(src[|want|..], b.isKey) then Read(b.(inStr := false), "\"", |want|)
    else Read(b, want, |want|)
  }

  function TaggedScan(b: Core, src: string): (r: Scanned)
    ensures r.used <= |src|
    decreases |src|
  {
    if src == "" then Scanned(false, "", 0)
    else
      var o := TaggedStep(b, src);
      if Balanced(o.st, src[0]) then Scanned(true, o.out, o.used)
      else
        var r := TaggedScan(o.st, src[o.used..]);
        Scanned(r.closed, o.out + r.out, o.used + r.used)
  }

  lemma TaggedUnfolds(b: Core, src: string)
    requires src != ""
    ensures var o := TaggedStep(b, src); var r := TaggedScan(o.st, src[o.used..]);
      TaggedScan(b, src) ==
        if Balanced(o.st, src[0]) then Scanned(true, o.out, o.used)
        else Scanned(r.closed, o.out + r.out, o.used + r.used)
  {
    hide TaggedStep, Balanced;
  }

  // ------------------------------------------------ what a stream still stands for

  /** What a streaming state can look like. */
  predicate Steady(s: Stream) {
    && (s.tag != "" ==>
      && !s.pendQ && !s.pendTag && !s.core.esc
      && |s.tag| < |Want(s.core.inStr)| && s.tag == Want(s.core.inStr)[..|s.tag|])
    && !(s.pendQ && s.pendTag)
    && (s.pendQ || s.pendTag ==> s.core.inStr && !s.core.esc)
    && (!s.pendQ && !s.pendTag ==> s.pendWs == "")
    && AllWs(s.pendWs)
    && (s.core.esc ==> s.core.inStr)
  }

  predicate Holds(s: Stream) { s.pendQ || s.pendTag }

  /** The state the reference is in: a held quote or tag is decided by what follows. */
  function Settled(s: Stream, rest: string): Core {
    if Holds(s) then s.core.(inStr := !QuoteTerminates(rest, s.core.isKey)) else s.core
  }

  /** What it has written that the stream still owes. */
  function Owed(s: Stream, rest: string): string {
    if Holds(s) then Held(s, QuoteTerminates(rest, s.core.isKey)) else ""
  }

  /** From here on both write the same and stop at the same byte; a half-read tag is still
      in front of the reference. */
  ghost predicate Agree(s: Stream, w: string) {
    var r := StreamRun(s, w);
    var q := TaggedScan(Settled(s, w), s.tag + w);
    && q.closed == r.st.done && q.used == |s.tag| + |w| - |r.rest|
    && Owed(s, w) + q.out == r.out + if q.closed then "" else FinalTail(r.st)
  }

  // ------------------------------------------------------------- ordinary bytes

  predicate Ordinary(c: char) {
    match c
    case '"' | '\\' | '\n' | '\r' | '\t' | '{' | '}' | '[' | ']' | ':' | ',' => false
    case _ => true
  }

  lemma WantBytes(inStr: bool, k: nat)
    requires k < |Want(inStr)|
    ensures Ordinary(Want(inStr)[k]) && (Want(inStr)[k] == '<' <==> k == 0)
  {
    if inStr {
      assert TAG_CLOSE == ['<', '/', 'c', 'o', 'n', 't', 'e', 'n', 't', '>'];
    } else {
      assert TAG_OPEN == ['<', 'c', 'o', 'n', 't', 'e', 'n', 't', '>'];
    }
  }

  lemma OrdinaryByte(b: Core, c: char, rest: string)
    requires !b.esc && Ordinary(c)
    ensures BufferedStep(b, c, rest) == Out(b, [c]) && !Balanced(b, c)
  {}

  /** A byte no tag starts at is read as the buffered form reads it. */
  lemma ByteRead(b: Core, src: string)
    requires src != "" && (b.esc || src[0] != '<' || !(Want(b.inStr) <= src))
    ensures var o := BufferedStep(b, src[0], src[1..]); TaggedStep(b, src) == Read(o.st, o.out, 1)
  {
    hide BufferedStep;
    WantBytes(b.inStr, 0);
  }

  /** What a scan gives behind bytes that were copied. */
  function Ahead(w: string, r: Scanned): Scanned {
    Scanned(r.closed, w + r.out, |w| + r.used)
  }

  lemma OrdinaryRead(b: Core, src: string)
    requires src != "" && !b.esc && Ordinary(src[0]) && (src[0] != '<' || !(Want(b.inStr) <= src))
    ensures TaggedScan(b, src) == Ahead([src[0]], TaggedScan(b, src[1..]))
  {
    hide BufferedStep, Balanced, TaggedStep;
    ByteRead(b, src);
    OrdinaryByte(b, src[0], src[1..]);
    TaggedUnfolds(b, src);
  }

  lemma {:induction false} OrdinaryCopied(b: Core, u: string, v: string)
    requires !b.esc && forall i :: 0 <= i < |u| ==> Ordinary(u[i]) && u[i] != '<'
    ensures TaggedScan(b, u + v) == Ahead(u, TaggedScan(b, v))
    decreases |u|
  {
    hide Ordinary, TaggedScan;
    if u == "" {
      assert u + v == v;
      assert "" + TaggedScan(b, v).out == TaggedScan(b, v).out;
    } else {
      assert (u + v)[0] == u[0] && (u + v)[1..] == u[1..] + v;
      OrdinaryRead(b, u + v);
      OrdinaryCopied(b, u[1..], v);
      assert [u[0]] + (u[1..] + TaggedScan(b, v).out) == u + TaggedScan(b, v).out;
    }
  }

  /** A tag that is begun and not completed is copied. */
  lemma HalfTagCopied(b: Core, tag: string, v: string)
    requires !b.esc && tag != "" && |tag| < |Want(b.inStr)| && tag == Want(b.inStr)[..|tag|]
    requires !(Want(b.inStr) <= tag + v)
    ensures TaggedScan(b, tag + v) == Ahead(tag, TaggedScan(b, v))
  {
    hide Ordinary, TaggedScan, Want;
    HalfTagBytes(b.inStr, tag);
    assert (tag + v)[0] == tag[0] && (tag + v)[1..] == tag[1..] + v;
    OrdinaryRead(b, tag + v);
    OrdinaryCopied(b, tag[1..], v);
    assert [tag[0]] + tag[1..] == tag;
    Joined([tag[0]], tag[1..], TaggedScan(b, v).out);
  }

  lemma HalfTagBytes(inStr: bool, tag: string)
    requires tag != "" && |tag| < |Want(inStr)| && tag == Want(inStr)[..|tag|]
    ensures forall k :: 0 <= k < |tag| ==> Ordinary(tag[k]) && (tag[k] == '<' <==> k == 0)
  {
    hide Ordinary, Want;
    forall k | 0 <= k < |tag| ensures Ordinary(tag[k]) && (tag[k] == '<' <==> k == 0) { WantBytes(inStr, k); }
  }

  // ----------------------------------------------------------------- agreement

  lemma EscapeControlsSnoc(s: string, c: char)
    ensures EscapeControls(s + [c]) == EscapeControls(s) + EscapeControl(c)
  {
    if s == "" {
      assert s + [c] == [c];
    } else {
      assert (s + [c])[1..] == s[1..] + [c];
      EscapeControlsSnoc(s[1..], c);
    }
  }

  lemma WsByte(b: Core, c: char, rest: string)
    requires IsWs(c) && !b.esc
    ensures BufferedStep(b, c, rest) == Out(b, if b.inStr then EscapeControl(c) else [c]) && !Balanced(b, c)
  {
    assert !b.inStr ==> Structural(b.ctx, c) == b.ctx;
  }

  /** One step of the stream, told by its run. */
  lemma RunUnfolds(s: Stream, w: string)
    requires !s.done && w != ""
    ensures var o := StreamStep(s, w[0]); var r := StreamRun(o.st, w[1..]);
      StreamRun(s, w) == Ran(r.st, o.out + r.out, r.rest)
  {
    hide StreamStep;
  }

  lemma RunEnds(s: Stream, w: string)
    requires s.done || w == ""
    ensures StreamRun(s, w) == Ran(s, "", w)
  {}

  lemma Joined(a: string, b: string, c: string)
    ensures (a + b) + c == a + (b + c)
  {}

  lemma AtEnd(s: Stream)
    requires Steady(s) && !s.done
    ensures Agree(s, "")
  {
    hide Want;
    RunEnds(s, "");
    assert s.tag + "" == s.tag;
    if s.tag != "" {
      HalfTagCopied(s.core, s.tag, "");
      assert !(Want(s.core.inStr) <= s.tag);
    }
    assert EscapeControls("") == "";
  }

  /** A tag that goes on without completing. */
  lemma TagGoesOn(s: Stream, c: char, rest: string)
    requires Steady(s) && !s.done && s.tag != "" && |s.tag| + 1 < |Want(s.core.inStr)| && c == Want(s.core.inStr)[|s.tag|]
    ensures var t := s.(tag := s.tag + [c]); Steady(t) && !t.done && (Agree(t, rest) ==> Agree(s, [c] + rest))
  {
    hide Want, TaggedScan;
    var t, w := s.(tag := s.tag + [c]), [c] + rest;
    assert s.tag + [c] == Want(s.core.inStr)[..|s.tag| + 1];
    assert w[0] == c && w[1..] == rest;
    RunUnfolds(s, w);
    assert StreamStep(s, c) == Out(t, "");
    assert "" + StreamRun(t, rest).out == StreamRun(t, rest).out;
    Joined(s.tag, [c], rest);
  }

  /** A tag that completes. */
  lemma TagCompletes(s: Stream, c: char, rest: string)
    requires Steady(s) && !s.done && s.tag != "" && |s.tag| + 1 == |Want(s.core.inStr)| && c == Want(s.core.inStr)[|s.tag|]
    ensures var t := StreamStep(s, c).st; Steady(t) && !t.done && (Agree(t, rest) ==> Agree(s, [c] + rest))
  {
    hide Want, TaggedScan, QuoteTerminates, BufferedStep;
    var b, want, w := s.core, Want(s.core.inStr), [c] + rest;
    var o := StreamStep(s, c);
    assert w[0] == c && w[1..] == rest;
    RunUnfolds(s, w);
    assert s.tag + [c] == want;
    Joined(s.tag, [c], rest);
    var src := s.tag + w;
    assert src == want + rest && want <= src && src[|want|..] == rest;
    WantBytes(b.inStr, 0);
    TaggedUnfolds(b, src);
    hide StreamStep, TaggedStep;
    CompletedStep(s, c, rest, src);
    OneStep(s, c, rest, TaggedStep(b, src).out);
    assert s.tag + w == src && "" + TaggedScan(b, src).out == TaggedScan(b, src).out;
  }

  /** Regrouping behind a step that leaves no tag half read. */
  lemma OneStep(s: Stream, c: char, rest: string, n: string)
    requires !s.done
    requires var o := StreamStep(s, c); Steady(o.st) && o.st.tag == "" && n == o.out + Owed(o.st, rest)
    ensures var o := StreamStep(s, c); var q := TaggedScan(Settled(o.st, rest), rest); var r := StreamRun(o.st, rest);
      "" + rest == rest && forall tail :: Owed(o.st, rest) + q.out == r.out + tail ==> n + q.out == (o.out + r.out) + tail
  {
    hide StreamStep, TaggedScan, StreamRun, Owed, Settled, Steady;
    var o := StreamStep(s, c);
    var q, r := TaggedScan(Settled(o.st, rest), rest), StreamRun(o.st, rest);
    assert "" + rest == rest;
    forall tail | Owed(o.st, rest) + q.out == r.out + tail ensures n + q.out == (o.out + r.out) + tail {
      Joined(o.out, Owed(o.st, rest), q.out);
      Joined(o.out, r.out, tail);
    }
  }

  lemma CompletedStep(s: Stream, c: char, rest: string, src: string)
    requires Steady(s) && !s.done && s.tag != "" && |s.tag| + 1 == |Want(s.core.inStr)| && c == Want(s.core.inStr)[|s.tag|]
    requires src == Want(s.core.inStr) + rest && Want(s.core.inStr) <= src && src[|Want(s.core.inStr)|..] == rest
    ensures var o := StreamStep(s, c); var n := TaggedStep(s.core, src);
      && Steady(o.st) && !o.st.done && o.st.tag == ""
      && n.used == |Want(s.core.inStr)| && n.st == Settled(o.st, rest) && !Balanced(n.st, src[0])
      && n.out == o.out + Owed(o.st, rest) && Owed(s, [c] + rest) == ""
  {
    hide QuoteTerminates, BufferedStep;
    assert EscapeControls("") == "";
    WantBytes(s.core.inStr, 0);
  }

  /** A tag that breaks off is flushed, and the byte is read again. */
  lemma TagDropped(s: Stream, c: char, rest: string)
    requires Steady(s) && !s.done && s.tag != "" && c != Want(s.core.inStr)[|s.tag|]
    ensures var t := s.(tag := ""); Steady(t) && !t.done && (Agree(t, [c] + rest) ==> Agree(s, [c] + rest))
  {
    hide Want, TaggedScan, Resolve;
    var t, w := s.(tag := ""), [c] + rest;
    assert w[0] == c && w[1..] == rest;
    RunUnfolds(s, w);
    RunUnfolds(t, w);
    var r := StreamRun(t, w);
    assert !(Want(s.core.inStr) <= s.tag + w) by { assert (s.tag + w)[|s.tag|] == c; }
    HalfTagCopied(s.core, s.tag, w);
    var o := Resolve(t, c);
    Joined(s.tag, o.out, StreamRun(o.st, rest).out);
    assert "" + w == w;
    hide StreamStep, StreamRun, Steady;
    var q := TaggedScan(s.core, w);
    assert "" + q.out == q.out;
    assert Settled(t, w) == s.core == Settled(s, w) && Owed(t, w) == "" == Owed(s, w);
    Joined(s.tag, r.out, if q.closed then "" else FinalTail(r.st));
    assert "" + (s.tag + q.out) == s.tag + q.out;
  }

  /** White space behind a held quote or tag is held too. */
  lemma HeldWs(s: Stream, c: char, rest: string)
    requires Steady(s) && !s.done && Holds(s) && IsWs(c)
    ensures var t := s.(pendWs := s.pendWs + [c]); Steady(t) && !t.done && (Agree(t, rest) ==> Agree(s, [c] + rest))
  {
    hide TaggedScan, EscapeControls, BufferedStep, TaggedStep, Plain, Balanced;
    var t, w := s.(pendWs := s.pendWs + [c]), [c] + rest;
    assert w[0] == c && w[1..] == rest;
    var ends := QuoteTerminates(rest, s.core.isKey);
    assert QuoteTerminates(w, s.core.isKey) == ends;
    var b := s.core.(inStr := !ends);
    RunUnfolds(s, w);
    assert StreamStep(s, c) == Out(t, "");
    assert "" + StreamRun(t, rest).out == StreamRun(t, rest).out;
    WsByte(b, c, rest);
    ByteRead(b, w);
    TaggedUnfolds(b, w);
    HeldOneMore(s, c, ends);
    var x := if ends then [c] else EscapeControl(c);
    Joined(Held(s, ends), x, TaggedScan(b, rest).out);
    assert "" + w == w && "" + rest == rest;
  }

  lemma HeldOneMore(s: Stream, c: char, ends: bool)
    requires Steady(s) && Holds(s)
    ensures Held(s.(pendWs := s.pendWs + [c]), ends) == Held(s, ends) + if ends then [c] else EscapeControl(c)
  {
    EscapeControlsSnoc(s.pendWs, c);
    if ends {
      Joined("\"", s.pendWs, [c]);
    } else {
      Joined(if s.pendTag then TAG_CLOSE else "\\\"", EscapeControls(s.pendWs), EscapeControl(c));
    }
  }

  /** The state once a held quote or tag is decided. */
  function Decided(s: Stream, ends: bool): Stream {
    s.(pendQ := false, pendTag := false, pendWs := "", core := s.core.(inStr := if ends then false else s.core.inStr))
  }

  /** The first other byte decides, and is read again. */
  lemma HeldResolved(s: Stream, c: char, rest: string)
    requires Steady(s) && !s.done && Holds(s) && !IsWs(c)
    ensures var t := Decided(s, Ends(c, s.core.isKey)); Steady(t) && !t.done && (Agree(t, [c] + rest) ==> Agree(s, [c] + rest))
  {
    hide TaggedScan, EscapeControls, BufferedStep, TaggedStep, Plain, Balanced, Held, FinalTail;
    var ends, w := Ends(c, s.core.isKey), [c] + rest;
    var t := Decided(s, ends);
    assert w[0] == c && w[1..] == rest;
    assert QuoteTerminates(w, s.core.isKey) == ends;
    RunUnfolds(s, w);
    RunUnfolds(t, w);
    var o := Plain(t, c);
    assert StreamStep(t, c) == o && StreamStep(s, c) == Out(o.st, Held(s, ends) + o.out);
    Joined(Held(s, ends), o.out, StreamRun(o.st, rest).out);
    var r, q := StreamRun(t, w), TaggedScan(t.core, w);
    assert "" + w == w;
    hide StreamStep, StreamRun, Steady;
    assert "" + q.out == q.out;
    Joined(Held(s, ends), r.out, if q.closed then "" else FinalTail(r.st));
  }

  /** An angle that may begin a tag. */
  lemma AngleStarts(s: Stream, rest: string)
    requires Steady(s) && !s.done && s.tag == "" && !Holds(s) && !s.core.esc
    ensures var t := s.(tag := "<"); Steady(t) && !t.done && (Agree(t, rest) ==> Agree(s, ['<'] + rest))
  {
    hide TaggedScan;
    var t, w := s.(tag := "<"), ['<'] + rest;
    assert w[0] == '<' && w[1..] == rest;
    assert TAG_OPEN[..1] == "<" && TAG_CLOSE[..1] == "<";
    RunUnfolds(s, w);
    assert StreamStep(s, '<') == Out(t, "");
    assert "" + StreamRun(t, rest).out == StreamRun(t, rest).out;
    assert "" + w == w && "<" + rest == w;
  }

  /** Any other byte the stream reads at once. */
  lemma PlainStep(s: Stream, c: char, rest: string)
    requires Steady(s) && !s.done && s.tag == "" && !Holds(s) && (s.core.esc || c != '<')
    ensures var o := StreamStep(s, c); var n := BufferedStep(s.core, c, rest);
      && Steady(o.st) && o.st.tag == "" && n.st == Settled(o.st, rest) && n.out == o.out + Owed(o.st, rest)
      && (o.st.done <==> Balanced(n.st, c)) && (o.st.done ==> Owed(o.st, rest) == "")
  {
    hide QuoteTerminates;
    assert EscapeControls("") == "";
  }

  lemma PlainAgrees(s: Stream, c: char, rest: string)
    requires Steady(s) && !s.done && s.tag == "" && !Holds(s) && (s.core.esc || c != '<')
    ensures var t := StreamStep(s, c).st;
      && Steady(t)
      && (t.done ==> Agree(s, [c] + rest))
      && (!t.done && Agree(t, rest) ==> Agree(s, [c] + rest))
  {
    hide StreamStep, BufferedStep, TaggedStep, TaggedScan, Balanced, Plain, Resolve, Want;
    PlainStep(s, c, rest);
    var w, o := [c] + rest, StreamStep(s, c);
    assert w[0] == c && w[1..] == rest && "" + w == w;
    RunUnfolds(s, w);
    ByteRead(s.core, w);
    TaggedUnfolds(s.core, w);
    var n := BufferedStep(s.core, c, rest);
    OneStep(s, c, rest, n.out);
    if o.st.done { RunEnds(o.st, rest); }
    assert Owed(s, w) == "" && Settled(s, w) == s.core;
    assert "" + TaggedScan(s.core, w).out == TaggedScan(s.core, w).out;
  }

  /** From every steady state, whatever it holds back, and for every text to come: the
      stream and the reference write the same and stop at the same byte. */
  lemma {:induction false} RunsAgree(s: Stream, w: string)
    requires Steady(s) && !s.done
    ensures Agree(s, w)
    decreases |w|, |s.tag|, Holds(s)
  {
    hide Agree, Steady, StreamStep, Want;
    if w == "" {
      AtEnd(s);
    } else {
      var c, rest := w[0], w[1..];
      assert w == [c] + rest;
      if s.tag != "" {
        TagShort(s);
        if c != Want(s.core.inStr)[|s.tag|] {
          TagDropped(s, c, rest);
          RunsAgree(s.(tag := ""), w);
        } else if |s.tag| + 1 < |Want(s.core.inStr)| {
          TagGoesOn(s, c, rest);
          RunsAgree(s.(tag := s.tag + [c]), rest);
        } else {
          TagCompletes(s, c, rest);
          RunsAgree(StreamStep(s, c).st, rest);
        }
      } else if Holds(s) {
        if IsWs(c) {
          HeldWs(s, c, rest);
          RunsAgree(s.(pendWs := s.pendWs + [c]), rest);
        } else {
          HeldResolved(s, c, rest);
          RunsAgree(Decided(s, Ends(c, s.core.isKey)), w);
        }
      } else if c == '<' && !s.core.esc {
        AngleStarts(s, rest);
        RunsAgree(s.(tag := "<"), rest);
      } else {
        PlainAgrees(s, c, rest);
        var t := StreamStep(s, c).st;
        if !t.done { RunsAgree(t, rest); }
      }
    }
  }

  lemma TagShort(s: Stream)
    requires Steady(s) && s.tag != ""
    ensures |s.tag| < |Want(s.core.inStr)|
  {}

  /** For every arguments body the stream writes, with its final tail if the object never
      closes, what the reference writes, and stops behind the same brace. */
  lemma StreamIsTagged(w: string)
    ensures var r := StreamRun(STREAM_START, w); var q := TaggedScan(START, w);
      && q.closed == r.st.done && r.rest == w[q.used..]
      && q.out == r.out + if q.closed then "" else FinalTail(r.st)
  {
    hide StreamRun, TaggedScan, FinalTail;
    RunsAgree(STREAM_START, w);
    StreamRunReads(STREAM_START, w);
    assert "" + w == w && "" + TaggedScan(START, w).out == TaggedScan(START, w).out;
  }

  // ------------------------------------------------------------ tag-free bodies

  /** Without tags the reference is the buffered form. */
  lemma {:induction false} TagFreeScan(b: Core, w: string)
    requires TagFree(w)
    ensures TaggedScan(b, w) == BufferedScan(b, w)
    decreases |w|
  {
    hide BufferedStep, Balanced, TagFree;
    if w != "" {
      NoTagHere(b.inStr, w);
      ByteRead(b, w);
      TagFreeScan(BufferedStep(b, w[0], w[1..]).st, w[1..]);
    }
  }

  lemma NoTagHere(inStr: bool, w: string)
    requires TagFree(w) && w != ""
    ensures !(Want(inStr) <= w) && TagFree(w[1..])
  {
    var want := Want(inStr);
    if want <= w { assert OccursAt(w, want, 0); }
    forall i, t | 0 <= i && OccursAt(w[1..], t, i) ensures OccursAt(w, t, i + 1) {
      assert w[1..][i..i + |t|] == w[i + 1..i + 1 + |t|];
    }
  }

  /** The two repairs in lockstep: for every arguments body without content tags the stream
      writes what the buffered stepper writes, and both stop behind the same brace. */
  lemma StreamMatchesBuffered(w: string)
    requires TagFree(w)
    ensures var r := StreamRun(STREAM_START, w);
      var q := BufferedScan(START, w);
      && q.closed == r.st.done && r.rest == w[q.used..]
      && q.out == r.out + if q.closed then "" else FinalTail(r.st)
  {
    hide StreamRun, BufferedScan, TaggedScan, TagFree, FinalTail;
    StreamIsTagged(w);
    TagFreeScan(START, w);
  }
}
