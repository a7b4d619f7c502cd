/** Repairing drifted JSON: the buffered stepper, the streaming form, and their agreement. */
module JsonRepair {
  import opened Json

  // The buffered form looks ahead in the whole buffer; the stream holds back what it
  // cannot decide yet.  Both produce the same bytes.

  // ------------------------------------------------------ structural context

  datatype Frame = Frame(kind: char, expectKey: bool)
  type Context = seq<Frame>

  predicate OpeningStringIsKey(ctx: Context) {
    ctx != [] && ctx[|ctx| - 1].kind == '{' && ctx[|ctx| - 1].expectKey
  }

  function Structural(ctx: Context, c: char): Context {
    if c == '{' then ctx + [Frame('{', true)]
    else if c == '[' then ctx + [Frame('[', false)]
    else if ctx == [] then ctx
    else
      var top := ctx[|ctx| - 1];
      if c == '}' && top.kind == '{' then ctx[..|ctx| - 1]
      else if c == ']' && top.kind == '[' then ctx[..|ctx| - 1]
      else if c == ':' && top.kind == '{' then ctx[|ctx| - 1 := Frame('{', false)]
      else if c == ',' && top.kind == '{' then ctx[|ctx| - 1 := Frame('{', true)]
      else ctx
  }

  /** May `c`, the first byte that is not white space behind a quote, follow a string? */
  predicate Ends(c: char, isKey: bool) {
    if isKey then c == ':' else c == ',' || c == '}' || c == ']'
  }

  /** Does a quote in front of `rest` end the string it stands in?  At the end of the
      buffer it does. */
  predicate QuoteTerminates(rest: string, isKey: bool) {
    rest == "" || if IsWs(rest[0]) then QuoteTerminates(rest[1..], isKey) else Ends(rest[0], isKey)
  }

  /** The first byte that is not white space decides. */
  lemma {:induction false} QuoteAfterWs(w: string, c: char, rest: string, isKey: bool)
    requires AllWs(w) && !IsWs(c)
    ensures QuoteTerminates(w + ([c] + rest), isKey) == Ends(c, isKey)
  {
    if w == "" {
      assert w + ([c] + rest) == [c] + rest;
    } else {
      assert w + ([c] + rest) == [w[0]] + (w[1..] + ([c] + rest));
      assert (w + ([c] + rest))[1..] == w[1..] + ([c] + rest);
      QuoteAfterWs(w[1..], c, rest, isKey);
    }
  }

  /** A raw control byte inside a string, escaped. */
  function EscapeControl(c: char): string {
    if c == '\n' then "\\n" else if c == '\r' then "\\r" else if c == '\t' then "\\t" else [c]
  }

  function EscapeControls(s: string): string {
    if s == "" then "" else EscapeControl(s[0]) + EscapeControls(s[1..])
  }

  // ---------------------------------------------------------- buffered form

  datatype Core = Core(depth: int, inStr: bool, esc: bool, isKey: bool, ctx: Context)

  const START := Core(0, false, false, false, [])

  datatype Out<T> = Out(st: T, out: string)

  /** A byte outside strings. */
  function Outside(b: Core, c: char): Core {
    if c == '"' then b.(isKey := OpeningStringIsKey(b.ctx), inStr := true)
    else b.(ctx := Structural(b.ctx, c), depth := b.depth + (if c == '{' then 1 else if c == '}' then -1 else 0))
  }

  /** One byte of the buffered stepper; `rest` is the buffer behind it. */
  function BufferedStep(b: Core, c: char, rest: string): Out<Core> {
    if b.esc then Out(b.(esc := false), [c])
    else if b.inStr then
      if c == '\\' then Out(b.(esc := true), [c])
      else if c == '"' then
        if QuoteTerminates(rest, b.isKey) then Out(b.(inStr := false), [c]) else Out(b, "\\\"")
      else Out(b, EscapeControl(c))
    else Out(Outside(b, c), [c])
  }

  /** The object is over at `c`. */
  predicate Balanced(b: Core, c: char) {
    !b.inStr && b.depth == 0 && c == '}'
  }

  /** The whole buffered scan: whether the object closed, what was written, how many
      bytes were read. */
  datatype Scanned = Scanned(closed: bool, out: string, used: nat)

  function BufferedScan(b: Core, src: string): (r: Scanned)
    ensures r.used <= |src|
    decreases |src|
  {
    if src == "" then Scanned(false, "", 0)
    else
      var o := BufferedStep(b, src[0], src[1..]);
      if Balanced(o.st, src[0]) then Scanned(true, o.out, 1)
      else
        var r := BufferedScan(o.st, src[1..]);
        Scanned(r.closed, o.out + r.out, r.used + 1)
  }

  // --------------------------------------------------------- streaming form

  const TAG_OPEN := "<content>"
  const TAG_CLOSE := "</content>"

  datatype Stream = Stream(
    core: Core,
    pendQ: bool,      // a quote in a string, waiting for the byte that decides
    pendTag: bool,    // a closing tag in a string, waiting likewise
    pendWs: string,   // white space behind it
    tag: string,      // bytes that may still become a tag
    done: bool)

  const STREAM_START := Stream(START, false, false, "", "", false)

  function Want(inStr: bool): string {
    if inStr then TAG_CLOSE else TAG_OPEN
  }

  /** One byte fed to the stream. */
  function StreamStep(s: Stream, c: char): Out<Stream> {
    if s.tag == "" then Resolve(s, c)
    else
      var want := Want(s.core.inStr);
      if |s.tag| < |want| && c == want[|s.tag|] then
        if |s.tag| + 1 < |want| then Out(s.(tag := s.tag + [c]), "")
        else if s.core.inStr then Out(s.(tag := "", pendTag := true), "")
        else Out(s.(tag := "", core := s.core.(inStr := true, isKey := false)), "\"")
      else
        var o := Resolve(s.(tag := ""), c);
        Out(o.st, s.tag + o.out)
  }

  /** What a held quote or tag turns into once the deciding byte is known. */
  function Held(s: Stream, ends: bool): string {
    if ends then "\"" + s.pendWs
    else (if s.pendTag then TAG_CLOSE else "\\\"") + EscapeControls(s.pendWs)
  }

  function Resolve(s: Stream, c: char): Out<Stream> {
    if !s.pendQ && !s.pendTag then Plain(s, c)
    else if IsWs(c) then Out(s.(pendWs := s.pendWs + [c]), "")
    else
      var ends := Ends(c, s.core.isKey);
      var o := Plain(s.(pendQ := false, pendTag := false, pendWs := "",
                        core := s.core.(inStr := if ends then false else s.core.inStr)), c);
      Out(o.st, Held(s, ends) + o.out)
  }

  function Plain(s: Stream, c: char): Out<Stream> {
    if s.core.esc then Out(s.(core := s.core.(esc := false)), [c])
    else if s.core.inStr then
      if c == '\\' then Out(s.(core := s.core.(esc := true)), [c])
      else if c == '"' then Out(s.(pendQ := true), "")
      else if c == '<' then Out(s.(tag := [c]), "")
      else Out(s, EscapeControl(c))
    else if c == '<' then Out(s.(tag := [c]), "")
    else
      var b := Outside(s.core, c);
      Out(s.(core := b, done := c == '}' && b.depth == 0), [c])
  }

  /** What a run over `w` leaves: the state, the bytes written, the bytes not read. */
  datatype Ran = Ran(st: Stream, out: string, rest: string)

  function StreamRun(s: Stream, w: string): Ran
    decreases |w|
  {
    if s.done || w == "" then Ran(s, "", w)
    else
      var o := StreamStep(s, w[0]);
      var r := StreamRun(o.st, w[1..]);
      Ran(r.st, o.out + r.out, r.rest)
  }

  /** What the end of the turn adds for an object that never closed. */
  function FinalTail(s: Stream): string {
    s.tag + if s.pendQ || s.pendTag then "\"" + s.pendWs else ""
  }

  /** Behind the arguments: white space and one closing brace are framing. */
  function Trail(rest: string): string {
    if rest == "" then ""
    else if IsWs(rest[0]) then Trail(rest[1..])
    else if rest[0] == '}' then rest[1..]
    else rest
  }

  /** Anything but white space behind the arguments yet? */
  predicate OuterSeen(rest: string) {
    exists i :: 0 <= i < |rest| && !IsWs(rest[i])
  }

  // ------------------------------------------------- chopping does not matter

  lemma {:induction false} StreamRunConcat(s: Stream, v: string, w: string)
    ensures var r := StreamRun(s, v); var q := StreamRun(r.st, w);
      StreamRun(s, v + w) == if r.st.done then Ran(r.st, r.out, r.rest + w) else Ran(q.st, r.out + q.out, q.rest)
    decreases |v|
  {
    hide StreamStep;
    if s.done {
    } else if v == "" {
      assert v + w == w;
    } else {
      var o := StreamStep(s, v[0]);
      assert (v + w)[0] == v[0] && (v + w)[1..] == v[1..] + w;
      StreamRunConcat(o.st, v[1..], w);
    }
  }

  lemma {:induction false} StreamRunReads(s: Stream, w: string)
    ensures var r := StreamRun(s, w);
      |r.rest| <= |w| && r.rest == w[|w| - |r.rest|..] && (!r.st.done ==> r.rest == "")
    decreases |w|
  {
    hide StreamStep;
    if !s.done && w != "" { StreamRunReads(StreamStep(s, w[0]).st, w[1..]); }
  }

  lemma {:induction false} TrailConcat(a: string, b: string)
    ensures Trail(a + b) == if OuterSeen(a) then Trail(a) + b else Trail(b)
    ensures !OuterSeen(a) ==> Trail(a) == ""
    ensures OuterSeen(a + b) <==> OuterSeen(a) || OuterSeen(b)
    decreases |a|
  {
    SeenConcat(a, b);
    if a == "" {
      assert a + b == b;
    } else {
      assert (a + b)[0] == a[0] && (a + b)[1..] == a[1..] + b;
      if IsWs(a[0]) {
        TrailConcat(a[1..], b);
        assert a == [a[0]] + a[1..];
        SeenConcat([a[0]], a[1..]);
      } else {
        assert OuterSeen(a);
      }
    }
  }

  /** Behind white space one closing brace is the call's own; anything else stays. */
  lemma {:induction false} TrailIs(ws: string, c: char, rest: string)
    requires AllWs(ws) && !IsWs(c)
    ensures Trail(ws) == "" && Trail(ws + ([c] + rest)) == if c == '}' then rest else [c] + rest
  {
    if ws == "" {
      assert ws + ([c] + rest) == [c] + rest;
      assert ([c] + rest)[1..] == rest;
    } else {
      assert (ws + ([c] + rest))[0] == ws[0] && (ws + ([c] + rest))[1..] == ws[1..] + ([c] + rest);
      TrailIs(ws[1..], c, rest);
    }
  }

  lemma SeenConcat(a: string, b: string)
    ensures OuterSeen(a + b) <==> OuterSeen(a) || OuterSeen(b)
  {
    if OuterSeen(a) {
      var i :| 0 <= i < |a| && !IsWs(a[i]);
      assert (a + b)[i] == a[i];
    }
    if OuterSeen(b) {
      var i :| 0 <= i < |b| && !IsWs(b[i]);
      assert (a + b)[|a| + i] == b[i];
    }
    if OuterSeen(a + b) {
      var i :| 0 <= i < |a + b| && !IsWs((a + b)[i]);
      if i < |a| { assert a[i] == (a + b)[i]; } else { assert b[i - |a|] == (a + b)[i]; }
    }
  }

  // -------------------------------------------------------------------- tags

  predicate OccursAt(w: string, t: string, i: int) {
    0 <= i <= |w| - |t| && w[i..i + |t|] == t
  }

  predicate Contains(w: string, t: string) {
    exists i {:trigger OccursAt(w, t, i)} :: 0 <= i <= |w| && OccursAt(w, t, i)
  }

  predicate TagFree(w: string) {
    !Contains(w, TAG_OPEN) && !Contains(w, TAG_CLOSE)
  }
}
