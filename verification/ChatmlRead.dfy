/** A reader of rendered prompts: what was rendered is read back, turn by turn. */
module ChatmlRead {
  import opened Chatml

  // ------------------------------------------------------------------ reading

  function TurnMark(): string { "<|im_start|>" }
  function EndMark(): string { "<|im_end|>\n" }
  function Thinking(): string { "assistant\n<think>\n" }
  function Silent(): string { "assistant\n<think>\n\n</think>\n\n" }

  predicate StandsAt(t: string, s: string, p: nat) {
    p + |s| <= |t| && t[p..p + |s|] == s
  }

  /** The first place from `p` on where `s` stands, or the end. */
  function Find(t: string, s: string, p: nat): (e: nat)
    requires p <= |t|
    ensures p <= e <= |t|
    decreases |t| - p
  {
    if p == |t| || StandsAt(t, s, p) then p else Find(t, s, p + 1)
  }

  /** The turns of a conversation, and how the reply is opened; or not a prompt. */
  datatype Reading = Reading(turns: seq<Msg>, think: bool) | NoPrompt

  /** One turn is a role up to the line's end and a text up to the end mark; without an end
      mark the reply is opened. */
  function Read(t: string): Reading
    decreases |t|
  {
    if !StandsAt(t, TurnMark(), 0) then NoPrompt
    else
      var body := t[|TurnMark()|..];
      var n := Find(body, "\n", 0);
      if !StandsAt(body, "\n", n) then NoPrompt
      else
        var text := body[n + 1..];
        var e := Find(text, EndMark(), 0);
        if StandsAt(text, EndMark(), e) then
          match Read(text[e + |EndMark()|..])
          case Reading(turns, think) => Reading([Msg(body[..n], text[..e])] + turns, think)
          case NoPrompt => NoPrompt
        else if body == Thinking() then Reading([], true)
        else if body == Silent() then Reading([], false)
        else NoPrompt
  }

  // -------------------------------------------------------- rendered and read

  ghost predicate Lacks(t: string, s: string) {
    forall p :: !StandsAt(t, s, p)
  }

  lemma {:induction false} FindFirst(t: string, s: string, p: nat, e: nat)
    requires p <= e <= |t| && StandsAt(t, s, e) && forall q: nat :: q < e ==> !StandsAt(t, s, q)
    ensures Find(t, s, p) == e
    decreases e - p
  {
    hide StandsAt;
    if p < e { FindFirst(t, s, p + 1, e); }
  }

  ghost predicate FirstByteOnce(s: string) {
    s != "" && forall k :: 0 < k < |s| ==> s[k] != s[0]
  }

  /** In front of a mark that begins as no other part of it does the text is found whole. */
  lemma FindBehind(a: string, s: string, rest: string)
    requires FirstByteOnce(s) && Lacks(a, s)
    ensures Find(a + (s + rest), s, 0) == |a| && StandsAt(a + (s + rest), s, |a|)
  {
    hide Find;
    var t := a + (s + rest);
    forall q: nat | q < |a| ensures !StandsAt(t, s, q) { Earlier(a, s, rest, q); }
    assert t[|a|..|a| + |s|] == s;
    FindFirst(t, s, 0, |a|);
  }

  lemma Earlier(a: string, s: string, rest: string, q: nat)
    requires FirstByteOnce(s) && Lacks(a, s) && q < |a|
    ensures !StandsAt(a + (s + rest), s, q)
  {
    var t := a + (s + rest);
    assert !StandsAt(a, s, q);
    assert q + |s| <= |a| ==> t[q..q + |s|] == a[q..q + |s|];
    assert |a| < q + |s| <= |t| ==> t[q..q + |s|][|a| - q] == t[|a|] == s[0];
  }

  /** What a turn needs to be read back: a role on one line and no end mark in the text. */
  ghost predicate Readable(m: Msg) {
    Lacks(m.role, "\n") && Lacks(m.content, EndMark())
  }

  lemma Marks()
    ensures FirstByteOnce(EndMark()) && FirstByteOnce("\n") && EndMark()[1] == '|'
  {
    assert EndMark() == ['<', '|', 'i', 'm', '_', 'e', 'n', 'd', '|', '>', '\n'];
  }

  function TurnText(m: Msg, rest: string): string {
    TurnMark() + (m.role + ("\n" + (m.content + (EndMark() + rest))))
  }

  lemma ReadUnfolds(t: string, body: string, n: nat, text: string, e: nat)
    requires StandsAt(t, TurnMark(), 0) && body == t[|TurnMark()|..]
    requires n == Find(body, "\n", 0) && StandsAt(body, "\n", n) && text == body[n + 1..]
    requires e == Find(text, EndMark(), 0)
    ensures StandsAt(text, EndMark(), e) ==>
      Read(t) == match Read(text[e + |EndMark()|..])
        case Reading(turns, think) => Reading([Msg(body[..n], text[..e])] + turns, think)
        case NoPrompt => NoPrompt
    ensures !StandsAt(text, EndMark(), e) ==>
      Read(t) == if body == Thinking() then Reading([], true) else if body == Silent() then Reading([], false) else NoPrompt
  {
    hide Find, StandsAt, TurnMark, EndMark, Thinking, Silent;
  }

  lemma ReadTurn(m: Msg, rest: string)
    requires Readable(m)
    ensures Read(TurnText(m, rest)) ==
      match Read(rest)
      case Reading(turns, think) => Reading([m] + turns, think)
      case NoPrompt => NoPrompt
  {
    hide Find, Lacks, TurnMark, EndMark, FirstByteOnce, Thinking, Silent, Read;
    var text := m.content + (EndMark() + rest);
    var body := m.role + ("\n" + text);
    var t := TurnText(m, rest);
    Marks();
    FindBehind(m.role, "\n", text);
    FindBehind(m.content, EndMark(), rest);
    MarkInFront(body);
    assert body[..|m.role|] == m.role && body[|m.role| + 1..] == text;
    assert text[..|m.content|] == m.content && text[|m.content| + |EndMark()|..] == rest;
    ReadUnfolds(t, body, |m.role|, text, |m.content|);
  }

  lemma MarkInFront(body: string)
    ensures StandsAt(TurnMark() + body, TurnMark(), 0) && (TurnMark() + body)[|TurnMark()|..] == body
  {
    hide TurnMark;
    assert (TurnMark() + body)[0..0 + |TurnMark()|] == TurnMark();
  }

  /** Without a bar there is no end mark. */
  lemma NoBar(t: string, p: nat)
    requires '|' !in t
    ensures !StandsAt(t, EndMark(), p)
  {
    Marks();
    assert p + |EndMark()| <= |t| ==> t[p..p + |EndMark()|][1] == t[p + 1];
  }

  lemma ReadReply(line: string, text: string)
    requires Lacks(line, "\n") && '|' !in text
    requires line + ("\n" + text) == Thinking() || line + ("\n" + text) == Silent()
    ensures Read(TurnMark() + (line + ("\n" + text))) == Reading([], line + ("\n" + text) == Thinking())
  {
    hide Find, Lacks, TurnMark, EndMark, FirstByteOnce, Thinking, Silent, Read;
    var body := line + ("\n" + text);
    Marks();
    FindBehind(line, "\n", text);
    NoBar(text, Find(text, EndMark(), 0));
    MarkInFront(body);
    assert body[|line| + 1..] == text;
    ReadUnfolds(TurnMark() + body, body, |line|, text, Find(text, EndMark(), 0));
  }

  lemma OneLine()
    ensures Lacks("assistant", "\n")
  {
    var line := "assistant";
    assert '\n' !in line;
    forall p: nat ensures !StandsAt(line, "\n", p) {
      assert p + 1 <= |line| ==> line[p..p + 1][0] == line[p];
    }
  }

  lemma Openings()
    ensures Thinking() == "assistant" + ("\n" + "<think>\n") && '|' !in "<think>\n"
    ensures Silent() == "assistant" + ("\n" + "<think>\n\n</think>\n\n") && '|' !in "<think>\n\n</think>\n\n"
    ensures |Thinking()| != |Silent()|
    ensures ReplyOpening(true) == TurnMark() + Thinking() && ReplyOpening(false) == TurnMark() + Silent()
  {}

  lemma ReadOpening(think: bool)
    ensures Read(ReplyOpening(think)) == Reading([], think)
  {
    hide Read, Thinking, Silent, ReplyOpening, TurnMark, Lacks;
    Openings();
    OneLine();
    if think {
      ReadReply("assistant", "<think>\n");
    } else {
      ReadReply("assistant", "<think>\n\n</think>\n\n");
    }
  }

  // ------------------------------------------------------------ whole prompts

  /** The message as it is rendered. */
  function Stripped(r: Rendering, m: Msg): Msg {
    Msg(r.strip(m.role), r.strip(m.content))
  }

  /** The turns a prompt should show: the system turn if there is anything to say in it,
      then the messages. */
  function Shown(r: Rendering, msgs: seq<Msg>): seq<Msg> {
    var leads := msgs != [] && msgs[0].role == "system";
    var given := if leads then r.strip(msgs[0].content) else "";
    var sys := if given != "" || r.bare then given else "You are a helpful assistant.";
    var said := if leads then msgs[1..] else msgs;
    (match r.tools
     case Offered(preamble) => [Msg("system", if sys == "" then preamble else preamble + ("\n\n" + sys))]
     case NoTools => if sys == "" then [] else [Msg("system", sys)])
    + seq(|said|, i requires 0 <= i < |said| => Stripped(r, said[i]))
  }

  function TurnsText(turns: seq<Msg>, rest: string): string {
    if turns == [] then rest else TurnText(turns[0], TurnsText(turns[1..], rest))
  }

  lemma {:induction false} ReadTurns(turns: seq<Msg>, think: bool)
    requires forall i :: 0 <= i < |turns| ==> Readable(turns[i])
    ensures Read(TurnsText(turns, ReplyOpening(think))) == Reading(turns, think)
  {
    hide Read, Readable, ReplyOpening, TurnText;
    if turns == [] {
      ReadOpening(think);
    } else {
      ReadTurns(turns[1..], think);
      ReadTurn(turns[0], TurnsText(turns[1..], ReplyOpening(think)));
      assert turns == [turns[0]] + turns[1..];
    }
  }

  function StrippedAll(r: Rendering, msgs: seq<Msg>): seq<Msg> {
    seq(|msgs|, i requires 0 <= i < |msgs| => Stripped(r, msgs[i]))
  }

  lemma SameMarks()
    ensures Opener() == TurnMark() && Closer() == EndMark()
    ensures SystemHead() == TurnMark() + ("system" + "\n") && DefaultSystem() == "You are a helpful assistant."
  {}

  lemma TurnSpelled(r: Rendering, m: Msg, rest: string)
    ensures Turn(r, m) + rest == TurnText(Stripped(r, m), rest)
  {
    hide Opener, Closer, TurnMark, EndMark;
    SameMarks();
    var a, b := r.strip(m.role), r.strip(m.content);
    assert (Opener() + (a + "\n" + b + Closer())) + rest == Opener() + (a + ("\n" + (b + (Closer() + rest))));
  }

  lemma {:induction false} TurnsSpelled(r: Rendering, msgs: seq<Msg>, rest: string)
    ensures Turns(r, msgs) + rest == TurnsText(StrippedAll(r, msgs), rest)
  {
    hide Turn, TurnText;
    if msgs == [] {
      assert "" + rest == rest;
    } else {
      TurnsSpelled(r, msgs[1..], rest);
      TurnSpelled(r, msgs[0], Turns(r, msgs[1..]) + rest);
      assert StrippedAll(r, msgs)[1..] == StrippedAll(r, msgs[1..]);
      assert (Turn(r, msgs[0]) + Turns(r, msgs[1..])) + rest == Turn(r, msgs[0]) + (Turns(r, msgs[1..]) + rest);
    }
  }

  /** The system block as a turn, or nothing. */
  function SystemTurn(tools: Tools, sys: string): seq<Msg> {
    match tools
    case Offered(preamble) => [Msg("system", if sys == "" then preamble else preamble + ("\n\n" + sys))]
    case NoTools => if sys == "" then [] else [Msg("system", sys)]
  }

  lemma BlockSpelled(tools: Tools, sys: string, rest: string)
    ensures Block(tools, sys) + rest == TurnsText(SystemTurn(tools, sys), rest)
  {
    hide SystemHead, Closer, TurnMark, EndMark;
    SameMarks();
    var turns := SystemTurn(tools, sys);
    if turns == [] {
      assert "" + rest == rest;
    } else {
      var c := turns[0].content;
      assert turns[1..] == [];
      SystemSpelled(c, rest);
      assert tools.Offered? && sys == "" ==> SystemHead() + c + "" == SystemHead() + c;
      assert tools.Offered? && sys != "" ==> SystemHead() + tools.preamble + ("\n\n" + sys) == SystemHead() + c;
    }
  }

  lemma SystemSpelled(c: string, rest: string)
    ensures (SystemHead() + c + Closer()) + rest == TurnText(Msg("system", c), rest)
  {
    hide SystemHead, Closer, TurnMark, EndMark;
    SameMarks();
    var x := "system";
    assert ((TurnMark() + (x + "\n")) + c + EndMark()) + rest == TurnMark() + (x + ("\n" + (c + (EndMark() + rest))));
  }

  lemma {:induction false} TurnsTextConcat(a: seq<Msg>, b: seq<Msg>, rest: string)
    ensures TurnsText(a + b, rest) == TurnsText(a, TurnsText(b, rest))
  {
    hide TurnText;
    if a == [] {
      assert a + b == b;
    } else {
      assert (a + b)[1..] == a[1..] + b;
      TurnsTextConcat(a[1..], b, rest);
    }
  }

  /** A prompt whose shown turns hold no marks of their own reads back as exactly these
      turns, in order, and as the way the reply was opened. */
  lemma PromptReads(r: Rendering, msgs: seq<Msg>, think: bool)
    requires forall i :: 0 <= i < |Shown(r, msgs)| ==> Readable(Shown(r, msgs)[i])
    ensures Read(Prompt(r, msgs, think)) == Reading(Shown(r, msgs), think)
  {
    hide Read, Readable, ReplyOpening, Turns, Block, TurnsText, StrippedAll, DefaultSystem;
    var ro := ReplyOpening(think);
    var block, turns := SystemTurn(r.tools, SystemText(r, msgs)), StrippedAll(r, Said(msgs));
    SameMarks();
    ShownIs(r, msgs);
    PromptIs(r, msgs, think);
    BlockSpelled(r.tools, SystemText(r, msgs), Turns(r, Said(msgs)) + ro);
    TurnsSpelled(r, Said(msgs), ro);
    TurnsTextConcat(block, turns, ro);
    ReadTurns(Shown(r, msgs), think);
    var a, b := Block(r.tools, SystemText(r, msgs)), Turns(r, Said(msgs));
    assert (a + b) + ro == a + (b + ro);
  }

  lemma ShownIs(r: Rendering, msgs: seq<Msg>)
    ensures Shown(r, msgs) == SystemTurn(r.tools, SystemText(r, msgs)) + StrippedAll(r, Said(msgs))
  {
    hide DefaultSystem, SystemHead;
    SameMarks();
  }
}
