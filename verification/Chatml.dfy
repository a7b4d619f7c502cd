/** Conversations as ChatML.
    Every cached cut stands right before a turn opener. */
module Chatml {
  import opened ByteSymbols
  import opened Tokenizer
  import opened TokenizerLaws

  datatype Msg = Msg(role: string, content: string)
  datatype Tools = NoTools | Offered(preamble: string)

  function Opener(): string { "<|im_start|>" }
  function Closer(): string { "<|im_end|>\n" }
  function SystemHead(): string { "<|im_start|>system\n" }
  function DefaultSystem(): string { "You are a helpful assistant." }

  lemma FixedTexts()
    ensures AllBytes(Opener()) && AllBytes(Closer()) && AllBytes(SystemHead()) && AllBytes(DefaultSystem())
    ensures Opener() != "" && Opener()[0] == '<' && SystemHead() != "" && DefaultSystem() != ""
  {}

  /** What does not change between two renderings: how control text is stripped, the
      tools on offer, whether the default system text is switched off. */
  datatype Rendering = Rendering(strip: string -> string, tools: Tools, bare: bool)

  ghost predicate RendersBytes(r: Rendering) {
    (forall s :: AllBytes(r.strip(s))) && (r.tools.Offered? ==> AllBytes(r.tools.preamble))
  }

  predicate LeadsWithSystem(msgs: seq<Msg>) {
    msgs != [] && msgs[0].role == "system"
  }

  function SystemText(r: Rendering, msgs: seq<Msg>): string {
    var sys := if LeadsWithSystem(msgs) then r.strip(msgs[0].content) else "";
    if sys == "" && !r.bare then DefaultSystem() else sys
  }

  function Block(tools: Tools, sys: string): string {
    match tools
    case Offered(pre) => SystemHead() + pre + (if sys == "" then "" else "\n\n" + sys) + Closer()
    case NoTools => if sys == "" then "" else SystemHead() + sys + Closer()
  }

  function SystemBlock(r: Rendering, msgs: seq<Msg>): string {
    Block(r.tools, SystemText(r, msgs))
  }

  function Turn(r: Rendering, m: Msg): string {
    Opener() + (r.strip(m.role) + "\n" + r.strip(m.content) + Closer())
  }

  function Turns(r: Rendering, msgs: seq<Msg>): string {
    if msgs == [] then "" else Turn(r, msgs[0]) + Turns(r, msgs[1..])
  }

  function Said(msgs: seq<Msg>): seq<Msg> {
    if LeadsWithSystem(msgs) then msgs[1..] else msgs
  }

  /** Everything before the reply is opened. */
  function StableText(r: Rendering, msgs: seq<Msg>): string {
    SystemBlock(r, msgs) + Turns(r, Said(msgs))
  }

  function ReplyOpening(think: bool): string {
    Opener() + ("assistant\n" + if think then "<think>\n" else "<think>\n\n</think>\n\n")
  }

  function Prompt(r: Rendering, msgs: seq<Msg>, think: bool): string {
    StableText(r, msgs) + ReplyOpening(think)
  }

  /** `chatml_prompt` with both offsets. */
  method ChatmlPrompt(r: Rendering, msgs: seq<Msg>, think: bool) returns (p: string, stableOff: nat, sysOff: nat)
    ensures p == Prompt(r, msgs, think)
    ensures stableOff <= |p| && p[..stableOff] == StableText(r, msgs)
    ensures sysOff <= stableOff && p[..sysOff] == SystemBlock(r, msgs)
    ensures sysOff == 0 <==> r.tools.NoTools? && SystemText(r, msgs) == ""
  {
    hide Opener, Closer, SystemHead, DefaultSystem, Turn, Turns, ReplyOpening;
    FixedTexts();
    p := "";
    var start, sys := 0, "";
    if LeadsWithSystem(msgs) { sys, start := r.strip(msgs[0].content), 1; }
    if sys == "" && !r.bare { sys := DefaultSystem(); }
    if r.tools.Offered? {
      p := SystemHead() + r.tools.preamble;
      if sys != "" { p := p + ("\n\n" + sys); }
      p := p + Closer();
    } else if sys != "" {
      p := SystemHead() + sys + Closer();
    }
    BlockIs(r.tools, sys, p);
    sysOff := |p|;
    ghost var block := p;
    p := AppendTurns(r, p, msgs[start..]);
    stableOff := |p|;
    p := p + ReplyOpening(think);
  }

  lemma BlockIs(tools: Tools, sys: string, p: string)
    requires tools.NoTools? && sys != "" ==> p == SystemHead() + sys + Closer()
    requires tools.NoTools? && sys == "" ==> p == ""
    requires tools.Offered? && sys != "" ==> p == SystemHead() + tools.preamble + ("\n\n" + sys) + Closer()
    requires tools.Offered? && sys == "" ==> p == SystemHead() + tools.preamble + Closer()
    ensures p == Block(tools, sys)
  {
    hide SystemHead, Closer;
    match tools {
      case Offered(pre) => assert SystemHead() + pre + "" == SystemHead() + pre;
      case NoTools =>
    }
  }

  method AppendTurns(r: Rendering, block: string, msgs: seq<Msg>) returns (p: string)
    ensures p == block + Turns(r, msgs)
  {
    hide Opener, Closer, Turn;
    p := block;
    var i := 0;
    assert msgs[0..] == msgs;
    while i < |msgs|
      invariant i <= |msgs| && p + Turns(r, msgs[i..]) == block + Turns(r, msgs)
    {
      TurnIs(r, msgs[i]);
      assert msgs[i..][1..] == msgs[i + 1..];
      var turn := Opener() + (r.strip(msgs[i].role) + "\n" + r.strip(msgs[i].content) + Closer());
      assert p + (turn + Turns(r, msgs[i + 1..])) == (p + turn) + Turns(r, msgs[i + 1..]);
      p := p + turn;
      i := i + 1;
    }
    assert msgs[i..] == [];
  }

  lemma TurnIs(r: Rendering, m: Msg)
    ensures Turn(r, m) == Opener() + (r.strip(m.role) + "\n" + r.strip(m.content) + Closer())
  {}

  // ---------------------------------------------------- where prompts are cut

  ghost predicate CanCut(v: Vocab) {
    && NonEmpty(v.specials) && AngleAtFrontOnly(v.specials)
    && exists k :: 0 <= k < |v.specials| && v.specials[k].text == Opener()
  }

  /** Text up to a turn opener encodes to a prefix of the tokens of the whole. */
  lemma CutAtOpener(v: Vocab, a: string, b: string)
    requires CanCut(v) && AllBytes(a) && AllBytes(b) && Opener() <= b
    ensures AllBytes(a + b) && Encode(v, a + b) == Encode(v, a) + Encode(v, b)
    ensures Encode(v, a) <= Encode(v, a + b)
  {
    hide Encode, MatchSpecial, AngleAtFrontOnly, Opener;
    FixedTexts();
    assert b == Opener() + b[|Opener()|..];
    SpecialMatches(v.specials, Opener(), b[|Opener()|..]);
    EncodeSplits(v, a, b);
  }

  lemma {:induction false} TurnsBytes(r: Rendering, msgs: seq<Msg>)
    requires RendersBytes(r)
    ensures AllBytes(Turns(r, msgs)) && (msgs != [] ==> Opener() <= Turns(r, msgs))
  {
    hide Opener;
    if msgs != [] {
      TurnsBytes(r, msgs[1..]);
      hide Turns, Turn;
      TurnBytes(r, msgs[0]);
      BytesConcat(Turn(r, msgs[0]), Turns(r, msgs[1..]));
      TurnsCons(r, msgs);
      var rest := Turns(r, msgs[1..]);
      assert (Turn(r, msgs[0]) + rest)[..|Opener()|] == Opener();
    }
  }

  lemma TurnsCons(r: Rendering, msgs: seq<Msg>)
    requires msgs != []
    ensures Turns(r, msgs) == Turn(r, msgs[0]) + Turns(r, msgs[1..])
  {}

  lemma TurnBytes(r: Rendering, m: Msg)
    requires RendersBytes(r)
    ensures AllBytes(Turn(r, m)) && Opener() <= Turn(r, m)
  {
    hide Opener, Closer;
    FixedTexts();
    BytesConcat(r.strip(m.role), "\n");
    BytesConcat(r.strip(m.role) + "\n", r.strip(m.content));
    BytesConcat(r.strip(m.role) + "\n" + r.strip(m.content), Closer());
    BytesConcat(Opener(), r.strip(m.role) + "\n" + r.strip(m.content) + Closer());
  }

  lemma BlockBytes(r: Rendering, msgs: seq<Msg>)
    requires RendersBytes(r)
    ensures AllBytes(SystemBlock(r, msgs))
  {
    hide SystemHead, Closer, DefaultSystem;
    FixedTexts();
    var sys := SystemText(r, msgs);
    assert AllBytes(sys);
    if r.tools.Offered? {
      var pre := r.tools.preamble;
      BytesConcat("\n\n", sys);
      var tail := if sys == "" then "" else "\n\n" + sys;
      BytesConcat(SystemHead(), pre);
      BytesConcat(SystemHead() + pre, tail);
      BytesConcat(SystemHead() + pre + tail, Closer());
    } else {
      BytesConcat(SystemHead(), sys);
      BytesConcat(SystemHead() + sys, Closer());
    }
  }

  lemma ReplyBytes(think: bool)
    ensures AllBytes(ReplyOpening(think)) && Opener() <= ReplyOpening(think)
  {}

  lemma {:induction false} TurnsAppend(r: Rendering, a: seq<Msg>, b: seq<Msg>)
    ensures Turns(r, a + b) == Turns(r, a) + Turns(r, b)
  {
    if a == [] {
      assert a + b == b;
    } else {
      assert (a + b)[1..] == a[1..] + b;
      TurnsAppend(r, a[1..], b);
      assert Turn(r, a[0]) + (Turns(r, a[1..]) + Turns(r, b)) == (Turn(r, a[0]) + Turns(r, a[1..])) + Turns(r, b);
    }
  }

  /** The added turns do not become the system message. */
  predicate OnlyTurns(msgs: seq<Msg>, more: seq<Msg>) {
    msgs != [] || !LeadsWithSystem(more)
  }

  lemma StableAppend(r: Rendering, msgs: seq<Msg>, more: seq<Msg>)
    requires OnlyTurns(msgs, more)
    ensures StableText(r, msgs + more) == StableText(r, msgs) + Turns(r, more)
  {
    hide Turns, Block, DefaultSystem;
    assert LeadsWithSystem(msgs + more) == LeadsWithSystem(msgs);
    assert Said(msgs + more) == Said(msgs) + more;
    assert SystemBlock(r, msgs + more) == SystemBlock(r, msgs) by {
      assert LeadsWithSystem(msgs) ==> (msgs + more)[0] == msgs[0];
    }
    TurnsAppend(r, Said(msgs), more);
  }

  /** What follows the stable text of `msgs` in the prompt with `more` turns. */
  function Follows(r: Rendering, more: seq<Msg>, think: bool): string {
    Turns(r, more) + ReplyOpening(think)
  }

  lemma FollowsBytes(r: Rendering, more: seq<Msg>, think: bool)
    requires RendersBytes(r)
    ensures AllBytes(Follows(r, more, think)) && Opener() <= Follows(r, more, think)
  {
    hide Turns, ReplyOpening, Opener;
    TurnsBytes(r, more);
    ReplyBytes(think);
    BytesConcat(Turns(r, more), ReplyOpening(think));
    if more == [] {
      NoTurns(r);
      assert Follows(r, more, think) == ReplyOpening(think);
    } else {
      assert (Turns(r, more) + ReplyOpening(think))[..|Opener()|] == Turns(r, more)[..|Opener()|] == Opener();
    }
  }

  lemma NoTurns(r: Rendering)
    ensures Turns(r, []) == ""
  {}

  lemma StableBytes(r: Rendering, msgs: seq<Msg>)
    requires RendersBytes(r)
    ensures AllBytes(StableText(r, msgs))
  {
    hide SystemBlock, Turns, RendersBytes;
    BlockBytes(r, msgs);
    TurnsBytes(r, Said(msgs));
    BytesConcat(SystemBlock(r, msgs), Turns(r, Said(msgs)));
  }

  lemma Regrouped(a: string, r: Rendering, more: seq<Msg>, think: bool)
    ensures (a + Turns(r, more)) + ReplyOpening(think) == a + Follows(r, more, think)
  {
    hide Turns, ReplyOpening;
  }

  lemma PromptIs(r: Rendering, msgs: seq<Msg>, think: bool)
    ensures Prompt(r, msgs, think) == (SystemBlock(r, msgs) + Turns(r, Said(msgs))) + ReplyOpening(think)
    ensures Prompt(r, msgs, think) == StableText(r, msgs) + ReplyOpening(think)
  {
    hide SystemBlock, Turns, ReplyOpening;
  }

  /** The tokens up to the stable offset stay a prefix whatever turns are appended, and
      whether or not either prompt asks for thinking. */
  lemma StableTokensStay(v: Vocab, r: Rendering, msgs: seq<Msg>, more: seq<Msg>, think: bool)
    requires CanCut(v) && RendersBytes(r) && OnlyTurns(msgs, more)
    ensures AllBytes(StableText(r, msgs)) && AllBytes(Prompt(r, msgs + more, think))
    ensures StableText(r, msgs) <= Prompt(r, msgs + more, think)
    ensures Encode(v, StableText(r, msgs)) <= Encode(v, Prompt(r, msgs + more, think))
  {
    hide Encode, StableText, Turns, ReplyOpening, CanCut, RendersBytes, OnlyTurns, AllBytes, Opener, Follows, Prompt;
    StableBytes(r, msgs);
    FollowsBytes(r, more, think);
    StableAppend(r, msgs, more);
    Regrouped(StableText(r, msgs), r, more, think);
    PromptIs(r, msgs + more, think);
    CutAtOpener(v, StableText(r, msgs), Follows(r, more, think));
  }

  /** The tokens up to the system offset are shared by every conversation with the same
      system block. */
  lemma SystemTokensShared(v: Vocab, r: Rendering, msgs: seq<Msg>, think: bool)
    requires CanCut(v) && RendersBytes(r)
    ensures AllBytes(SystemBlock(r, msgs)) && AllBytes(Prompt(r, msgs, think))
    ensures SystemBlock(r, msgs) <= Prompt(r, msgs, think)
    ensures Encode(v, SystemBlock(r, msgs)) <= Encode(v, Prompt(r, msgs, think))
  {
    hide Encode, SystemBlock, Turns, ReplyOpening, CanCut, RendersBytes, AllBytes, Opener, Follows, Prompt;
    BlockBytes(r, msgs);
    FollowsBytes(r, Said(msgs), think);
    Regrouped(SystemBlock(r, msgs), r, Said(msgs), think);
    PromptIs(r, msgs, think);
    CutAtOpener(v, SystemBlock(r, msgs), Follows(r, Said(msgs), think));
  }

  // ------------------------------------------------------------ harness prefix

  datatype Harness = NotEndingInUser | NotInitial | Harness(prefix: string, full: string)

  predicate EndsInUser(msgs: seq<Msg>) {
    msgs != [] && msgs[|msgs| - 1].role == "user"
  }

  predicate AllSystem(msgs: seq<Msg>) {
    forall i :: 0 <= i < |msgs| ==> msgs[i].role == "system"
  }

  method InitialHarnessPrefix(r: Rendering, msgs: seq<Msg>, think: bool) returns (h: Harness)
    ensures h.NotEndingInUser? <==> !EndsInUser(msgs)
    ensures h.Harness? <==> EndsInUser(msgs) && AllSystem(msgs[..|msgs| - 1])
    ensures h.Harness? ==> h.prefix == StableText(r, msgs[..|msgs| - 1]) && h.full == Prompt(r, msgs, think)
  {
    if msgs == [] || msgs[|msgs| - 1].role != "user" { return NotEndingInUser; }
    var before := msgs[..|msgs| - 1];
    var i := 0;
    while i < |before|
      invariant i <= |before| && AllSystem(before[..i])
    {
      if before[i].role != "system" { return NotInitial; }
      assert before[..i + 1] == before[..i] + [before[i]];
      i := i + 1;
    }
    assert before[..i] == before;
    var full, _, _ := ChatmlPrompt(r, msgs, think);
    var prefix, stable, _ := ChatmlPrompt(r, before, think);
    h := Harness(prefix[..stable], full);
  }

  /** The prewarmed tokens are a prefix of the tokens of the request's own prompt. */
  lemma HarnessIsTokenPrefix(v: Vocab, r: Rendering, msgs: seq<Msg>, think: bool)
    requires CanCut(v) && RendersBytes(r) && EndsInUser(msgs)
    ensures var before := StableText(r, msgs[..|msgs| - 1]);
      && AllBytes(before) && AllBytes(Prompt(r, msgs, think))
      && Encode(v, before) <= Encode(v, Prompt(r, msgs, think))
  {
    hide Encode, CanCut, RendersBytes, StableText;
    var before, last := msgs[..|msgs| - 1], [msgs[|msgs| - 1]];
    assert before + last == msgs;
    StableTokensStay(v, r, before, last, think);
  }
}
