/** What a mask promises about the language of calls, without any simulation: which
    tokens may follow a call in progress, and when the closer is due. */
module MaskLanguage {
  import opened ToolGrammar
  import opened GrammarState
  import opened GrammarLexemes
  import opened GrammarLanguage
  import opened GrammarLiveness

  /** `w` may come next in the call `g` has read so far: it leads on to something that
      closes the call, or the call closes inside it. */
  ghost predicate Continues(g: Config, w: string) {
    (exists v :: Closes(g, w + v)) || (exists k: nat :: k <= |w| && Closes(g, w[..k]))
  }

  /** The object of the call is complete: what still closes it holds no brace. */
  ghost predicate Complete(g: Config) {
    exists v :: '}' !in v && Closes(g, v)
  }

  /** The same of the call text itself, from its first byte on. */
  ghost predicate CallContinues(names: seq<string>, u: string, w: string) {
    (exists v :: IsToolCall(names, u + (w + v))) || (exists k: nat :: k <= |w| && IsToolCall(names, u + w[..k]))
  }

  ghost predicate CallComplete(names: seq<string>, u: string) {
    exists v :: '}' !in v && IsToolCall(names, u + v)
  }

  // ------------------------------------------------------- closing and staying closed

  lemma {:induction false} ClosedStays(g: Config, w: string)
    requires g.IsClosed()
    ensures Run(g, w).IsClosed()
    decreases |w|
  {
    hide JsonAct;
    if w != "" { ClosedStays(Advance(g, w[0]), w[1..]); }
  }

  /** A run that ends closed closed for the first time somewhere. */
  lemma {:induction false} FirstClose(g: Config, w: string) returns (k: nat)
    requires Run(g, w).IsClosed()
    ensures k <= |w| && Closes(g, w[..k])
    decreases |w|
  {
    hide Advance;
    if g.IsClosed() {
      k := 0;
    } else {
      var j := FirstClose(Advance(g, w[0]), w[1..]);
      k := j + 1;
      assert w[..k] == [w[0]] + w[1..][..j];
      Feed(g, w[0], w[1..][..j]);
    }
  }

  lemma {:induction false} ClosesBehind(g: Config, u: string, x: string)
    requires !Run(g, u).IsClosed()
    ensures Closes(g, u + x) == Closes(Run(g, u), x)
    decreases |u|
  {
    hide Advance, Closes;
    if u == "" {
      assert u + x == x;
    } else {
      if g.IsClosed() { ClosedStays(g, u); }
      assert u + x == [u[0]] + (u[1..] + x);
      Feed(g, u[0], u[1..] + x);
      ClosesBehind(Advance(g, u[0]), u[1..], x);
    }
  }

  // ------------------------------------------------- which tokens lead to a close

  /** What leads on is accepted byte by byte, from every state. */
  lemma ContinuesAccepted(g: Config, w: string)
    requires Continues(g, w)
    ensures !Run(g, w).dead
  {
    hide Advance, Closes, Run, Config.IsClosed;
    if exists v :: Closes(g, w + v) {
      var v :| Closes(g, w + v);
      ClosesIsFirst(g, w + v);
      RunConcat(g, w, v);
      ClosedIsLive(Run(g, w + v));
      if Run(g, w).dead { DeadStays(Run(g, w), v); }
    } else {
      var k: nat :| k <= |w| && Closes(g, w[..k]);
      ClosesIsFirst(g, w[..k]);
      assert w == w[..k] + w[k..];
      RunConcat(g, w[..k], w[k..]);
      ClosedStays(Run(g, w[..k]), w[k..]);
      ClosedIsLive(Run(g, w));
    }
  }

  lemma ClosedIsLive(g: Config)
    requires g.IsClosed()
    ensures !g.dead
  {}

  /** What is accepted leads on, if the names can be finished. */
  lemma AcceptedContinues(g: Config, w: string)
    requires Inv(g) && Finishable(g.names) && !Run(g, w).dead
    ensures Continues(g, w)
  {
    hide Advance, Closes, Run, Config.IsClosed, Inv, Finishable;
    RunKeeps(g, w);
    var v := CanFinish(Run(g, w));
    ClosesIsFirst(Run(g, w), v);
    RunConcat(g, w, v);
    var k := FirstClose(g, w + v);
    if k <= |w| {
      assert (w + v)[..k] == w[..k];
    } else {
      assert (w + v)[..k] == w + v[..k - |w|];
    }
  }

  lemma LiveTokenContinues(g: Config, w: string)
    requires Inv(g) && Finishable(g.names)
    ensures !Run(g, w).dead <==> Continues(g, w)
  {
    hide Run, Continues, Inv, Finishable;
    if !Run(g, w).dead { AcceptedContinues(g, w); }
    if Continues(g, w) { ContinuesAccepted(g, w); }
  }

  /** Over all live states of a call accepting is leading on, if and only if the names
      can be finished. */
  lemma AcceptingLeadsOnExactly(names: seq<string>, litWord: string)
    ensures Finishable(names) <==>
            forall u, w :: !Run(Init(names, litWord), u).dead ==> LeadsOn(Run(Init(names, litWord), u), w)
  {
    hide Run, Continues, Finishable, Inv;
    var g := Init(names, litWord);
    if Finishable(names) {
      forall u, w | !Run(g, u).dead ensures LeadsOn(Run(g, u), w) {
        InitInv(names, litWord);
        RunKeeps(g, u);
        LiveTokenContinues(Run(g, u), w);
      }
    } else {
      var w := StuckName(names, litWord);
      Stuck(g, w);
      RunNil(g);
      assert !LeadsOn(Run(g, ""), w);
    }
  }

  ghost predicate LeadsOn(g: Config, w: string) {
    !Run(g, w).dead <==> Continues(g, w)
  }

  lemma Stuck(g: Config, w: string)
    requires !g.dead && forall v :: !Closes(Run(g, w), v)
    ensures !Continues(g, w)
  {
    hide Advance, Closes, Run, Config.IsClosed;
    if Run(g, w).IsClosed() {
      ClosedCloses(Run(g, w), "");
    } else {
      forall v ensures !Closes(g, w + v) { ClosesBehind(g, w, v); }
      forall k: nat | k <= |w| ensures !Closes(g, w[..k]) {
        if Closes(g, w[..k]) {
          ClosesIsFirst(g, w[..k]);
          assert w == w[..k] + w[k..];
          RunConcat(g, w[..k], w[k..]);
          ClosedStays(Run(g, w[..k]), w[k..]);
        }
      }
    }
  }

  // --------------------------------------------------------- when the closer is due

  /** Outside the last three states only a brace leads to them. */
  lemma OnlyBraceCompletes(g: Config, c: char)
    requires !g.dead && !g.IsDone() && c != '}'
    ensures !Advance(g, c).IsDone()
  {
    if !FrameState(g.st) {
      JsonActShape(g.st, g.Top(), c);
      JsonDone(g, JsonAct(g.st, g.Top(), c));
    }
  }

  lemma JsonDone(g: Config, a: Act)
    requires a.Goto? || a.Refuse? || a.Open? ==> !FrameState(a.s)
    requires a.Begin? ==> a.s == JLit
    requires a.Goto? || a.Refuse? || a.Open? || a.Shut? || a.Begin?
    requires !FrameState(g.st)
    ensures !Apply(g, a).IsDone()
  {}

  lemma {:induction false} CompleteIsDone(g: Config, v: string)
    requires '}' !in v && Closes(g, v)
    ensures g.IsDone()
    decreases |v|
  {
    hide Advance;
    if !g.IsDone() {
      var c, rest := First(g, v);
      CompleteIsDone(Advance(g, c), rest);
      if !g.dead { OnlyBraceCompletes(g, c); } else { DeadStays(g, v); }
    }
  }

  lemma DoneIsComplete(g: Config)
    requires Inv(g) && g.IsDone()
    ensures Complete(g)
  {
    hide Advance, Closes;
    if g.st == Closed {
      ClosedCloses(g, "");
    } else if g.st == ToolGrammar.Done {
      CloserCloses(g);
    } else {
      assert g.litWord[g.lit..] + "" == g.litWord[g.lit..];
      FeedWord(g, "");
      ClosedCloses(WordOver(g), "");
    }
  }

  lemma CloserCloses(g: Config)
    requires g.st == ToolGrammar.Done && !g.dead
    ensures Closes(g, CLOSER)
  {
    hide Advance, Closes;
    var h := g.(litWord := CLOSER, lit := 1, st := Closer);
    CloserBegins(g);
    Feed(g, '<', CLOSER[1..]);
    assert CLOSER == ['<'] + CLOSER[1..] && CLOSER[1..] + "" == CLOSER[1..];
    FeedWord(h, "");
    ClosedCloses(WordOver(h), "");
  }

  lemma CloserBegins(g: Config)
    requires g.st == ToolGrammar.Done && !g.dead
    ensures Advance(g, '<') == g.(litWord := CLOSER, lit := 1, st := Closer)
  {
    hide JsonAct;
  }

  /** The machine is done exactly when no brace is missing any more. */
  lemma DoneExactly(g: Config)
    requires Inv(g)
    ensures g.IsDone() <==> Complete(g)
  {
    hide Inv, Closes, Config.IsDone;
    if g.IsDone() { DoneIsComplete(g); }
    if Complete(g) {
      var v :| '}' !in v && Closes(g, v);
      CompleteIsDone(g, v);
    }
  }

  // ---------------------------------------------------- the same of the call text

  /** For a call in progress both say the same of the text read so far. */
  lemma CallInProgress(names: seq<string>, litWord: string, u: string, w: string)
    requires !Run(Init(names, litWord), u).IsClosed()
    ensures var g := Run(Init(names, litWord), u);
      && (Continues(g, w) <==> CallContinues(names, u, w))
      && (Complete(g) <==> CallComplete(names, u))
  {
    hide Run, Closes, IsToolCall, Config.IsClosed;
    var g0 := Init(names, litWord);
    forall x ensures Closes(Run(g0, u), x) <==> IsToolCall(names, u + x) {
      ClosesBehind(g0, u, x);
      ClosesExactlyOnToolCalls(names, litWord, u + x);
    }
  }
}
