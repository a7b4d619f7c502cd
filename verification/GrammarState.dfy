/** Which fields of a grammar configuration still matter in each state.

    Two configurations that agree on those fields accept the same bytes for ever;
    the rest is left over from earlier states. */
module GrammarState {
  import opened Json
  import opened ToolGrammar

  /** States up to and including the tool name, where the registered names count. */
  predicate Early(s: St) {
    s == WsObjOpen || s == KeyOpenQ || s == KeyName || s == KeyColon || s == NameOpenQ || s == NameVal
  }

  ghost predicate SameMembers(a: seq<string>, b: seq<string>) {
    forall n :: n in a <==> n in b
  }

  /** `a` and `b` differ at most in fields that no transition reads any more. */
  ghost predicate SameLive(a: Config, b: Config) {
    && a.st == b.st && a.stack == b.stack && a.dead == b.dead
    && (a.st == KeyName || a.st == ArgKey || a.st == JLit || a.st == Closer ==> a.lit == b.lit)
    && (a.st == JLit || a.st == Closer ==> a.litWord == b.litWord)
    && (a.st == NameVal ==> a.namePref == b.namePref)
    && (Early(a.st) ==> SameMembers(a.names, b.names))
  }

  lemma PrefixOfSomeSame(p: string, a: seq<string>, b: seq<string>)
    requires SameMembers(a, b)
    ensures PrefixOfSome(p, a) == PrefixOfSome(p, b)
  {
    if PrefixOfSome(p, a) {
      var i :| 0 <= i < |a| && p <= a[i];
      assert a[i] in b;
    }
    if PrefixOfSome(p, b) {
      var i :| 0 <= i < |b| && p <= b[i];
      assert b[i] in a;
    }
  }

  /** JSON states only ever lead to JSON states, a literal word or the end of the call. */
  lemma JsonActShape(st: St, top: char, c: char)
    requires !FrameState(st)
    ensures var a := JsonAct(st, top, c);
      match a
      case Goto(s) => !FrameState(s)
      case Refuse(s) => !FrameState(s)
      case Open(b, s) => (b == '{' && s == JKey) || (b == '[' && s == JValue)
      case Shut => top == '{' || top == '['
      case Begin(w, s) => s == JLit && (w == "true" || w == "false" || w == "null")
      case _ => false
  {}

  /** Literal progress is only carried where it stays meaningful. */
  ghost predicate FrameShape(st: St, a: Act) {
    match a
    case Goto(s) => s == st || !(s == KeyName || s == ArgKey || s == JLit || s == Closer || s == NameVal)
    case Refuse(s) => s == st
    case Begin(w, s) => s == Closer
    case Tick(s) => (s == st && (s == KeyName || s == ArgKey || s == JLit || s == Closer)) || (st == JLit && s == JAfterVal) || (st == Closer && s == Closed)
    case Restart(s) => s == KeyName || s == ArgKey
    case NewName(s) => s == NameVal
    case Grow(c) => st == NameVal
    case _ => false
  }

  lemma FrameActShape(g: Config, c: char)
    requires FrameState(g.st)
    ensures FrameShape(g.st, FrameAct(g, c))
    ensures !Early(g.st) ==> (FrameAct(g, c).Goto? || FrameAct(g, c).Restart? || FrameAct(g, c).Tick?) ==> !Early(FrameAct(g, c).s)
    ensures g.st == ArgKeyOpenQ && FrameAct(g, c).Restart? ==> FrameAct(g, c).s == ArgKey
  {}

  lemma SameFrameAct(a: Config, b: Config, c: char)
    requires SameLive(a, b) && FrameState(a.st)
    ensures FrameAct(a, c) == FrameAct(b, c)
  {
    if a.st == NameVal { PrefixOfSomeSame(a.namePref + [c], a.names, b.names); }
  }

  lemma SameLiveFrame(a: Config, b: Config, c: char)
    requires SameLive(a, b) && !a.dead && FrameState(a.st)
    ensures SameLive(Apply(a, FrameAct(a, c)), Apply(b, FrameAct(b, c)))
  {
    SameFrameAct(a, b, c);
    FrameActShape(a, c);
    SameLiveShaped(a, b, FrameAct(a, c));
  }

  lemma SameLiveShaped(a: Config, b: Config, act: Act)
    requires SameLive(a, b) && FrameShape(a.st, act)
    requires !Early(a.st) && (act.Goto? || act.Restart? || act.Tick?) ==> !Early(act.s)
    requires !Early(a.st) ==> !act.NewName?
    ensures SameLive(Apply(a, act), Apply(b, act))
  {}

  lemma SameLiveAdvance(a: Config, b: Config, c: char)
    requires SameLive(a, b)
    ensures SameLive(Advance(a, c), Advance(b, c))
  {
    if a.dead {
    } else if FrameState(a.st) {
      SameLiveFrame(a, b, c);
    } else {
      JsonActShape(a.st, a.Top(), c);
      SameLiveJson(a, b, JsonAct(a.st, a.Top(), c));
    }
  }

  lemma SameLiveJson(a: Config, b: Config, act: Act)
    requires SameLive(a, b) && !FrameState(a.st)
    requires act.Goto? || act.Refuse? || act.Open? ==> !FrameState(act.s)
    requires act.Begin? ==> act.s == JLit
    requires act.Goto? || act.Refuse? || act.Open? || act.Shut? || act.Begin?
    ensures SameLive(Apply(a, act), Apply(b, act))
  {}

  lemma {:induction false} SameLiveRun(a: Config, b: Config, w: string)
    requires SameLive(a, b)
    ensures SameLive(Run(a, w), Run(b, w))
    decreases |w|
  {
    if w != "" {
      SameLiveAdvance(a, b, w[0]);
      SameLiveRun(Advance(a, w[0]), Advance(b, w[0]), w[1..]);
    }
  }

  lemma {:induction false} SameLiveCloses(a: Config, b: Config, w: string)
    requires SameLive(a, b)
    ensures Closes(a, w) == Closes(b, w)
    decreases |w|
  {
    if w != "" && !a.IsClosed() {
      SameLiveAdvance(a, b, w[0]);
      SameLiveCloses(Advance(a, w[0]), Advance(b, w[0]), w[1..]);
    }
  }

  lemma {:induction false} DeadStays(g: Config, w: string)
    requires g.dead
    ensures Run(g, w) == g && !Closes(g, w)
    decreases |w|
  {
    if w != "" { DeadStays(g, w[1..]); }
  }

  lemma {:induction false} RunConcat(g: Config, v: string, w: string)
    ensures Run(g, v + w) == Run(Run(g, v), w)
    decreases |v|
  {
    if v == "" {
      assert v + w == w;
    } else {
      assert (v + w)[1..] == v[1..] + w;
      RunConcat(Advance(g, v[0]), v[1..], w);
    }
  }

  /** `Closes` says what it is meant to: the run ends closed and was not closed before. */
  lemma {:induction false} ClosesIsFirst(g: Config, w: string)
    ensures Closes(g, w) <==> Run(g, w).IsClosed() && forall k :: 0 <= k < |w| ==> !Run(g, w[..k]).IsClosed()
    decreases |w|
  {
    if w == "" {
    } else {
      var h := Advance(g, w[0]);
      ClosesIsFirst(h, w[1..]);
      forall k | 0 < k <= |w| ensures Run(g, w[..k]) == Run(h, w[1..][..k - 1]) {
        assert w[..k][1..] == w[1..][..k - 1];
      }
      assert Run(g, w[..0]) == g;
      if g.IsClosed() {
        assert !(forall k :: 0 <= k < |w| ==> !Run(g, w[..k]).IsClosed());
      } else {
        assert w[..|w|] == w;
        forall k | 0 <= k < |w| - 1 ensures Run(h, w[1..][..k]) == Run(g, w[..k + 1]) {}
      }
    }
  }
}
