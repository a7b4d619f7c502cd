/** Drafting for several members at once, each coming out as if it had drafted alone. */
module DraftWidths {

  // The members still drafting share one step counter and are kept in a list that is
  // compacted as they leave.

  /** One member: what its suffix proposal would be, its drafting ceiling, and the margin
      each draft step would measure. */
  datatype Drafter = Drafter(sampled: bool, suffix: int, maxDrafts: nat, theta: real, margin: nat -> real)

  const SAMPLED_CEILING := 4

  function Ceiling(m: Drafter): nat {
    if m.sampled then SAMPLED_CEILING else m.maxDrafts
  }

  predicate TakesSuffix(m: Drafter) { !m.sampled && m.suffix > 0 }

  /** Drafts that passed, steps launched, and which steps, in order. */
  datatype Tally = Tally(passed: nat, launched: nat, log: seq<nat>)

  datatype Progress = Going(t: Tally) | Left(t: Tally, width: int)

  function Width(passed: nat): int { if passed + 1 < 2 then 2 else passed + 1 }

  /** Steps launched only so that a verify of this width has its drafts. */
  function TopUp(launched: nat, width: int, ceiling: nat): seq<nat>
    decreases width - launched
  {
    if launched < width && launched < ceiling then [launched] + TopUp(launched + 1, width, ceiling) else []
  }

  function Leave(m: Drafter, t: Tally): Progress {
    var w := Width(t.passed);
    Left(t.(log := t.log + TopUp(t.launched, w, Ceiling(m))), w)
  }

  // ------------------------------------------------------ drafting on its own

  /** How many drafts pass from step `k` on. */
  function Passed(m: Drafter, k: nat): (c: nat)
    requires k <= Ceiling(m)
    ensures k <= c <= Ceiling(m)
    ensures forall s :: k <= s < c ==> m.margin(s) >= m.theta
    ensures c == Ceiling(m) || m.margin(c) < m.theta
    decreases Ceiling(m) - k
  {
    if k == Ceiling(m) || m.margin(k) < m.theta then k else Passed(m, k + 1)
  }

  function Counting(n: nat): seq<nat> { seq(n, i => i) }

  /** What a member drafting alone ends with. */
  function Serial(m: Drafter): Progress {
    var c := Passed(m, 0);
    var launched := if c < Ceiling(m) then c + 1 else c;
    Leave(m, Tally(c, launched, Counting(launched)))
  }

  /** `draft_and_gate`. */
  method DraftAndGate(m: Drafter) returns (t: Tally, width: int)
    ensures Left(t, width) == Serial(m) && GatedAlone(m, t, width)
  {
    hide GatedAlone;
    t := Tally(0, 0, []);
    var k := 0;
    while k < Ceiling(m)
      invariant k <= Ceiling(m) && t == Tally(k, k, Counting(k)) && Passed(m, k) == Passed(m, 0)
    {
      t := Tally(t.passed, t.launched + 1, t.log + [k]);
      if m.margin(k) < m.theta { break; }
      t := t.(passed := t.passed + 1);
      k := k + 1;
    }
    assert t.log == Counting(t.launched);
    width := Width(t.passed);
    var extra := FloorTopUp(t.launched, width, Ceiling(m));
    t := t.(log := t.log + extra);
    SerialExactly(m, t, width);
  }

  /** What the gate promises a member drafting alone: drafts pass up to the first that falls
      below the threshold, that one is launched too; the width counts them and the token
      in front of them and is at least 2; the steps launched are the first ones, without
      a gap, and as many as the width needs if the ceiling allows. */
  ghost predicate GatedAlone(m: Drafter, t: Tally, width: int) {
    var top := if m.sampled then 4 else m.maxDrafts;
    var c, need := t.passed, if width < top then width else top;
    && c <= top && (forall s: nat :: s < c ==> m.margin(s) >= m.theta) && (c < top ==> m.margin(c) < m.theta)
    && t.launched == c + (if c < top then 1 else 0)
    && width == (if c == 0 then 2 else c + 1)
    && |t.log| == (if t.launched < need then need else t.launched)
    && forall i :: 0 <= i < |t.log| ==> t.log[i] == i
  }

  lemma {:induction false} TopUpIs(launched: nat, width: int, ceiling: nat)
    ensures var need := if width < ceiling then width else ceiling; var r := TopUp(launched, width, ceiling);
      |r| == (if launched < need then need - launched else 0) && forall i :: 0 <= i < |r| ==> r[i] == launched + i
    decreases width - launched
  {
    if launched < width && launched < ceiling { TopUpIs(launched + 1, width, ceiling); }
  }

  lemma GatedUnique(m: Drafter, t: Tally, w: int, u: Tally, x: int)
    requires GatedAlone(m, t, w) && GatedAlone(m, u, x)
    ensures t == u && w == x
  {
    assert t.passed == u.passed by {
      assert !(t.passed < u.passed) && !(u.passed < t.passed);
    }
    assert t.log == u.log;
  }

  /** The serial outcome is the one the gate promises, and the only one. */
  lemma SerialExactly(m: Drafter, t: Tally, width: int)
    ensures GatedAlone(m, t, width) <==> Left(t, width) == Serial(m)
  {
    var c := Passed(m, 0);
    var launched := if c < Ceiling(m) then c + 1 else c;
    TopUpIs(launched, Width(c), Ceiling(m));
    var r := Serial(m);
    assert GatedAlone(m, r.t, r.width);
    if GatedAlone(m, t, width) { GatedUnique(m, t, width, r.t, r.width); }
  }

  // --------------------------------------------------- drafting in the company

  /** One turn of the shared loop for one member. */
  function Step(m: Drafter, t: Tally, step: nat): Progress {
    var t1 := t.(launched := t.launched + 1, log := t.log + [step]);
    if m.margin(step) < m.theta then Leave(m, t1)
    else
      var t2 := t1.(passed := t1.passed + 1);
      if t2.passed == Ceiling(m) then Leave(m, t2) else Going(t2)
  }

  /** A member after `n` turns of the shared loop. */
  function After(m: Drafter, n: nat): Progress {
    if n == 0 then Going(Tally(0, 0, []))
    else
      match After(m, n - 1)
      case Going(t) => Step(m, t, n - 1)
      case Left(t, w) => Left(t, w)
  }

  lemma {:induction false} AfterIs(m: Drafter, n: nat)
    requires Ceiling(m) >= 1
    ensures var c := Passed(m, 0);
      After(m, n) ==
        if n <= c && n < Ceiling(m) then Going(Tally(n, n, Counting(n))) else Serial(m)
  {
    if n > 0 {
      AfterIs(m, n - 1);
      var c := Passed(m, 0);
      assert Counting(n - 1) + [n - 1] == Counting(n);
      assert n - 1 < c ==> m.margin(n - 1) >= m.theta;
    }
  }

  /** With a ceiling of at least 1 a member leaves the shared loop exactly as it would
      leave its own; with ceiling 0 it never does. */
  lemma SharedIsSerialExactly(m: Drafter)
    ensures (exists n :: After(m, n) == Serial(m)) <==> Ceiling(m) >= 1
  {
    if Ceiling(m) >= 1 {
      AfterIs(m, Ceiling(m));
      assert After(m, Ceiling(m)) == Serial(m);
    } else {
      forall n ensures After(m, n) != Serial(m) { ZeroCeiling(m, n); }
    }
  }

  lemma {:induction false} ZeroCeiling(m: Drafter, n: nat)
    requires Ceiling(m) == 0
    ensures After(m, n).t.launched <= n && (n > 0 ==> After(m, n).t.launched >= 1)
    ensures Serial(m).t.launched == 0
    ensures After(m, n) != Serial(m)
  {
    if n > 0 { ZeroCeiling(m, n - 1); }
  }

  /** The shared loop lets the member go: it has a ceiling to reach, or some step falls
      below the threshold. */
  ghost predicate Ends(m: Drafter) {
    Ceiling(m) >= 1 || exists k: nat :: Falls(m, k)
  }

  predicate Falls(m: Drafter, k: nat) { m.margin(k) < m.theta }

  /** A number of turns after which the member is gone. */
  ghost function Turns(m: Drafter): nat
    requires Ends(m)
  {
    if Ceiling(m) >= 1 then Ceiling(m)
    else
      var k: nat :| Falls(m, k);
      k + 1
  }

  /** What the shared loop leaves a member with. */
  ghost function Outcome(m: Drafter): Progress
    requires Ends(m)
  {
    After(m, Turns(m))
  }

  lemma {:induction false} LeftStays(m: Drafter, n: nat, k: nat)
    requires n <= k && After(m, n).Left?
    ensures After(m, k) == After(m, n)
    decreases k - n
  {
    if n < k { LeftStays(m, n, k - 1); }
  }

  lemma GoneAfterTurns(m: Drafter, n: nat)
    requires Ends(m)
    ensures Outcome(m).Left?
    ensures n >= Turns(m) ==> After(m, n) == Outcome(m)
    ensures After(m, n).Left? ==> After(m, n) == Outcome(m)
  {
    if Ceiling(m) >= 1 {
      AfterIs(m, Ceiling(m));
    } else {
      var k := Turns(m) - 1;
      assert Falls(m, k);
      assert After(m, k + 1).Left?;
    }
    if n >= Turns(m) { LeftStays(m, Turns(m), n); }
    if After(m, n).Left? && n < Turns(m) { LeftStays(m, n, Turns(m)); }
  }

  /** Cap, width and launch count are those of drafting alone exactly when the ceiling is
      at least 1. */
  lemma OutcomeIsSerialExactly(m: Drafter)
    requires Ends(m)
    ensures Ceiling(m) >= 1 ==> Outcome(m) == Serial(m)
    ensures Outcome(m).Left? && Serial(m).Left?
    ensures Ceiling(m) >= 1 <==>
      var a, b := Outcome(m), Serial(m);
      a.t.passed == b.t.passed && a.width == b.width && a.t.launched == b.t.launched
  {
    GoneAfterTurns(m, 0);
    if Ceiling(m) >= 1 { AfterIs(m, Turns(m)); } else { ZeroCeiling(m, Turns(m)); }
  }

  // ------------------------------------------------------------ the whole hook

  ghost predicate Gated(ms: seq<Drafter>, i: int) { 0 <= i < |ms| && !TakesSuffix(ms[i]) }

  /** The list of active members: gated, ascending, exactly those still going. */
  ghost predicate ActiveList(ms: seq<Drafter>, act: seq<int>, n: nat) {
    && (forall j :: 0 <= j < |act| ==> Gated(ms, act[j]) && After(ms[act[j]], n).Going?)
    && (forall i, j :: 0 <= i < j < |act| ==> act[i] < act[j])
    && forall i :: Gated(ms, i) && After(ms[i], n).Going? ==> i in act
  }

  ghost predicate AllEnd(ms: seq<Drafter>) {
    forall i :: 0 <= i < |ms| && !TakesSuffix(ms[i]) ==> Ends(ms[i])
  }

  ghost function MostTurns(ms: seq<Drafter>): (c: nat)
    ensures forall i :: 0 <= i < |ms| && Ends(ms[i]) ==> Turns(ms[i]) <= c
  {
    if ms == [] then 0
    else
      var r := MostTurns(ms[..|ms| - 1]);
      var m := ms[|ms| - 1];
      if Ends(m) && Turns(m) > r then Turns(m) else r
  }

  /** What the arrays hold for a member after `n` turns. */
  ghost predicate Holds(p: Progress, t: Tally, w: int) {
    match p
    case Going(t') => t == t'
    case Left(t', w') => t == t' && w == w'
  }

  /** After `n` turns every member is where it belongs. */
  ghost predicate Settled(ms: seq<Drafter>, n: nat, tally: seq<Tally>, want: seq<int>) {
    && |tally| == |want| == |ms|
    && forall i :: 0 <= i < |ms| ==>
      if TakesSuffix(ms[i]) then want[i] == ms[i].suffix else Holds(After(ms[i], n), tally[i], want[i])
  }

  lemma SettledAll(ms: seq<Drafter>, n: nat, tally: seq<Tally>, want: seq<int>)
    requires AllEnd(ms) && Settled(ms, n, tally, want) && ActiveList(ms, [], n)
    ensures forall i :: 0 <= i < |ms| ==>
      if TakesSuffix(ms[i]) then want[i] == ms[i].suffix else Left(tally[i], want[i]) == Outcome(ms[i])
  {
    forall i | 0 <= i < |ms| && !TakesSuffix(ms[i]) ensures Left(tally[i], want[i]) == Outcome(ms[i]) {
      assert Gated(ms, i);
      GoneAfterTurns(ms[i], n);
    }
  }

  /** `draft_widths`, with the check of every gated member at its end: the check holds
      exactly when no gated member has ceiling 0, and then all of them come out as if
      they had drafted alone. */
  method Draft(ms: seq<Drafter>) returns (want: array<int>, sfx: array<bool>, tally: array<Tally>, agree: bool)
    requires AllEnd(ms)
    ensures want.Length == sfx.Length == tally.Length == |ms|
    ensures forall i :: 0 <= i < |ms| ==> sfx[i] == TakesSuffix(ms[i])
    ensures forall i :: 0 <= i < |ms| && sfx[i] ==> want[i] == ms[i].suffix
    ensures forall i :: 0 <= i < |ms| && !sfx[i] ==> Left(tally[i], want[i]) == Outcome(ms[i])
    ensures forall i :: 0 <= i < |ms| && !sfx[i] && Ceiling(ms[i]) >= 1 ==> Left(tally[i], want[i]) == Serial(ms[i])
    ensures agree <==> forall i :: 0 <= i < |ms| && !sfx[i] ==> Ceiling(ms[i]) >= 1
  {
    var act := new int[|ms|];
    want, sfx := new int[|ms|], new bool[|ms|];
    tally := new Tally[|ms|](_ => Tally(0, 0, []));
    var na := Sort(ms, act, want, sfx);
    SettledFirst(ms, tally[..], want[..]);
    Steps(ms, act, na, want, tally);
    hide Outcome, Ends, Serial;
    agree := Agrees(ms, want, sfx, tally);
  }

  /** The check: every gated member against its own margins. */
  method Agrees(ms: seq<Drafter>, want: array<int>, sfx: array<bool>, tally: array<Tally>) returns (agree: bool)
    requires AllEnd(ms) && want.Length == sfx.Length == tally.Length == |ms|
    requires forall i :: 0 <= i < |ms| ==> sfx[i] == TakesSuffix(ms[i])
    requires forall i :: 0 <= i < |ms| && !sfx[i] ==> Ends(ms[i]) && Left(tally[i], want[i]) == Outcome(ms[i])
    ensures agree <==> forall i :: 0 <= i < |ms| && !sfx[i] ==> Ceiling(ms[i]) >= 1
    ensures forall i :: 0 <= i < |ms| && !sfx[i] && Ceiling(ms[i]) >= 1 ==> Left(tally[i], want[i]) == Serial(ms[i])
  {
    hide Outcome, Serial, Ends, TakesSuffix;
    agree := true;
    var i := 0;
    while i < |ms| && agree
      invariant i <= |ms|
      invariant agree <==> forall j :: 0 <= j < i && !sfx[j] ==> Ceiling(ms[j]) >= 1
    {
      if !sfx[i] {
        OutcomeIsSerialExactly(ms[i]);
        var cap, launched, w := Rederive(ms[i]);
        assert Outcome(ms[i]).t == tally[i] && Outcome(ms[i]).width == want[i];
        agree := cap == tally[i].passed && w == want[i] && launched == tally[i].launched;
      }
      i := i + 1;
    }
    forall j | 0 <= j < |ms| && !sfx[j] && Ceiling(ms[j]) >= 1 ensures Left(tally[j], want[j]) == Serial(ms[j]) {
      OutcomeIsSerialExactly(ms[j]);
    }
  }

  /** The serial arithmetic run again over the same margins. */
  method Rederive(m: Drafter) returns (cap: nat, launched: nat, width: int)
    ensures var r := Serial(m); r.Left? && cap == r.t.passed && launched == r.t.launched && width == r.width
  {
    cap, launched := 0, 0;
    while launched < Ceiling(m)
      invariant launched == cap <= Ceiling(m) && Passed(m, cap) == Passed(m, 0)
    {
      launched := launched + 1;
      if m.margin(cap) < m.theta { break; }
      cap := cap + 1;
    }
    width := Width(cap);
  }

  /** The loop over the step counter. */
  method Steps(ms: seq<Drafter>, act: array<int>, first: nat, want: array<int>, tally: array<Tally>)
    requires AllEnd(ms)
    requires act != want && act.Length == want.Length == tally.Length == |ms| && first <= |ms|
    requires ActiveList(ms, act[..first], 0) && Settled(ms, 0, tally[..], want[..])
    modifies act, want, tally
    ensures forall i :: 0 <= i < |ms| ==>
      if TakesSuffix(ms[i]) then want[i] == ms[i].suffix else Left(tally[i], want[i]) == Outcome(ms[i])
  {
    hide Settled, ActiveList, After, Outcome, Ends;
    var na, step := first, 0;
    while na > 0
      invariant 0 <= na <= |ms| && ActiveList(ms, act[..na], step) && Settled(ms, step, tally[..], want[..])
      decreases MostTurns(ms) - step
    {
      SomeGoing(ms, act[..na], step);
      na := Turn(ms, act, na, want, tally, step);
      step := step + 1;
    }
    assert act[..na] == [];
    SettledAll(ms, step, tally[..], want[..]);
  }

  lemma SettledFirst(ms: seq<Drafter>, tally: seq<Tally>, want: seq<int>)
    requires |tally| == |want| == |ms| && forall i :: 0 <= i < |ms| ==> tally[i] == Tally(0, 0, [])
    requires forall i :: 0 <= i < |ms| && TakesSuffix(ms[i]) ==> want[i] == ms[i].suffix
    ensures Settled(ms, 0, tally, want)
  {}

  /** Someone is still drafting, so the last one's turns are not over. */
  lemma SomeGoing(ms: seq<Drafter>, act: seq<int>, n: nat)
    requires ActiveList(ms, act, n) && act != [] && AllEnd(ms)
    ensures n < MostTurns(ms)
  {
    assert Gated(ms, act[0]);
    GoneAfterTurns(ms[act[0]], n);
  }

  ghost function GatedBelow(ms: seq<Drafter>, n: nat): seq<int>
    requires n <= |ms|
  {
    if n == 0 then []
    else GatedBelow(ms, n - 1) + if TakesSuffix(ms[n - 1]) then [] else [n - 1]
  }

  lemma {:induction false} GatedBelowIs(ms: seq<Drafter>, n: nat)
    requires n <= |ms|
    ensures forall i, j :: 0 <= i < j < |GatedBelow(ms, n)| ==> GatedBelow(ms, n)[i] < GatedBelow(ms, n)[j]
    ensures forall j :: 0 <= j < |GatedBelow(ms, n)| ==> GatedBelow(ms, n)[j] < n && Gated(ms, GatedBelow(ms, n)[j])
    ensures forall i :: i < n && Gated(ms, i) ==> i in GatedBelow(ms, n)
  {
    if n > 0 { GatedBelowIs(ms, n - 1); }
  }

  /** Before the first step: suffix proposals are taken, the others are listed. */
  method Sort(ms: seq<Drafter>, act: array<int>, want: array<int>, sfx: array<bool>) returns (na: nat)
    requires act != want && act.Length == want.Length == sfx.Length == |ms|
    modifies act, want, sfx
    ensures na <= |ms| && ActiveList(ms, act[..na], 0)
    ensures forall i :: 0 <= i < |ms| ==> sfx[i] == TakesSuffix(ms[i])
    ensures forall i :: 0 <= i < |ms| && sfx[i] ==> want[i] == ms[i].suffix
  {
    hide TakesSuffix;
    na := 0;
    for i := 0 to |ms|
      invariant 0 <= na <= i && act[..na] == GatedBelow(ms, i)
      invariant forall j :: 0 <= j < i ==> sfx[j] == TakesSuffix(ms[j])
      invariant forall j :: 0 <= j < i && sfx[j] ==> want[j] == ms[j].suffix
    {
      sfx[i] := TakesSuffix(ms[i]);
      if sfx[i] {
        want[i] := ms[i].suffix;
      } else {
        ghost var was := act[..na];
        act[na] := i;
        na := na + 1;
        assert act[..na] == was + [i];
      }
    }
    GatedBelowIs(ms, |ms|);
  }

  /** Those of the list that go on after `n` turns. */
  ghost function Kept(ms: seq<Drafter>, s: seq<int>, n: nat): (r: seq<int>)
    requires forall j :: 0 <= j < |s| ==> 0 <= s[j] < |ms|
    ensures |r| <= |s|
  {
    if s == [] then []
    else
      var last := s[|s| - 1];
      Kept(ms, s[..|s| - 1], n) + if After(ms[last], n).Going? then [last] else []
  }

  lemma {:induction false} KeptMembers(ms: seq<Drafter>, s: seq<int>, n: nat)
    requires forall j :: 0 <= j < |s| ==> 0 <= s[j] < |ms|
    requires forall i, j :: 0 <= i < j < |s| ==> s[i] < s[j]
    ensures forall i :: i in Kept(ms, s, n) <==> i in s && After(ms[i], n).Going?
    ensures forall i, j :: 0 <= i < j < |Kept(ms, s, n)| ==> Kept(ms, s, n)[i] < Kept(ms, s, n)[j]
  {
    hide After;
    if s != [] {
      var front, last := s[..|s| - 1], s[|s| - 1];
      KeptMembers(ms, front, n);
      assert s == front + [last];
      var kept := Kept(ms, front, n);
      forall j | 0 <= j < |kept| ensures kept[j] < last { assert kept[j] in kept; }
    }
  }

  lemma KeptIsActive(ms: seq<Drafter>, s: seq<int>, n: nat)
    requires ActiveList(ms, s, n)
    ensures ActiveList(ms, Kept(ms, s, n + 1), n + 1)
  {
    KeptMembers(ms, s, n + 1);
    var r := Kept(ms, s, n + 1);
    forall j | 0 <= j < |r| ensures Gated(ms, r[j]) && After(ms[r[j]], n + 1).Going? { assert r[j] in r; }
    forall i | Gated(ms, i) && After(ms[i], n + 1).Going? ensures i in r { assert i in s; }
  }

  /** One step of one member, with the floor top-up when it leaves. */
  method One(m: Drafter, t: Tally, step: nat) returns (u: Tally, out: bool, width: int)
    ensures Step(m, t, step) == if out then Left(u, width) else Going(u)
  {
    u := t.(launched := t.launched + 1, log := t.log + [step]);
    width := 0;
    if m.margin(step) < m.theta {
      out := true;
    } else {
      u := u.(passed := u.passed + 1);
      out := u.passed == Ceiling(m);
    }
    if out {
      width := Width(u.passed);
      var extra := FloorTopUp(u.launched, width, Ceiling(m));
      u := u.(log := u.log + extra);
    }
  }

  method FloorTopUp(launched: nat, width: int, ceiling: nat) returns (log: seq<nat>)
    ensures log == TopUp(launched, width, ceiling)
  {
    log := [];
    var j := launched;
    while j < width && j < ceiling
      invariant launched <= j && log + TopUp(j, width, ceiling) == TopUp(launched, width, ceiling)
    {
      assert log + ([j] + TopUp(j + 1, width, ceiling)) == (log + [j]) + TopUp(j + 1, width, ceiling);
      log := log + [j];
      j := j + 1;
    }
  }

  lemma AfterStep(m: Drafter, n: nat)
    ensures match After(m, n)
      case Going(t) => After(m, n + 1) == Step(m, t, n)
      case Left(t, w) => After(m, n + 1) == Left(t, w)
  {}

  lemma KeptAppend(ms: seq<Drafter>, s: seq<int>, j: nat, n: nat)
    requires j < |s| && forall i :: 0 <= i < |s| ==> 0 <= s[i] < |ms|
    ensures Kept(ms, s[..j + 1], n) == Kept(ms, s[..j], n) + if After(ms[s[j]], n).Going? then [s[j]] else []
  {
    assert s[..j + 1][..j] == s[..j];
  }

  /** One step for every active member; those that go on stay listed, in order. */
  method Turn(ms: seq<Drafter>, act: array<int>, na: nat, want: array<int>, tally: array<Tally>, step: nat) returns (keep: nat)
    requires act != want && act.Length == want.Length == tally.Length == |ms| && na <= |ms|
    requires ActiveList(ms, act[..na], step)
    requires Settled(ms, step, tally[..], want[..])
    modifies act, want, tally
    ensures keep <= na && ActiveList(ms, act[..keep], step + 1)
    ensures Settled(ms, step + 1, tally[..], want[..])
  {
    hide After, Step, Kept, Gated, ActiveList, Updated, Settled, TakesSuffix, Ceiling, Leave, Serial, Outcome, Ends;
    ghost var was, wants, tallies := act[..na], want[..], tally[..];
    ListedOnce(ms, was, step);
    keep := 0;
    NothingKept(ms, step + 1);
    NothingUpdated(ms, was, step + 1, tallies, wants);
    for j := 0 to na
      invariant keep <= j && act[j..na] == was[j..]
      invariant act[..keep] == Kept(ms, was[..j], step + 1)
      invariant Updated(ms, was, j, step + 1, tallies, wants, tally[..], want[..])
    {
      var i := act[j];
      assert i == act[j..na][0] == was[j];
      ghost var rest := act[j + 1..na];
      assert rest == act[j..na][1..] == was[j + 1..];
      KeptAppend(ms, was, j, step + 1);
      AfterStep(ms[i], step);
      GoingHolds(ms, step, tallies, wants, i);
      StillOld(ms, was, j, step + 1, tallies, wants, tally[..], want[..]);
      ghost var list, t0, w0 := act[..keep], tally[..], want[..];
      var t, out, w := One(ms[i], tally[i], step);
      tally[i] := t;
      if out {
        want[i] := w;
      } else {
        act[keep] := i;
        keep := keep + 1;
        assert act[..keep] == list + [i];
      }
      UpdatedOne(ms, was, j, step + 1, tallies, wants, t0, w0, tally[..], want[..]);
      assert act[j + 1..na] == rest;
    }
    assert was[..na] == was;
    KeptIsActive(ms, was, step);
    UpdatedAll(ms, was, step, tallies, wants, tally[..], want[..]);
  }

  /** The first `j` of the list have taken their turn, nobody else has changed. */
  ghost predicate Updated(ms: seq<Drafter>, was: seq<int>, j: nat, n: nat,
                          tallies: seq<Tally>, wants: seq<int>, tally: seq<Tally>, want: seq<int>) {
    && |tallies| == |wants| == |tally| == |want| == |ms| && j <= |was|
    && (forall k :: 0 <= k < |was| ==> 0 <= was[k] < |ms|)
    && (forall k :: 0 <= k < j ==> Holds(After(ms[was[k]], n), tally[was[k]], want[was[k]]))
    && (forall i :: 0 <= i < |ms| && i !in was[..j] ==> tally[i] == tallies[i] && want[i] == wants[i])
  }

  lemma GoingHolds(ms: seq<Drafter>, n: nat, tally: seq<Tally>, want: seq<int>, i: int)
    requires Settled(ms, n, tally, want) && Gated(ms, i) && After(ms[i], n).Going?
    ensures After(ms[i], n) == Going(tally[i])
  {}

  lemma NothingUpdated(ms: seq<Drafter>, was: seq<int>, n: nat, tallies: seq<Tally>, wants: seq<int>)
    requires |tallies| == |wants| == |ms| && forall k :: 0 <= k < |was| ==> 0 <= was[k] < |ms|
    ensures Updated(ms, was, 0, n, tallies, wants, tallies, wants)
  {}

  lemma StillOld(ms: seq<Drafter>, was: seq<int>, j: nat, n: nat,
                 tallies: seq<Tally>, wants: seq<int>, tally: seq<Tally>, want: seq<int>)
    requires Updated(ms, was, j, n, tallies, wants, tally, want) && j < |was| && was[j] !in was[..j]
    ensures tally[was[j]] == tallies[was[j]]
  {}

  lemma UpdatedOne(ms: seq<Drafter>, was: seq<int>, j: nat, n: nat, tallies: seq<Tally>, wants: seq<int>,
                   t0: seq<Tally>, w0: seq<int>, tally: seq<Tally>, want: seq<int>)
    requires Updated(ms, was, j, n, tallies, wants, t0, w0) && j < |was|
    requires |tally| == |want| == |ms| && forall k :: 0 <= k < |was| && k != j ==> was[k] != was[j]
    requires forall i :: 0 <= i < |ms| && i != was[j] ==> tally[i] == t0[i] && want[i] == w0[i]
    requires Holds(After(ms[was[j]], n), tally[was[j]], want[was[j]])
    ensures Updated(ms, was, j + 1, n, tallies, wants, tally, want)
  {
    hide After;
    assert was[..j + 1] == was[..j] + [was[j]];
  }

  lemma UpdatedAll(ms: seq<Drafter>, was: seq<int>, n: nat,
                   tallies: seq<Tally>, wants: seq<int>, tally: seq<Tally>, want: seq<int>)
    requires Updated(ms, was, |was|, n + 1, tallies, wants, tally, want) && ActiveList(ms, was, n)
    requires Settled(ms, n, tallies, wants)
    ensures Settled(ms, n + 1, tally, want)
  {
    hide After;
    assert was[..|was|] == was;
    forall i | 0 <= i < |ms|
      ensures if TakesSuffix(ms[i]) then want[i] == ms[i].suffix else Holds(After(ms[i], n + 1), tally[i], want[i])
    {
      AfterStep(ms[i], n);
      assert i in was ==> exists k :: 0 <= k < |was| && was[k] == i;
      assert TakesSuffix(ms[i]) ==> i !in was;
      assert !TakesSuffix(ms[i]) ==> Gated(ms, i);
    }
  }

  lemma NothingKept(ms: seq<Drafter>, n: nat)
    ensures Kept(ms, [], n) == []
  {}

  lemma ListedOnce(ms: seq<Drafter>, s: seq<int>, n: nat)
    requires ActiveList(ms, s, n)
    ensures forall j :: 0 <= j < |s| ==> 0 <= s[j] < |ms| && Gated(ms, s[j]) && After(ms[s[j]], n).Going?
    ensures forall j :: 0 <= j < |s| ==> s[j] !in s[..j]
    ensures forall j, k :: 0 <= j < |s| && 0 <= k < |s| && j != k ==> s[j] != s[k]
  {}
}
