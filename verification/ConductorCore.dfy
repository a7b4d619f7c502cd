/** Rounds of the batch scheduler, whose hooks may stage members while a round runs. */
module ConductorCore {
  import TrimWidths

  type Id = nat
  const MAX_K := 16

  datatype Event =
    | Checked(m: Id)
    | Soloed(m: Id)
    | Drafted(ms: seq<Id>)
    | Granted(m: Id, width: int)
    | Fused(ms: seq<Id>, grants: seq<int>)
    | Gone(m: Id)

  predicate Mentions(e: Event, m: Id) {
    match e
    case Drafted(ms) => m in ms
    case Fused(ms, _) => m in ms
    case Checked(x) => x == m
    case Soloed(x) => x == m
    case Granted(x, _) => x == m
    case Gone(x) => x == m
  }

  /** How the hooks answer in one round, and whom they stage meanwhile. */
  datatype Hooks = Hooks(
    alive: Id -> bool, onCheck: Id -> seq<Id>, onLeave: Id -> seq<Id>,
    soloDone: Id -> bool, onSolo: Id -> seq<Id>,
    want: Id -> int, suffix: Id -> bool, onDraft: seq<Id>,
    done: (Id, int) -> bool, onFused: seq<Id>)

  /** `joined`, `gone` and `log` record the past. */
  datatype Core = Core(members: seq<Id>, joins: seq<Id>, joined: seq<Id>, gone: seq<Id>, log: seq<Event>)

  const EMPTY := Core([], [], [], [], [])

  function Stage(s: Core, ids: seq<Id>): Core {
    s.(joins := s.joins + ids, joined := s.joined + ids)
  }

  function Drain(s: Core): Core {
    s.(members := s.members + s.joins, joins := [])
  }

  function Note(s: Core, e: Event): Core {
    s.(log := s.log + [e])
  }

  function Without(ms: seq<Id>, i: nat): seq<Id>
    requires i < |ms|
  {
    ms[..i] + ms[i + 1..]
  }

  function Drop(s: Core, i: nat): Core
    requires i < |s.members|
  {
    var m := s.members[i];
    s.(members := Without(s.members, i), gone := s.gone + [m], log := s.log + [Gone(m)])
  }

  function Leave(s: Core, i: nat, h: Hooks): Core
    requires i < |s.members|
  {
    Stage(Drop(s, i), h.onLeave(s.members[i]))
  }

  /** The checks before a round, from the `i`-th member on. */
  function Check(s: Core, i: nat, h: Hooks): Core
    requires i <= |s.members|
    decreases |s.members| - i
  {
    if i == |s.members| then s
    else
      var m := s.members[i];
      var s1 := Stage(Note(s, Checked(m)), h.onCheck(m));
      if h.alive(m) then Check(s1, i + 1, h) else Check(Leave(s1, i, h), i, h)
  }

  /** Members that are done leave, the last of the first `i` first. */
  function Leavers(s: Core, done: seq<bool>, i: nat, h: Hooks): Core
    requires i <= |s.members| && i <= |done|
    decreases i
  {
    if i == 0 then s
    else Leavers(if done[i - 1] then Leave(s, i - 1, h) else s, done, i - 1, h)
  }

  function Wants(ms: seq<Id>, h: Hooks): seq<int> { seq(|ms|, i requires 0 <= i < |ms| => h.want(ms[i])) }
  function Classes(ms: seq<Id>, h: Hooks): seq<bool> { seq(|ms|, i requires 0 <= i < |ms| => h.suffix(ms[i])) }

  function Grants(ms: seq<Id>, h: Hooks, cap: int): (g: seq<int>)
    ensures |g| == |ms|
  {
    TrimWidths.Trimmed(Wants(ms, h), Classes(ms, h), cap)
  }

  function Dones(ms: seq<Id>, g: seq<int>, h: Hooks): (r: seq<bool>)
    requires |g| == |ms|
    ensures |r| == |ms|
  {
    seq(|ms|, i requires 0 <= i < |ms| => h.done(ms[i], g[i]))
  }

  function GrantAll(s: Core, ms: seq<Id>, g: seq<int>, n: nat): (r: Core)
    requires n <= |ms| == |g|
    ensures r == s.(log := r.log)
  {
    if n == 0 then s else Note(GrantAll(s, ms, g, n - 1), Granted(ms[n - 1], g[n - 1]))
  }

  function FusedRound(s: Core, h: Hooks, cap: int): Core {
    var ms := s.members;
    var g := Grants(ms, h, cap);
    var s1 := Stage(Note(s, Drafted(ms)), h.onDraft);
    var s2 := GrantAll(s1, ms, g, |ms|);
    var s3 := Stage(Note(s2, Fused(ms, g)), h.onFused);
    Leavers(s3, Dones(ms, g, h), |ms|, h)
  }

  function SoloRound(s: Core, h: Hooks): Core
    requires |s.members| == 1
  {
    var m := s.members[0];
    var s1 := Stage(Note(s, Soloed(m)), h.onSolo(m));
    if h.soloDone(m) then Leave(s1, 0, h) else s1
  }

  /** The state after a round; a batch over the legal ceiling aborts. */
  datatype Outcome = Outcome(s: Core, aborted: bool)

  function Round(s: Core, h: Hooks, cap: int): Outcome {
    var s1 := Check(Drain(s), 0, h);
    var k := |s1.members|;
    if k == 0 then Outcome(s1, false)
    else if k == 1 then Outcome(SoloRound(s1, h), false)
    else if k > MAX_K / 2 then Outcome(s1, true)
    else Outcome(FusedRound(s1, h, cap), false)
  }

  // ------------------------------------------------------------- what is kept

  predicate Distinct(ms: seq<Id>) {
    forall i, j :: 0 <= i < j < |ms| ==> ms[i] != ms[j]
  }

  /** `a` is `b` with some elements left out. */
  predicate Subsequence(a: seq<Id>, b: seq<Id>)
    decreases |b|
  {
    if a == [] then true
    else if b == [] then false
    else
      || (a[|a| - 1] == b[|b| - 1] && Subsequence(a[..|a| - 1], b[..|b| - 1]))
      || Subsequence(a, b[..|b| - 1])
  }

  /** Once a member is gone no event mentions it. */
  predicate Quiet(log: seq<Event>) {
    forall i, j :: 0 <= i < j < |log| && log[i].Gone? ==> !Mentions(log[j], log[i].m)
  }

  function GoneIn(log: seq<Event>): seq<Id> {
    if log == [] then []
    else GoneIn(log[..|log| - 1]) + if log[|log| - 1].Gone? then [log[|log| - 1].m] else []
  }

  /** Nobody is lost or doubled, order is join order, and the departed stay silent. */
  ghost predicate Inv(s: Core) {
    && multiset(s.joined) == multiset(s.members) + multiset(s.joins) + multiset(s.gone)
    && Subsequence(s.members + s.joins, s.joined)
    && s.gone == GoneIn(s.log)
    && (Distinct(s.joined) ==> Quiet(s.log))
  }

  lemma {:induction false} SubsequenceAppend(a: seq<Id>, b: seq<Id>, ids: seq<Id>)
    requires Subsequence(a, b)
    ensures Subsequence(a + ids, b + ids)
  {
    if ids == [] {
      assert a + ids == a && b + ids == b;
    } else {
      var front := ids[..|ids| - 1];
      SubsequenceAppend(a, b, front);
      assert (a + ids)[..|a + ids| - 1] == a + front && (b + ids)[..|b + ids| - 1] == b + front;
    }
  }

  lemma {:induction false} SubsequenceWithout(a: seq<Id>, b: seq<Id>, i: nat)
    requires Subsequence(a, b) && i < |a|
    ensures Subsequence(Without(a, i), b)
    decreases |b|
  {
    var a', b' := a[..|a| - 1], b[..|b| - 1];
    if Subsequence(a, b') {
      SubsequenceWithout(a, b', i);
    } else if i == |a| - 1 {
      assert Without(a, i) == a';
    } else {
      SubsequenceWithout(a', b', i);
      assert Without(a, i)[..|a| - 2] == Without(a', i);
    }
  }

  lemma DistinctFront(a: seq<Id>, b: seq<Id>)
    requires Distinct(a + b)
    ensures Distinct(a)
  {
    forall i, j | 0 <= i < j < |a| ensures a[i] != a[j] {
      assert (a + b)[i] != (a + b)[j];
    }
  }

  lemma StageKeeps(s: Core, ids: seq<Id>)
    requires Inv(s)
    ensures Inv(Stage(s, ids))
  {
    hide Subsequence, Quiet, Distinct, GoneIn;
    SubsequenceAppend(s.members + s.joins, s.joined, ids);
    assert (s.members + s.joins) + ids == s.members + (s.joins + ids);
    if Distinct(s.joined + ids) { DistinctFront(s.joined, ids); }
  }

  lemma DrainKeeps(s: Core)
    requires Inv(s)
    ensures Inv(Drain(s))
  {
    assert (s.members + s.joins) + [] == s.members + s.joins;
  }

  lemma DistinctCount(ms: seq<Id>, m: Id)
    requires Distinct(ms)
    ensures multiset(ms)[m] <= 1
  {
    if ms != [] {
      var front, last := ms[..|ms| - 1], ms[|ms| - 1];
      DistinctCount(front, m);
      assert ms == front + [last];
      if m == last { assert m !in front; }
    }
  }

  /** With distinct joins every member is in exactly one place, once. */
  lemma OnePlace(s: Core, m: Id)
    requires Inv(s) && Distinct(s.joined) && m in s.joined
    ensures multiset(s.members)[m] + multiset(s.joins)[m] + multiset(s.gone)[m] == 1
    ensures (m in s.members) != (m in s.joins || m in s.gone)
    ensures (m in s.joins) != (m in s.members || m in s.gone)
  {
    DistinctCount(s.joined, m);
    assert m in multiset(s.joined);
    assert m in s.members <==> multiset(s.members)[m] > 0;
    assert m in s.joins <==> multiset(s.joins)[m] > 0;
    assert m in s.gone <==> multiset(s.gone)[m] > 0;
  }

  lemma MembersNotGone(s: Core)
    requires Inv(s) && Distinct(s.joined)
    ensures forall m :: m in s.members ==> m !in s.gone
  {
    forall m | m in s.members ensures m !in s.gone {
      assert m in multiset(s.members) && m in multiset(s.joined);
      OnePlace(s, m);
    }
  }

  lemma {:induction false} GoneInIs(log: seq<Event>)
    ensures forall i :: 0 <= i < |log| && log[i].Gone? ==> log[i].m in GoneIn(log)
  {
    if log != [] { GoneInIs(log[..|log| - 1]); }
  }

  lemma NoteQuiet(s: Core, e: Event)
    requires Inv(s) && forall m :: Mentions(e, m) ==> m in s.members
    ensures Distinct(s.joined) ==> Quiet(s.log + [e])
  {
    if Distinct(s.joined) {
      MembersNotGone(s);
      GoneInIs(s.log);
    }
  }

  lemma NoteKeeps(s: Core, e: Event)
    requires Inv(s) && !e.Gone? && forall m :: Mentions(e, m) ==> m in s.members
    ensures Inv(Note(s, e))
  {
    NoteQuiet(s, e);
    assert (s.log + [e])[..|s.log|] == s.log;
  }

  lemma WithoutOne(ms: seq<Id>, i: nat)
    requires i < |ms|
    ensures multiset(ms) == multiset(Without(ms, i)) + multiset{ms[i]}
  {
    assert ms == (ms[..i] + [ms[i]]) + ms[i + 1..];
  }

  lemma DropOrder(s: Core, i: nat)
    requires i < |s.members| && Subsequence(s.members + s.joins, s.joined)
    ensures Subsequence(Without(s.members, i) + s.joins, s.joined)
  {
    SubsequenceWithout(s.members + s.joins, s.joined, i);
    assert Without(s.members + s.joins, i) == Without(s.members, i) + s.joins;
  }

  lemma DropKeeps(s: Core, i: nat)
    requires Inv(s) && i < |s.members|
    ensures Inv(Drop(s, i))
  {
    hide Subsequence, Quiet, Distinct, Without;
    var m := s.members[i];
    NoteQuiet(s, Gone(m));
    assert (s.log + [Gone(m)])[..|s.log|] == s.log;
    WithoutOne(s.members, i);
    DropOrder(s, i);
  }

  lemma LeaveKeeps(s: Core, i: nat, h: Hooks)
    requires Inv(s) && i < |s.members|
    ensures Inv(Leave(s, i, h))
  {
    hide Inv;
    DropKeeps(s, i);
    StageKeeps(Drop(s, i), h.onLeave(s.members[i]));
  }

  lemma {:induction false} CheckKeeps(s: Core, i: nat, h: Hooks)
    requires Inv(s) && i <= |s.members|
    ensures Inv(Check(s, i, h))
    decreases |s.members| - i
  {
    hide Inv;
    if i < |s.members| {
      var m := s.members[i];
      NoteKeeps(s, Checked(m));
      var s1 := Stage(Note(s, Checked(m)), h.onCheck(m));
      StageKeeps(Note(s, Checked(m)), h.onCheck(m));
      if h.alive(m) {
        CheckKeeps(s1, i + 1, h);
      } else {
        LeaveKeeps(s1, i, h);
        CheckKeeps(Leave(s1, i, h), i, h);
      }
    }
  }

  lemma {:induction false} LeaversKeep(s: Core, done: seq<bool>, i: nat, h: Hooks)
    requires Inv(s) && i <= |s.members| && i <= |done|
    ensures Inv(Leavers(s, done, i, h))
    decreases i
  {
    hide Inv;
    if i > 0 {
      if done[i - 1] { LeaveKeeps(s, i - 1, h); }
      LeaversKeep(if done[i - 1] then Leave(s, i - 1, h) else s, done, i - 1, h);
    }
  }

  lemma {:induction false} GrantAllKeeps(s: Core, ms: seq<Id>, g: seq<int>, n: nat)
    requires Inv(s) && n <= |ms| == |g| && ms == s.members
    ensures Inv(GrantAll(s, ms, g, n))
  {
    hide Inv;
    if n > 0 {
      GrantAllKeeps(s, ms, g, n - 1);
      NoteKeeps(GrantAll(s, ms, g, n - 1), Granted(ms[n - 1], g[n - 1]));
    }
  }

  lemma FusedKeeps(s: Core, h: Hooks, cap: int)
    requires Inv(s)
    ensures Inv(FusedRound(s, h, cap))
  {
    hide Inv, Grants, Dones, Leavers, GrantAll;
    var ms := s.members;
    var g := Grants(ms, h, cap);
    NoteKeeps(s, Drafted(ms));
    StageKeeps(Note(s, Drafted(ms)), h.onDraft);
    var s1 := Stage(Note(s, Drafted(ms)), h.onDraft);
    GrantAllKeeps(s1, ms, g, |ms|);
    var s2 := GrantAll(s1, ms, g, |ms|);
    NoteKeeps(s2, Fused(ms, g));
    StageKeeps(Note(s2, Fused(ms, g)), h.onFused);
    LeaversKeep(Stage(Note(s2, Fused(ms, g)), h.onFused), Dones(ms, g, h), |ms|, h);
  }

  lemma RoundKeeps(s: Core, h: Hooks, cap: int)
    requires Inv(s)
    ensures Inv(Round(s, h, cap).s)
  {
    hide Inv, Check, FusedRound;
    DrainKeeps(s);
    CheckKeeps(Drain(s), 0, h);
    var s1 := Check(Drain(s), 0, h);
    if |s1.members| == 1 {
      var m := s1.members[0];
      NoteKeeps(s1, Soloed(m));
      StageKeeps(Note(s1, Soloed(m)), h.onSolo(m));
      LeaveKeeps(Stage(Note(s1, Soloed(m)), h.onSolo(m)), 0, h);
    } else if 2 <= |s1.members| <= MAX_K / 2 {
      FusedKeeps(s1, h, cap);
    }
  }

  // ----------------------------------------------------------------- all runs

  datatype Action = Join(m: Id) | RunRound(h: Hooks)

  function Act(o: Outcome, a: Action, cap: int): Outcome {
    if o.aborted then o
    else
      match a
      case Join(m) => Outcome(Stage(o.s, [m]), false)
      case RunRound(h) => Round(o.s, h, cap)
  }

  function Run(actions: seq<Action>, cap: int): Outcome {
    if actions == [] then Outcome(EMPTY, false)
    else Act(Run(actions[..|actions| - 1], cap), actions[|actions| - 1], cap)
  }

  /** After any run, joins from inside hooks included. */
  lemma {:induction false} RunKeeps(actions: seq<Action>, cap: int)
    ensures Inv(Run(actions, cap).s)
  {
    if actions != [] {
      hide Inv, Round;
      RunKeeps(actions[..|actions| - 1], cap);
      var o := Run(actions[..|actions| - 1], cap);
      match actions[|actions| - 1] {
        case Join(m) => StageKeeps(o.s, [m]);
        case RunRound(h) => RoundKeeps(o.s, h, cap);
      }
    }
  }

  /** With distinct joins each member is staged, live or gone, leaves at most once, and
      is never heard of again. */
  lemma RunIsSafe(actions: seq<Action>, cap: int)
    requires Distinct(Run(actions, cap).s.joined)
    ensures var s := Run(actions, cap).s;
      && (forall m :: m in s.joined ==> multiset(s.members)[m] + multiset(s.joins)[m] + multiset(s.gone)[m] == 1)
      && Subsequence(s.members + s.joins, s.joined)
      && Quiet(s.log) && s.gone == GoneIn(s.log)
  {
    hide Run;
    RunKeeps(actions, cap);
    var s := Run(actions, cap).s;
    forall m | m in s.joined ensures multiset(s.members)[m] + multiset(s.joins)[m] + multiset(s.gone)[m] == 1 {
      OnePlace(s, m);
    }
  }

  // ------------------------------------------------------- what one round does

  function Filter(ms: seq<Id>, keep: Id -> bool): seq<Id> {
    if ms == [] then []
    else (if keep(ms[0]) then [ms[0]] else []) + Filter(ms[1..], keep)
  }

  lemma FilterNext(ms: seq<Id>, i: nat, keep: Id -> bool)
    requires i <= |ms|
    ensures Filter(ms[i..], keep) ==
      if i == |ms| then [] else (if keep(ms[i]) then [ms[i]] else []) + Filter(ms[i + 1..], keep)
  {
    if i < |ms| { assert ms[i..][1..] == ms[i + 1..]; }
  }

  lemma LeaveMembers(s: Core, i: nat, h: Hooks)
    requires i < |s.members|
    ensures var ms := Leave(s, i, h).members;
      |ms| == |s.members| - 1 && ms[..i] == s.members[..i] && ms[i..] == s.members[i + 1..]
  {}

  lemma Rejoined(ms: seq<Id>, i: nat, rest: seq<Id>)
    requires i < |ms|
    ensures ms[..i + 1] + rest == ms[..i] + ([ms[i]] + rest)
  {}

  lemma {:induction false} CheckLeaves(s: Core, i: nat, h: Hooks)
    requires i <= |s.members|
    ensures Check(s, i, h).members == s.members[..i] + Filter(s.members[i..], h.alive)
    decreases |s.members| - i
  {
    hide Filter, Leave;
    FilterNext(s.members, i, h.alive);
    if i == |s.members| {
      assert s.members[..i] + [] == s.members;
    } else {
      var m := s.members[i];
      var s1 := Stage(Note(s, Checked(m)), h.onCheck(m));
      if h.alive(m) {
        CheckLeaves(s1, i + 1, h);
        Rejoined(s.members, i, Filter(s.members[i + 1..], h.alive));
      } else {
        LeaveMembers(s1, i, h);
        CheckLeaves(Leave(s1, i, h), i, h);
        assert [] + Filter(s.members[i + 1..], h.alive) == Filter(s.members[i + 1..], h.alive);
      }
    }
  }

  function Undone(ms: seq<Id>, done: seq<bool>): seq<Id>
    requires |ms| == |done|
  {
    if ms == [] then []
    else Undone(ms[..|ms| - 1], done[..|ms| - 1]) + if done[|ms| - 1] then [] else [ms[|ms| - 1]]
  }

  lemma UndoneNext(ms: seq<Id>, done: seq<bool>, i: nat)
    requires 0 < i <= |ms| && i <= |done|
    ensures Undone(ms[..i], done[..i]) ==
      Undone(ms[..i - 1], done[..i - 1]) + if done[i - 1] then [] else [ms[i - 1]]
  {
    assert ms[..i][..i - 1] == ms[..i - 1] && done[..i][..i - 1] == done[..i - 1];
  }

  lemma {:induction false} LeaversLeave(s: Core, done: seq<bool>, i: nat, h: Hooks)
    requires i <= |s.members| && i <= |done|
    ensures Leavers(s, done, i, h).members == Undone(s.members[..i], done[..i]) + s.members[i..]
    decreases i
  {
    hide Undone, Leave;
    if i == 0 {
      NothingUndone();
    } else {
      var ms, front := s.members, Undone(s.members[..i - 1], done[..i - 1]);
      UndoneNext(ms, done, i);
      if done[i - 1] {
        LeaveMembers(s, i - 1, h);
        LeaversLeave(Leave(s, i - 1, h), done, i - 1, h);
        assert front + [] == front;
      } else {
        LeaversLeave(s, done, i - 1, h);
        assert ms[i - 1..] == [ms[i - 1]] + ms[i..];
        assert front + ([ms[i - 1]] + ms[i..]) == (front + [ms[i - 1]]) + ms[i..];
      }
    }
  }

  lemma NothingUndone()
    ensures forall ms: seq<Id>, done: seq<bool> :: |ms| == |done| == 0 ==> Undone(ms, done) == []
  {}

  lemma LiveAfterChecks(s: Core, h: Hooks)
    ensures Check(Drain(s), 0, h).members == Filter(s.members + s.joins, h.alive)
  {
    hide Check, Filter;
    CheckLeaves(Drain(s), 0, h);
    assert (s.members + s.joins)[0..] == s.members + s.joins;
    assert (s.members + s.joins)[..0] == [];
  }

  lemma SoloMembers(s: Core, h: Hooks)
    requires |s.members| == 1
    ensures SoloRound(s, h).members == if h.soloDone(s.members[0]) then [] else s.members
  {}

  lemma FusedMembers(s: Core, h: Hooks, cap: int)
    ensures var ms := s.members;
      FusedRound(s, h, cap).members == Undone(ms, Dones(ms, Grants(ms, h, cap), h))
  {
    hide Grants, Dones, Undone, Leavers;
    var ms, g := s.members, Grants(s.members, h, cap);
    var s2 := GrantAll(Stage(Note(s, Drafted(ms)), h.onDraft), ms, g, |ms|);
    var s3 := Stage(Note(s2, Fused(ms, g)), h.onFused);
    LeaversLeave(s3, Dones(ms, g, h), |ms|, h);
    assert ms[..|ms|] == ms && Dones(ms, g, h)[..|ms|] == Dones(ms, g, h) && ms[|ms|..] == [];
  }

  /** Who is live after a round: of the live and the staged, in that order, those that
      passed their check and were not done. */
  lemma SurvivorsExactly(s: Core, h: Hooks, cap: int)
    ensures var ms := Filter(s.members + s.joins, h.alive);
      var o := Round(s, h, cap);
      && (o.aborted <==> |ms| > MAX_K / 2)
      && o.s.members ==
        if |ms| == 1 then (if h.soloDone(ms[0]) then [] else ms)
        else if o.aborted || ms == [] then ms
        else Undone(ms, Dones(ms, Grants(ms, h, cap), h))
  {
    hide Check, Filter, Grants, Dones, Undone, FusedRound, SoloRound;
    LiveAfterChecks(s, h);
    var s1 := Check(Drain(s), 0, h);
    if |s1.members| == 1 {
      SoloMembers(s1, h);
    } else if 2 <= |s1.members| <= MAX_K / 2 {
      FusedMembers(s1, h, cap);
    }
  }

  /** A fused round never grants more than the cap nor less than the floor. */
  lemma FusedGrantsFit(ms: seq<Id>, h: Hooks, cap: int)
    requires |ms| >= 2 && cap >= 2 * |ms| && forall m :: m in ms ==> h.want(m) >= 2
    ensures var g := Grants(ms, h, cap);
      && TrimWidths.Sum(g) <= cap
      && forall i :: 0 <= i < |ms| ==> 2 <= g[i] <= h.want(ms[i])
  {
    TrimWidths.GrantsFit(Wants(ms, h), Classes(ms, h), cap);
  }
}
