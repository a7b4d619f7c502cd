/** What one round of the scheduler does, event by event, and whom it stages meanwhile. */
module ConductorTrace {
  import opened ConductorCore
  import TrimWidths

  // ------------------------------------------------------------------ the trace

  /** Everybody is checked in order; who fails its check leaves at once. */
  function CheckTrace(ms: seq<Id>, h: Hooks): seq<Event> {
    if ms == [] then []
    else [Checked(ms[0])] + ((if h.alive(ms[0]) then [] else [Gone(ms[0])]) + CheckTrace(ms[1..], h))
  }

  function GrantTrace(ms: seq<Id>, g: seq<int>): seq<Event>
    requires |ms| == |g|
  {
    seq(|ms|, i requires 0 <= i < |ms| => Granted(ms[i], g[i]))
  }

  /** Who is done leaves, from the back. */
  function LeaveTrace(ms: seq<Id>, done: seq<bool>): seq<Event>
    requires |ms| == |done|
  {
    if ms == [] then []
    else
      var k := |ms| - 1;
      (if done[k] then [Gone(ms[k])] else []) + LeaveTrace(ms[..k], done[..k])
  }

  /** A round: the checks; then nothing for nobody, the solo step for one, and for several
      one draft, a width for everyone, one fused step, and the leavers. */
  function RoundTrace(ms: seq<Id>, h: Hooks, cap: int): seq<Event> {
    var live := Filter(ms, h.alive);
    CheckTrace(ms, h)
    + (if live == [] || |live| > 8 then []
       else if |live| == 1 then [Soloed(live[0])] + (if h.soloDone(live[0]) then [Gone(live[0])] else [])
       else
         var g := TrimWidths.Trimmed(Wants(live, h), Classes(live, h), cap);
         [Drafted(live)] + (GrantTrace(live, g) + ([Fused(live, g)] + LeaveTrace(live, Dones(live, g, h)))))
  }

  /** Whom the hook behind an event stages. */
  function StagedBy(e: Event, h: Hooks): seq<Id> {
    match e
    case Checked(m) => h.onCheck(m)
    case Soloed(m) => h.onSolo(m)
    case Drafted(_) => h.onDraft
    case Granted(_, _) => []
    case Fused(_, _) => h.onFused
    case Gone(m) => h.onLeave(m)
  }

  function Staged(es: seq<Event>, h: Hooks): seq<Id> {
    if es == [] then [] else StagedBy(es[0], h) + Staged(es[1..], h)
  }

  function Left(es: seq<Event>): seq<Id> {
    if es == [] then [] else (if es[0].Gone? then [es[0].m] else []) + Left(es[1..])
  }

  // ------------------------------------------------------------ following it

  /** From `s` to `t` exactly these events have happened. */
  ghost predicate Happened(s: Core, es: seq<Event>, h: Hooks, t: Core) {
    && t.log == s.log + es
    && t.joins == s.joins + Staged(es, h)
    && t.joined == s.joined + Staged(es, h)
    && t.gone == s.gone + Left(es)
  }

  lemma {:induction false} StagedConcat(a: seq<Event>, b: seq<Event>, h: Hooks)
    ensures Staged(a + b, h) == Staged(a, h) + Staged(b, h) && Left(a + b) == Left(a) + Left(b)
  {
    hide StagedBy;
    if a == [] {
      assert a + b == b;
    } else {
      assert (a + b)[0] == a[0] && (a + b)[1..] == a[1..] + b;
      StagedConcat(a[1..], b, h);
      Regroup(StagedBy(a[0], h), Staged(a[1..], h), Staged(b, h));
      Regroup(if a[0].Gone? then [a[0].m] else [], Left(a[1..]), Left(b));
    }
  }

  lemma Nothing(s: Core, h: Hooks)
    ensures Happened(s, [], h, s)
  {}

  lemma One(s: Core, e: Event, h: Hooks, t: Core)
    requires t.log == s.log + [e] && t.joins == s.joins + StagedBy(e, h) && t.joined == s.joined + StagedBy(e, h)
    requires t.gone == s.gone + if e.Gone? then [e.m] else []
    ensures Happened(s, [e], h, t)
  {
    assert [e][1..] == [];
    assert StagedBy(e, h) + [] == StagedBy(e, h) && Staged([], h) == [] && Left([]) == [];
  }

  lemma Both(s: Core, a: seq<Event>, t: Core, b: seq<Event>, h: Hooks, u: Core)
    requires Happened(s, a, h, t) && Happened(t, b, h, u)
    ensures Happened(s, a + b, h, u)
  {
    hide Staged, Left;
    StagedConcat(a, b, h);
    Regroup(s.log, a, b);
    Regroup(s.joins, Staged(a, h), Staged(b, h));
    Regroup(s.joined, Staged(a, h), Staged(b, h));
    Regroup(s.gone, Left(a), Left(b));
  }

  lemma Regroup<T>(x: seq<T>, y: seq<T>, z: seq<T>)
    ensures (x + y) + z == x + (y + z)
  {}

  lemma LeaveHappens(s: Core, i: nat, h: Hooks)
    requires i < |s.members|
    ensures Happened(s, [Gone(s.members[i])], h, Leave(s, i, h))
  {
    One(s, Gone(s.members[i]), h, Leave(s, i, h));
  }

  lemma {:induction false} ChecksHappen(s: Core, i: nat, h: Hooks)
    requires i <= |s.members|
    ensures Happened(s, CheckTrace(s.members[i..], h), h, Check(s, i, h))
    decreases |s.members| - i
  {
    hide Happened, Leave;
    if i == |s.members| {
      Nothing(s, h);
    } else {
      var m := s.members[i];
      var s1 := Stage(Note(s, Checked(m)), h.onCheck(m));
      CheckedHappens(s, m, h);
      assert s.members[i..][1..] == s.members[i + 1..];
      var rest := CheckTrace(s.members[i + 1..], h);
      if h.alive(m) {
        ChecksHappen(s1, i + 1, h);
        assert [] + rest == rest;
        Both(s, [Checked(m)], s1, rest, h, Check(s, i, h));
      } else {
        var s2 := Leave(s1, i, h);
        LeaveHappens(s1, i, h);
        LeaveMembers(s1, i, h);
        ChecksHappen(s2, i, h);
        Both(s1, [Gone(m)], s2, rest, h, Check(s, i, h));
        Both(s, [Checked(m)], s1, [Gone(m)] + rest, h, Check(s, i, h));
      }
    }
  }

  lemma CheckedHappens(s: Core, m: Id, h: Hooks)
    ensures Happened(s, [Checked(m)], h, Stage(Note(s, Checked(m)), h.onCheck(m)))
  {
    One(s, Checked(m), h, Stage(Note(s, Checked(m)), h.onCheck(m)));
  }

  lemma {:induction false} LeaversHappen(s: Core, done: seq<bool>, i: nat, h: Hooks)
    requires i <= |s.members| && i <= |done|
    ensures Happened(s, LeaveTrace(s.members[..i], done[..i]), h, Leavers(s, done, i, h))
    decreases i
  {
    hide Happened, Leave;
    if i == 0 {
      Nothing(s, h);
    } else {
      var k := i - 1;
      var s1 := if done[k] then Leave(s, k, h) else s;
      LeaveMembers(s, k, h);
      LeaversHappen(s1, done, k, h);
      assert s.members[..i][..k] == s.members[..k] && done[..i][..k] == done[..k];
      if done[k] {
        LeaveHappens(s, k, h);
      } else {
        Nothing(s, h);
      }
      Both(s, if done[k] then [Gone(s.members[k])] else [], s1, LeaveTrace(s.members[..k], done[..k]), h, Leavers(s, done, i, h));
    }
  }

  lemma {:induction false} GrantsHappen(s: Core, ms: seq<Id>, g: seq<int>, n: nat, h: Hooks)
    requires n <= |ms| == |g|
    ensures Happened(s, GrantTrace(ms, g)[..n], h, GrantAll(s, ms, g, n))
  {
    hide Happened;
    if n == 0 {
      Nothing(s, h);
    } else {
      var s1, e := GrantAll(s, ms, g, n - 1), Granted(ms[n - 1], g[n - 1]);
      GrantsHappen(s, ms, g, n - 1, h);
      GrantHappens(s1, e, h);
      Both(s, GrantTrace(ms, g)[..n - 1], s1, [e], h, Note(s1, e));
      assert GrantTrace(ms, g)[..n] == GrantTrace(ms, g)[..n - 1] + [e];
    }
  }

  lemma GrantHappens(s: Core, e: Event, h: Hooks)
    requires e.Granted?
    ensures Happened(s, [e], h, Note(s, e))
  {
    One(s, e, h, Note(s, e));
  }

  lemma FusedHappens(s: Core, h: Hooks, cap: int)
    ensures var ms := s.members; var g := Grants(ms, h, cap);
      Happened(s, [Drafted(ms)] + (GrantTrace(ms, g) + ([Fused(ms, g)] + LeaveTrace(ms, Dones(ms, g, h)))), h, FusedRound(s, h, cap))
  {
    hide Happened, Grants, Dones, Leavers, GrantAll, GrantTrace, LeaveTrace;
    var ms := s.members;
    var g := Grants(ms, h, cap);
    var s1 := Stage(Note(s, Drafted(ms)), h.onDraft);
    var s2 := GrantAll(s1, ms, g, |ms|);
    var s3 := Stage(Note(s2, Fused(ms, g)), h.onFused);
    DraftHappens(s, h);
    GrantsHappen(s1, ms, g, |ms|, h);
    assert GrantTrace(ms, g)[..|ms|] == GrantTrace(ms, g) by { GrantLength(ms, g); }
    FusedStepHappens(s2, ms, g, h);
    LeaversHappen(s3, Dones(ms, g, h), |ms|, h);
    assert ms[..|ms|] == ms && Dones(ms, g, h)[..|ms|] == Dones(ms, g, h);
    var u, leave := FusedRound(s, h, cap), LeaveTrace(ms, Dones(ms, g, h));
    Both(s2, [Fused(ms, g)], s3, leave, h, u);
    Both(s1, GrantTrace(ms, g), s2, [Fused(ms, g)] + leave, h, u);
    Both(s, [Drafted(ms)], s1, GrantTrace(ms, g) + ([Fused(ms, g)] + leave), h, u);
  }

  lemma GrantLength(ms: seq<Id>, g: seq<int>)
    requires |ms| == |g|
    ensures |GrantTrace(ms, g)| == |ms|
  {}

  lemma DraftHappens(s: Core, h: Hooks)
    ensures Happened(s, [Drafted(s.members)], h, Stage(Note(s, Drafted(s.members)), h.onDraft))
  {
    One(s, Drafted(s.members), h, Stage(Note(s, Drafted(s.members)), h.onDraft));
  }

  lemma FusedStepHappens(s: Core, ms: seq<Id>, g: seq<int>, h: Hooks)
    ensures Happened(s, [Fused(ms, g)], h, Stage(Note(s, Fused(ms, g)), h.onFused))
  {
    One(s, Fused(ms, g), h, Stage(Note(s, Fused(ms, g)), h.onFused));
  }

  lemma SoloHappens(s: Core, h: Hooks)
    requires |s.members| == 1
    ensures var m := s.members[0];
      Happened(s, [Soloed(m)] + (if h.soloDone(m) then [Gone(m)] else []), h, SoloRound(s, h))
  {
    hide Happened, Leave;
    var m := s.members[0];
    var s1 := Stage(Note(s, Soloed(m)), h.onSolo(m));
    SoloStepHappens(s, m, h);
    if h.soloDone(m) { LeaveHappens(s1, 0, h); } else { Nothing(s1, h); }
    Both(s, [Soloed(m)], s1, if h.soloDone(m) then [Gone(m)] else [], h, SoloRound(s, h));
  }

  lemma SoloStepHappens(s: Core, m: Id, h: Hooks)
    ensures Happened(s, [Soloed(m)], h, Stage(Note(s, Soloed(m)), h.onSolo(m)))
  {
    One(s, Soloed(m), h, Stage(Note(s, Soloed(m)), h.onSolo(m)));
  }

  /** A round is exactly its trace: the staged become members first, everybody is checked
      before anybody drafts, every width is installed before the fused step and is the one
      it runs with, and whoever a hook stages waits for the next round. */
  lemma RoundHappens(s: Core, h: Hooks, cap: int)
    ensures Happened(Drain(s), RoundTrace(s.members + s.joins, h, cap), h, Round(s, h, cap).s)
    ensures Round(s, h, cap).s.joins == Staged(RoundTrace(s.members + s.joins, h, cap), h)
  {
    hide Happened, Check, CheckTrace, FusedRound, SoloRound, Grants, Dones, GrantTrace, LeaveTrace, Filter;
    var d, ms := Drain(s), s.members + s.joins;
    LiveAfterChecks(s, h);
    ChecksHappen(d, 0, h);
    assert ms[0..] == ms;
    var s1, u := Check(d, 0, h), Round(s, h, cap).s;
    if s1.members == [] || |s1.members| > MAX_K / 2 {
      Nothing(s1, h);
      Both(d, CheckTrace(ms, h), s1, [], h, u);
    } else if |s1.members| == 1 {
      SoloHappens(s1, h);
      Both(d, CheckTrace(ms, h), s1, [Soloed(s1.members[0])] + (if h.soloDone(s1.members[0]) then [Gone(s1.members[0])] else []), h, u);
    } else {
      FusedHappens(s1, h, cap);
      GrantsAre(s1.members, h, cap);
      var g := Grants(s1.members, h, cap);
      Both(d, CheckTrace(ms, h), s1, [Drafted(s1.members)] + (GrantTrace(s1.members, g)
        + ([Fused(s1.members, g)] + LeaveTrace(s1.members, Dones(s1.members, g, h)))), h, u);
    }
    StagedOnly(d, RoundTrace(ms, h, cap), h, u);
  }

  lemma GrantsAre(ms: seq<Id>, h: Hooks, cap: int)
    ensures Grants(ms, h, cap) == TrimWidths.Trimmed(Wants(ms, h), Classes(ms, h), cap)
  {}

  lemma StagedOnly(s: Core, es: seq<Event>, h: Hooks, t: Core)
    requires Happened(s, es, h, t) && s.joins == []
    ensures t.joins == Staged(es, h)
  {}
}
