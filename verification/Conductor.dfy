/** The scheduler as an object: `round` drains, checks, trims and lets members leave, in
    place.  Every method is tied to `ConductorCore`. */
module Conductor {
  import opened ConductorCore
  import TrimWidths

  class Scheduler {
    const cap: int
    var members: seq<Id>
    var joins: seq<Id>
    ghost var joined: seq<Id>
    ghost var gone: seq<Id>
    ghost var log: seq<Event>

    ghost function View(): Core
      reads this
    {
      Core(members, joins, joined, gone, log)
    }

    constructor (cap_: int)
      ensures View() == EMPTY && cap == cap_
    {
      cap := cap_;
      members, joins := [], [];
      joined, gone, log := [], [], [];
    }

    method Join(m: Id)
      modifies this
      ensures View() == Stage(old(View()), [m])
    {
      StageMany([m]);
    }

    method StageMany(ids: seq<Id>)
      modifies this
      ensures View() == Stage(old(View()), ids)
    {
      joins := joins + ids;
      joined := joined + ids;
    }

    method Say(e: Event)
      modifies `log
      ensures View() == Note(old(View()), e)
    {
      log := log + [e];
    }

    /** Erase the `i`-th member and run its leave hook. */
    method LeaveAt(i: nat, h: Hooks)
      requires i < |members|
      modifies this
      ensures View() == Leave(old(View()), i, h)
    {
      var m := members[i];
      members := members[..i] + members[i + 1..];
      gone, log := gone + [m], log + [Gone(m)];
      StageMany(h.onLeave(m));
    }

    method DrainJoins()
      modifies this
      ensures View() == Drain(old(View()))
    {
      var i := 0;
      while i < |joins|
        invariant i <= |joins| && joins == old(joins) && members == old(members) + joins[..i]
        invariant joined == old(joined) && gone == old(gone) && log == old(log)
      {
        assert joins[..i + 1] == joins[..i] + [joins[i]];
        members := members + [joins[i]];
        i := i + 1;
      }
      assert joins[..i] == joins;
      joins := [];
    }

    method CheckMembers(h: Hooks)
      modifies this
      ensures View() == Check(old(View()), 0, h)
    {
      hide Check, Leave;
      var i := 0;
      while i < |members|
        invariant i <= |members| && Check(View(), i, h) == Check(old(View()), 0, h)
        decreases |members| - i
      {
        CheckStep(View(), i, h);
        var m := members[i];
        Say(Checked(m));
        StageMany(h.onCheck(m));
        if !h.alive(m) {
          LeaveAt(i, h);
        } else {
          i := i + 1;
        }
      }
      CheckEnds(View(), h);
    }

    /** From the back, so that erasing does not move who is still to be looked at. */
    method LetGo(done: array<bool>, k: nat, h: Hooks)
      requires k <= |members| && k <= done.Length
      modifies this
      ensures View() == Leavers(old(View()), done[..k], k, h)
    {
      var i := k;
      while i > 0
        invariant 0 <= i <= k && i <= |members| && Leavers(View(), done[..k], i, h) == Leavers(old(View()), done[..k], k, h)
      {
        if done[i - 1] { LeaveAt(i - 1, h); }
        i := i - 1;
      }
    }

    method AskWidths(ms: seq<Id>, want: array<int>, sfx: array<bool>, h: Hooks)
      requires |ms| <= want.Length && |ms| <= sfx.Length
      modifies want, sfx
      ensures want[..|ms|] == Wants(ms, h) && sfx[..|ms|] == Classes(ms, h)
    {
      for i := 0 to |ms|
        invariant forall j :: 0 <= j < i ==> want[j] == h.want(ms[j]) && sfx[j] == h.suffix(ms[j])
      {
        want[i], sfx[i] := h.want(ms[i]), h.suffix(ms[i]);
      }
    }

    method GrantEach(ms: seq<Id>, want: array<int>)
      requires |ms| <= want.Length
      modifies `log
      ensures View() == GrantAll(old(View()), ms, want[..|ms|], |ms|)
    {
      ghost var g := want[..|ms|];
      for i := 0 to |ms|
        invariant View() == GrantAll(old(View()), ms, g, i)
      {
        Say(Granted(ms[i], want[i]));
      }
    }

    method Fuse(ms: seq<Id>, want: array<int>, done: array<bool>, h: Hooks)
      requires |ms| <= want.Length && |ms| <= done.Length
      modifies this, done
      ensures View() == Stage(Note(old(View()), Fused(ms, want[..|ms|])), h.onFused)
      ensures done[..|ms|] == Dones(ms, want[..|ms|], h)
    {
      for i := 0 to |ms|
        invariant forall j :: 0 <= j < i ==> done[j] == h.done(ms[j], want[j])
        invariant View() == old(View())
      {
        done[i] := h.done(ms[i], want[i]);
      }
      Say(Fused(ms, want[..|ms|]));
      StageMany(h.onFused);
    }

    method RoundTogether(h: Hooks)
      requires 2 <= |members| <= MAX_K / 2
      modifies this
      ensures View() == FusedRound(old(View()), h, cap)
    {
      hide Leavers, GrantAll, Dones, Wants, Classes, Stage, Note, TrimWidths.Trimmed;
      var ms, k := members, |members|;
      var want, sfx, done := new int[MAX_K], new bool[MAX_K], new bool[MAX_K];
      ghost var s0 := View();
      Say(Drafted(ms));
      StageMany(h.onDraft);
      ghost var s1 := View();
      AskWidths(ms, want, sfx, h);
      TrimWidths.Trim(want, sfx, k, cap);
      ghost var g := want[..k];
      assert g == Grants(ms, h, cap);
      GrantEach(ms, want);
      ghost var s2 := View();
      assert s2 == GrantAll(s1, ms, g, k);
      Fuse(ms, want, done, h);
      assert want[..k] == g;
      ghost var s3 := View();
      assert s3 == Stage(Note(s2, Fused(ms, g)), h.onFused);
      StillThere(s0, s1, s2, s3, ms, g, h);
      LetGo(done, k, h);
    }

    /** `round`: the live count, or the refusal of an oversized batch. */
    method Round(h: Hooks) returns (n: nat, aborted: bool)
      modifies this
      ensures Outcome(View(), aborted) == ConductorCore.Round(old(View()), h, cap)
      ensures n == |members|
    {
      hide FusedRound, Check;
      aborted := false;
      DrainJoins();
      CheckMembers(h);
      if |members| == 0 { return 0, false; }
      if |members| == 1 {
        var m := members[0];
        Say(Soloed(m));
        StageMany(h.onSolo(m));
        if h.soloDone(m) { LeaveAt(0, h); }
        return |members|, false;
      }
      if |members| > MAX_K / 2 { return |members|, true; }
      RoundTogether(h);
      n := |members|;
    }
  }

  lemma CheckStep(s: Core, i: nat, h: Hooks)
    requires i < |s.members|
    ensures var s1 := Stage(Note(s, Checked(s.members[i])), h.onCheck(s.members[i]));
      && s1.members == s.members && |Leave(s1, i, h).members| == |s.members| - 1
      && Check(s, i, h) == if h.alive(s.members[i]) then Check(s1, i + 1, h) else Check(Leave(s1, i, h), i, h)
  {}

  lemma CheckEnds(s: Core, h: Hooks)
    ensures Check(s, |s.members|, h) == s
  {}

  lemma StillThere(s0: Core, s1: Core, s2: Core, s3: Core, ms: seq<Id>, g: seq<int>, h: Hooks)
    requires |g| == |ms| && s0.members == ms
    requires s1 == Stage(Note(s0, Drafted(ms)), h.onDraft)
    requires s2 == GrantAll(s1, ms, g, |ms|) && s3 == Stage(Note(s2, Fused(ms, g)), h.onFused)
    ensures s1.members == s2.members == s3.members == ms
  {}
}
