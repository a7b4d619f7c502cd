/** The drafting ceiling told by what it has seen: closed-form averages over the rounds
    since its level was entered decide every move. */
module DepthHistory {
  import opened DepthCtl

  /** A gated round: how deep its margins ran, how many tokens it committed. */
  datatype Seen = Seen(cap: int, n: int)

  /** The gated rounds of a run since the live level was entered. */
  function Stay(tune: Tuning, kMax: nat, actions: seq<Action>): seq<Seen>
    requires K_MIN <= kMax <= 7
  {
    if actions == [] then []
    else
      var front := actions[..|actions| - 1];
      match actions[|actions| - 1]
      case Restart => []
      case Ungated => Stay(tune, kMax, front)
      case Gated(cap, n) =>
        if Run(tune, kMax, actions).c.cur != Run(tune, kMax, front).c.cur then []
        else Stay(tune, kMax, front) + [Seen(cap, n)]
  }

  // ------------------------------------------------------------ closed averages

  /** What the observations weigh: the latest the weight, each earlier one a factor less. */
  function Share(ema: real, xs: seq<bool>): real {
    if xs == [] then 0.0
    else (if xs[0] then Times(ema, Decay(ema, |xs| - 1)) else 0.0) + Share(ema, xs[1..])
  }

  /** A moving average in closed form. */
  function Average(ema: real, start: real, xs: seq<bool>): real {
    Times(start, Decay(ema, |xs|)) + Share(ema, xs)
  }

  lemma {:induction false} ShareNext(ema: real, xs: seq<bool>, x: bool)
    ensures Share(ema, xs + [x]) == Times(Share(ema, xs), 1.0 - ema) + if x then ema else 0.0
  {
    hide Times;
    var ys := xs + [x];
    if xs == [] {
      assert ys[1..] == [];
      TimesOnes(ema);
      ZeroTimes(1.0 - ema);
    } else {
      assert ys[1..] == xs[1..] + [x];
      ShareNext(ema, xs[1..], x);
      var d := Decay(ema, |xs| - 1);
      Associates(ema, d, 1.0 - ema);
      ZeroTimes(1.0 - ema);
      Distributes(if xs[0] then Times(ema, d) else 0.0, Share(ema, xs[1..]), 1.0 - ema);
    }
  }

  lemma TimesOnes(x: real)
    ensures Times(x, 1.0) == x && Times(1.0, x) == x
  {}

  lemma ZeroTimes(x: real)
    ensures Times(0.0, x) == 0.0
  {}

  lemma Associates(x: real, y: real, z: real)
    ensures Times(Times(x, y), z) == Times(x, Times(y, z))
  {}

  lemma Distributes(x: real, y: real, z: real)
    ensures Times(x + y, z) == Times(x, z) + Times(y, z)
  {}

  /** One more observation moves the closed average as the controller moves its own. */
  lemma AverageMoves(ema: real, start: real, xs: seq<bool>, x: bool)
    ensures Average(ema, start, xs + [x]) == Moved(ema, Average(ema, start, xs), x)
  {
    ShareNext(ema, xs, x);
    Associates(start, Decay(ema, |xs|), 1.0 - ema);
    Distributes(Times(start, Decay(ema, |xs|)), Share(ema, xs), 1.0 - ema);
    MovedIs(ema, Average(ema, start, xs), x);
    hide Times, Moved, Share;
  }

  lemma MovedIs(ema: real, y: real, x: bool)
    ensures Moved(ema, y, x) == Times(y, 1.0 - ema) + if x then ema else 0.0
  {}

  lemma NothingSeen(ema: real, start: real)
    ensures Average(ema, start, []) == start
  {
    TimesOnes(start);
  }

  // ------------------------------------------------------- what a stay has seen

  /** Was the level used up? */
  function Hits(h: seq<Seen>, md: nat): seq<bool> {
    seq(|h|, i requires 0 <= i < |h| => h[i].n > md)
  }

  /** Did the margins reach the ceiling? */
  function Tops(h: seq<Seen>, md: nat): seq<bool> {
    seq(|h|, i requires 0 <= i < |h| => h[i].cap >= md)
  }

  /** The hits of the rounds whose margins reached the ceiling. */
  function TopHits(h: seq<Seen>, md: nat): seq<bool> {
    if h == [] then []
    else
      var last := h[|h| - 1];
      TopHits(h[..|h| - 1], md) + if last.cap >= md then [last.n > md] else []
  }

  lemma SeenNext(h: seq<Seen>, s: Seen, md: nat)
    ensures Hits(h + [s], md) == Hits(h, md) + [s.n > md] && Tops(h + [s], md) == Tops(h, md) + [s.cap >= md]
    ensures TopHits(h + [s], md) == TopHits(h, md) + if s.cap >= md then [s.n > md] else []
  {
    assert (h + [s])[..|h|] == h;
  }

  function Seed(bar: real): real { if 2.0 * bar > 1.0 then 1.0 else 2.0 * bar }

  /** The averages of the live level are the closed ones of its stay. */
  ghost predicate Remembers(c: Ctl, h: seq<Seen>) {
    && Shaped(c) && K_MIN <= c.cur <= c.kMax
    && var t, md := c.tune, c.cur;
    && c.sat[md] == Average(t.ema, 0.0, Hits(h, md))
    && (md > 4 ==> c.yld[md] == Average(t.ema, Seed(t.lo), TopHits(h, md)))
    && (md == 6 ==> c.fired == Average(t.ema, Seed(t.flo6), Tops(h, md)))
    && (md == 7 ==> c.fired == Average(t.ema, Seed(t.flo7), Tops(h, md)))
  }

  /** Where the ceiling goes behind a gated round, by the rounds seen at the level with it. */
  function NextCeiling(t: Tuning, kMax: nat, md: nat, h: seq<Seen>): int
    requires h != []
  {
    var hi := if md == 4 then t.hi else if md == 5 then t.hi6 else t.hi7;
    var flo := if md == 6 then t.flo6 else t.flo7;
    var worth := Average(t.ema, 0.0, Hits(h, md)) >= hi;
    var rare := Average(t.ema, Seed(flo), Tops(h, md)) < flo;
    var poor := h[|h| - 1].cap >= md && Average(t.ema, Seed(t.lo), TopHits(h, md)) < t.lo;
    if md < kMax && worth then md + 1
    else if (md >= 6 && rare) || (md > 4 && poor) then md - 1
    else md
  }

  lemma EntryRemembers(c: Ctl, k: nat)
    requires Shaped(c) && K_MIN <= k <= c.kMax
    ensures Remembers(Enter(c, k), [])
  {
    hide Average;
    assert Hits([], k) == [] && Tops([], k) == [] && TopHits([], k) == [];
    NothingSeen(c.tune.ema, 0.0);
    NothingSeen(c.tune.ema, Seed(c.tune.lo));
    NothingSeen(c.tune.ema, Seed(c.tune.flo6));
    NothingSeen(c.tune.ema, Seed(c.tune.flo7));
  }

  /** The averages of the live level behind one more round. */
  lemma AveragesFollow(c: Ctl, h: seq<Seen>, cap: int, n: int)
    requires Remembers(c, h)
    ensures var t, md, g := c.tune, c.cur, h + [Seen(cap, n)];
      var c1 := Counted(c, md, n >= md + 1); var c2 := Deep(c1, md, cap); var c3 := Yielded(c2, md, cap, n >= md + 1);
      && c1.sat[md] == Average(t.ema, 0.0, Hits(g, md))
      && (md == 6 ==> c2.fired == Average(t.ema, Seed(t.flo6), Tops(g, md)))
      && (md == 7 ==> c2.fired == Average(t.ema, Seed(t.flo7), Tops(g, md)))
      && (md > 4 ==> c3.yld[md] == Average(t.ema, Seed(t.lo), TopHits(g, md)))
  {
    hide Average, Moved, Hits, Tops, TopHits;
    var t, md, hit := c.tune, c.cur, n > c.cur;
    SeenNext(h, Seen(cap, n), md);
    AverageMoves(t.ema, 0.0, Hits(h, md), hit);
    AverageMoves(t.ema, Seed(t.lo), TopHits(h, md), hit);
    AverageMoves(t.ema, Seed(t.flo6), Tops(h, md), cap >= md);
    AverageMoves(t.ema, Seed(t.flo7), Tops(h, md), cap >= md);
    assert TopHits(h, md) + [] == TopHits(h, md);
  }

  lemma MovesLeave(c: Ctl, md: nat, cap: int, hit: bool)
    requires Shaped(c) && md < 8
    ensures var c1 := Counted(c, md, hit); var c2 := Deep(c1, md, cap); var c3 := Yielded(c2, md, cap, hit);
      && Shaped(c1) && Shaped(c2) && Shaped(c3)
      && c3.sat == c1.sat && c3.fired == c2.fired
      && forall d :: d in [c1, c2, c3] ==>
        d.cur == c.cur && d.tune == c.tune && d.kMax == c.kMax && d.promotes == c.promotes && d.demotes == c.demotes
  {
    hide Moved;
  }

  /** One gated round at the ceiling. */
  lemma RoundFollowsStay(c: Ctl, h: seq<Seen>, cap: int, n: int)
    requires Remembers(c, h)
    ensures var u := Update(c, c.cur, cap, n); var g := h + [Seen(cap, n)];
      && u.cur == NextCeiling(c.tune, c.kMax, c.cur, g)
      && Remembers(u, if u.cur != c.cur then [] else g)
      && u.promotes == c.promotes + (if u.cur > c.cur then 1 else 0)
      && u.demotes == c.demotes + (if u.cur < c.cur then 1 else 0)
  {
    hide Average, Hits, Tops, TopHits, Enter, Counted, Deep, Yielded, Promote, Demote;
    var md, hit := c.cur, n >= c.cur + 1;
    AveragesFollow(c, h, cap, n);
    MovesLeave(c, md, cap, hit);
    var c1 := Counted(c, md, hit);
    var c2 := Deep(c1, md, cap);
    var c3 := Yielded(c2, md, cap, hit);
    assert c1 in [c1, c2, c3] && c2 in [c1, c2, c3] && c3 in [c1, c2, c3];
    if md < c.kMax { Promoted(c1, md); }
    if md > 4 {
      Demoted(c2, md);
      Demoted(c3, md);
    }
  }

  lemma Promoted(c: Ctl, md: nat)
    requires Shaped(c) && md < 7 && K_MIN <= md + 1 <= c.kMax
    ensures var u := Promote(c, md);
      Remembers(u, []) && u.cur == md + 1 && u.promotes == c.promotes + 1 && u.demotes == c.demotes
  {
    hide Remembers, Enter;
    EntryRemembers(c, md + 1);
    EnterShape(c, md + 1);
    SameAverages(Enter(c, md + 1), Promote(c, md));
  }

  lemma Demoted(c: Ctl, md: nat)
    requires Shaped(c) && 0 < md < 8 && K_MIN <= md - 1 <= c.kMax
    ensures var u := Demote(c, md);
      Remembers(u, []) && u.cur == md - 1 && u.promotes == c.promotes && u.demotes == c.demotes + 1
  {
    hide Remembers, Enter;
    EntryRemembers(c, md - 1);
    EnterShape(c, md - 1);
    SameAverages(Enter(c, md - 1), Demote(c, md));
  }

  /** The counters are no part of what is remembered. */
  lemma SameAverages(c: Ctl, d: Ctl)
    requires Remembers(c, []) && d == c.(promotes := d.promotes, demotes := d.demotes)
    ensures Remembers(d, [])
  {
    hide Average;
  }

  lemma EnterShape(c: Ctl, k: nat)
    requires Shaped(c) && k < 8
    ensures var e := Enter(c, k);
      e.cur == k && e.promotes == c.promotes && e.demotes == c.demotes && e.tune == c.tune && e.kMax == c.kMax
  {}

  lemma {:induction false} RunRemembers(tune: Tuning, kMax: nat, actions: seq<Action>)
    requires K_MIN <= kMax <= 7
    ensures Remembers(Run(tune, kMax, actions).c, Stay(tune, kMax, actions))
  {
    hide Remembers, NextCeiling, Update;
    if actions == [] {
      FreshRemembers(tune, kMax);
    } else {
      var front := actions[..|actions| - 1];
      RunRemembers(tune, kMax, front);
      var a, h := Run(tune, kMax, front), Stay(tune, kMax, front);
      match actions[|actions| - 1] {
        case Restart => FreshRemembers(tune, kMax);
        case Ungated => NoRound(a.c);
        case Gated(cap, n) => RoundFollowsStay(a.c, h, cap, n);
      }
    }
  }

  lemma NoRound(c: Ctl)
    requires Shaped(c)
    ensures Update(c, -1, 0, 0) == c
  {}

  lemma FreshRemembers(tune: Tuning, kMax: nat)
    requires K_MIN <= kMax <= 7
    ensures Remembers(Fresh(tune, kMax), [])
  {
    hide Enter, Remembers;
    EntryRemembers(Ctl(tune, kMax, K_MIN, seq(8, _ => 0.0), seq(8, _ => 1.0), 0.0, seq(8, _ => 0), 0, 0), K_MIN);
  }

  /** After any run, for any tuning: where the next gated round takes the ceiling is decided
      by the rounds since its level was entered, weighted by age, and by nothing else. */
  lemma CeilingFollowsStay(tune: Tuning, kMax: nat, actions: seq<Action>, cap: int, n: int)
    requires K_MIN <= kMax <= 7
    ensures var a := Run(tune, kMax, actions);
      Act(a, Gated(cap, n)).c.cur == NextCeiling(tune, kMax, a.c.cur, Stay(tune, kMax, actions) + [Seen(cap, n)])
  {
    hide NextCeiling, Remembers, Update;
    RunRemembers(tune, kMax, actions);
    RoundFollowsStay(Run(tune, kMax, actions).c, Stay(tune, kMax, actions), cap, n);
  }

  // ----------------------------------------------------------- eleven misses

  lemma {:induction false} ShareOfNone(ema: real, xs: seq<bool>)
    requires forall i :: 0 <= i < |xs| ==> !xs[i]
    ensures Share(ema, xs) == 0.0
  {
    if xs != [] { ShareOfNone(ema, xs[1..]); }
  }

  lemma {:induction false} ShareOfAll(ema: real, xs: seq<bool>)
    requires forall i :: 0 <= i < |xs| ==> xs[i]
    ensures Share(ema, xs) == 1.0 - Decay(ema, |xs|)
  {
    if xs != [] { ShareOfAll(ema, xs[1..]); }
  }

  lemma {:induction false} TopHitsOfMisses(h: seq<Seen>, md: nat)
    requires forall i :: 0 <= i < |h| ==> h[i] == Seen(md, 0)
    ensures |TopHits(h, md)| == |h| && forall i :: 0 <= i < |h| ==> !TopHits(h, md)[i]
  {
    if h != [] { TopHitsOfMisses(h[..|h| - 1], md); }
  }

  /** With the shipped constants a level above the lowest whose top lane always fires and
      always misses is left on its eleventh round and not before. */
  lemma MissesDemoteAtEleven(kMax: nat, md: nat, n: nat)
    requires 5 <= md <= kMax <= 7 && 1 <= n <= 11
    ensures NextCeiling(SHIPPED, kMax, md, seq(n, _ => Seen(md, 0))) == if n == 11 then md - 1 else md
  {
    hide Decay, TopHits, Share;
    var h, e := seq(n, _ => Seen(md, 0)), SHIPPED.ema;
    ShareOfNone(e, Hits(h, md));
    ShareOfAll(e, Tops(h, md));
    TopHitsOfMisses(h, md);
    ShareOfNone(e, TopHits(h, md));
    DecayAtTen();
    DecayMonotone(e, if n <= 10 then n else 11, if n <= 10 then 10 else 11);
    DecayFalls(e, n);
    ZeroTimes(Decay(e, n));
  }
}
