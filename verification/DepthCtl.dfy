/** The adaptive drafting ceiling: promotes and demotes on moving averages, in exact
    arithmetic, whatever its bars and its average weight are tuned to. */
module DepthCtl {

  const K_MIN := 4

  /** The weight of the averages, the promote bars, the yield bar, the fired bars. */
  datatype Tuning = Tuning(ema: real, hi: real, hi6: real, hi7: real, lo: real, flo6: real, flo7: real)

  const SHIPPED := Tuning(1.0 / 16.0, 0.5, 0.6, 0.6, 0.35, 0.45, 0.45)

  datatype Ctl = Ctl(
    tune: Tuning, kMax: nat, cur: nat, sat: seq<real>, yld: seq<real>, fired: real, rounds: seq<nat>, promotes: nat, demotes: nat)

  predicate Shaped(c: Ctl) {
    K_MIN <= c.kMax <= 7 && |c.sat| == |c.yld| == |c.rounds| == 8
  }

  function AtMostOne(x: real): real { if x > 1.0 then 1.0 else x }

  function Times(x: real, y: real): real { x * y }

  /** Moving an average towards an observation. */
  function Moved(ema: real, x: real, seen: bool): real {
    x + Times(ema, (if seen then 1.0 else 0.0) - x)
  }

  function PromoteBar(t: Tuning, md: nat): real { if md >= 6 then t.hi7 else if md >= 5 then t.hi6 else t.hi }
  function FiredBar(t: Tuning, md: nat): real { if md == 6 then t.flo6 else t.flo7 }

  function Enter(c: Ctl, k: nat): Ctl
    requires Shaped(c) && k < 8
  {
    c.(cur := k, sat := c.sat[k := 0.0], yld := c.yld[k := AtMostOne(2.0 * c.tune.lo)],
       fired := if k >= 6 then AtMostOne(2.0 * FiredBar(c.tune, k)) else c.fired)
  }

  function Fresh(tune: Tuning, kMax: nat): Ctl
    requires K_MIN <= kMax <= 7
  {
    Enter(Ctl(tune, kMax, K_MIN, seq(8, _ => 0.0), seq(8, _ => 1.0), 0.0, seq(8, _ => 0), 0, 0), K_MIN)
  }

  /** The round is counted and the saturation of its level moves. */
  function Counted(c: Ctl, md: nat, hit: bool): Ctl
    requires Shaped(c) && md < 8
  {
    c.(rounds := c.rounds[md := c.rounds[md] + 1], sat := c.sat[md := Moved(c.tune.ema, c.sat[md], hit)])
  }

  function Promote(c: Ctl, md: nat): Ctl
    requires Shaped(c) && md < 7
  {
    Enter(c, md + 1).(promotes := c.promotes + 1)
  }

  function Demote(c: Ctl, md: nat): Ctl
    requires Shaped(c) && 0 < md < 8
  {
    Enter(c, md - 1).(demotes := c.demotes + 1)
  }

  /** Levels six and seven: how often the margin run reaches the ceiling. */
  function Deep(c: Ctl, md: nat, cap: int): Ctl {
    if md >= 6 then c.(fired := Moved(c.tune.ema, c.fired, cap >= md)) else c
  }

  predicate TooRarelyDeep(c: Ctl, md: nat) { md >= 6 && c.fired < FiredBar(c.tune, md) }

  /** The yield moves only when the top lane fired. */
  function Yielded(c: Ctl, md: nat, cap: int, hit: bool): Ctl
    requires Shaped(c) && md < 8
  {
    if md > K_MIN && cap >= md then c.(yld := c.yld[md := Moved(c.tune.ema, c.yld[md], hit)]) else c
  }

  predicate YieldsTooLittle(c: Ctl, md: nat, cap: int)
    requires Shaped(c) && md < 8
  {
    md > K_MIN && cap >= md && c.yld[md] < c.tune.lo
  }

  /** One gated round drafted under the ceiling `m`; a negative `m` is no gated round. */
  function Update(c: Ctl, m: int, cap: int, n: int): (u: Ctl)
    requires Shaped(c)
    ensures Shaped(u) && u.tune == c.tune && u.kMax == c.kMax
  {
    if m < 0 then c
    else
      var md := if m > 7 then 7 else m;
      var hit := n >= md + 1;
      var c1 := Counted(c, md, hit);
      var c2 := Deep(c1, md, cap);
      var c3 := Yielded(c2, md, cap, hit);
      if md < c.kMax && c1.sat[md] >= PromoteBar(c.tune, md) then Promote(c1, md)
      else if TooRarelyDeep(c2, md) then Demote(c2, md)
      else if YieldsTooLittle(c3, md, cap) then Demote(c3, md)
      else c3
  }

  /** The controller itself. */
  class Controller {
    const tune: Tuning
    const kMax: nat
    var cur: nat
    const sat: array<real>
    const yld: array<real>
    var fired: real
    const rounds: array<nat>
    var promotes: nat
    var demotes: nat

    ghost predicate Valid()
      reads this, sat, yld, rounds
    {
      K_MIN <= kMax <= 7 && sat.Length == yld.Length == rounds.Length == 8 && sat != yld
    }

    ghost function View(): (c: Ctl)
      requires Valid()
      reads this, sat, yld, rounds
      ensures Shaped(c)
    {
      Ctl(tune, kMax, cur, sat[..], yld[..], fired, rounds[..], promotes, demotes)
    }

    constructor (tuning: Tuning, top: nat)
      requires K_MIN <= top <= 7
      ensures Valid() && tune == tuning && kMax == top && fresh(sat) && fresh(yld) && fresh(rounds)
      ensures View() == Fresh(tuning, top)
    {
      tune, kMax, cur, fired, promotes, demotes := tuning, top, K_MIN, 0.0, 0, 0;
      sat, yld, rounds := new real[8], new real[8], new nat[8];
      new;
      Reset();
    }

    method EnterLevel(k: nat)
      requires Valid() && k < 8
      modifies this, sat, yld
      ensures Valid() && View() == Enter(old(View()), k)
    {
      cur := k;
      sat[k] := 0.0;
      yld[k] := if 2.0 * tune.lo > 1.0 then 1.0 else 2.0 * tune.lo;
      if k >= 6 {
        var f := if k == 6 then tune.flo6 else tune.flo7;
        fired := if 2.0 * f > 1.0 then 1.0 else 2.0 * f;
      }
    }

    method Reset()
      requires Valid()
      modifies this, sat, yld, rounds
      ensures Valid() && View() == Fresh(tune, kMax)
    {
      cur := K_MIN;
      var i := 0;
      while i < 8
        invariant 0 <= i <= 8
        invariant forall j :: 0 <= j < i ==> sat[j] == 0.0 && yld[j] == 1.0 && rounds[j] == 0
        invariant cur == K_MIN
      {
        sat[i], yld[i], rounds[i] := 0.0, 1.0, 0;
        i := i + 1;
      }
      fired, promotes, demotes := 0.0, 0, 0;
      assert sat[..] == seq(8, _ => 0.0) && yld[..] == seq(8, _ => 1.0) && rounds[..] == seq(8, _ => 0);
      EnterLevel(cur);
    }

    method Count(md: nat, hit: bool)
      requires Valid() && md < 8
      modifies sat, rounds
      ensures Valid() && View() == Counted(old(View()), md, hit)
    {
      rounds[md] := rounds[md] + 1;
      hide Moved;
      sat[md] := Moved(tune.ema, sat[md], hit);
    }

    method GoUp(md: nat)
      requires Valid() && md < 7
      modifies this, sat, yld
      ensures Valid() && View() == Promote(old(View()), md)
    {
      EnterLevel(md + 1);
      promotes := promotes + 1;
    }

    method GoDown(md: nat)
      requires Valid() && 0 < md < 8
      modifies this, sat, yld
      ensures Valid() && View() == Demote(old(View()), md)
    {
      EnterLevel(md - 1);
      demotes := demotes + 1;
    }

    method MoveYield(md: nat, hit: bool)
      requires Valid() && md < 8
      modifies yld
      ensures Valid() && View() == old(View()).(yld := old(View()).yld[md := Moved(tune.ema, old(View()).yld[md], hit)])
    {
      hide Moved;
      yld[md] := Moved(tune.ema, yld[md], hit);
    }

    /** `update`. */
    method Fold(m: int, cap: int, n: int)
      requires Valid()
      modifies this, sat, yld, rounds
      ensures Valid() && View() == Update(old(View()), m, cap, n)
    {
      hide Enter, Moved, Promote, Demote;
      if m < 0 { return; }
      var md := if m > 7 then 7 else m;
      var hit := n >= md + 1;
      Count(md, hit);
      if md < kMax && sat[md] >= (if md >= 6 then tune.hi7 else if md >= 5 then tune.hi6 else tune.hi) {
        GoUp(md);
        return;
      }
      if md >= 6 {
        fired := Moved(tune.ema, fired, cap >= md);
        if fired < (if md == 6 then tune.flo6 else tune.flo7) {
          GoDown(md);
          return;
        }
      }
      if md > K_MIN && cap >= md {
        MoveYield(md, hit);
        if yld[md] < tune.lo { GoDown(md); }
      }
    }
  }

  // ------------------------------------------------------------------ all runs

  ghost predicate Unit(x: real) { 0.0 <= x <= 1.0 }

  /** A weight between 0 and 1 and no negative demote bar. */
  ghost predicate Sane(t: Tuning) {
    Unit(t.ema) && t.lo >= 0.0 && t.flo6 >= 0.0 && t.flo7 >= 0.0
  }

  /** What is left of an average's start after `n` rounds that all moved it away. */
  function Decay(ema: real, n: nat): real {
    if n == 0 then 1.0 else Times(Decay(ema, n - 1), 1.0 - ema)
  }

  function Larger(x: real, y: real): real { if x < y then y else x }

  /** How little of its start an average must have kept before it can cross a bar. */
  function Slack(t: Tuning): real {
    Larger(0.5, Larger(Larger(t.lo, Larger(t.flo6, t.flo7)), Larger(1.0 - t.hi, Larger(1.0 - t.hi6, 1.0 - t.hi7))))
  }

  /** The controller and how many gated rounds it has spent at its ceiling. */
  datatype Aged = Aged(c: Ctl, age: nat)

  datatype Action = Restart | Ungated | Gated(cap: int, n: int)

  function Act(a: Aged, x: Action): (b: Aged)
    requires Shaped(a.c)
    ensures Shaped(b.c) && b.c.tune == a.c.tune && b.c.kMax == a.c.kMax
  {
    match x
    case Restart => Aged(Fresh(a.c.tune, a.c.kMax), 0)
    case Ungated => Aged(Update(a.c, -1, 0, 0), a.age)
    case Gated(cap, n) =>
      var c := Update(a.c, a.c.cur, cap, n);
      Aged(c, if c.cur != a.c.cur then 0 else a.age + 1)
  }

  function Run(tune: Tuning, kMax: nat, actions: seq<Action>): (a: Aged)
    requires K_MIN <= kMax <= 7
    ensures Shaped(a.c) && a.c.tune == tune && a.c.kMax == kMax
  {
    if actions == [] then Aged(Fresh(tune, kMax), 0)
    else Act(Run(tune, kMax, actions[..|actions| - 1]), actions[|actions| - 1])
  }

  /** The ceiling is on the ladder and the counters account for it. */
  predicate OnLadder(c: Ctl) {
    Shaped(c) && K_MIN <= c.cur <= c.kMax && c.promotes - c.demotes == c.cur - K_MIN
  }

  ghost predicate Averages(c: Ctl)
    requires Shaped(c)
  {
    (forall i :: 0 <= i < 8 ==> Unit(c.sat[i]) && Unit(c.yld[i])) && Unit(c.fired)
  }

  ghost predicate Kept(c: Ctl) {
    OnLadder(c) && Sane(c.tune) && Averages(c)
  }

  /** The averages of the live level cannot have moved further than `d` allows. */
  predicate Within(c: Ctl, d: real)
    requires Shaped(c) && c.cur < 8
  {
    && c.sat[c.cur] <= 1.0 - d
    && c.yld[c.cur] >= Times(AtMostOne(2.0 * c.tune.lo), d)
    && (c.cur >= 6 ==> c.fired >= Times(AtMostOne(2.0 * FiredBar(c.tune, c.cur)), d))
  }

  ghost predicate Inv(a: Aged) {
    Kept(a.c) && Within(a.c, Decay(a.c.tune.ema, a.age))
  }

  /** One round at the ceiling keeps the ladder, whatever the tuning. */
  lemma LadderKeeps(c: Ctl, cap: int, n: int)
    requires OnLadder(c)
    ensures var u := Update(c, c.cur, cap, n);
      OnLadder(u) && (u.cur == c.cur || u.cur == c.cur + 1 || u.cur == c.cur - 1)
  {
    hide Moved;
  }

  lemma NonNegative(x: real, y: real)
    requires x >= 0.0 && y >= 0.0
    ensures Times(x, y) >= 0.0
  {}

  lemma MovedUnit(ema: real, x: real, seen: bool)
    requires Unit(x) && Unit(ema)
    ensures var y := Moved(ema, x, seen);
      Unit(y) && y >= Times(x, 1.0 - ema) && 1.0 - y >= Times(1.0 - x, 1.0 - ema)
  {
    NonNegative(x, ema);
    NonNegative(1.0 - x, ema);
    NonNegative(x, 1.0 - ema);
    NonNegative(1.0 - x, 1.0 - ema);
  }

  /** Scaling the bound along with the average; the bound only shrinks. */
  lemma Scaled(x: real, m: real, d: real, f: real)
    requires x >= Times(m, d) && Unit(f) && m >= 0.0 && d >= 0.0
    ensures Times(x, f) >= Times(m, Times(d, f)) && Times(m, Times(d, f)) <= Times(m, d) && Times(d, f) >= 0.0
  {
    NonNegative(x - m * d, f);
    NonNegative(d, f);
    NonNegative(d, 1.0 - f);
    NonNegative(m, d * (1.0 - f));
  }

  /** Entering a level starts its averages where only time can move them out. */
  lemma EnterKeeps(c: Ctl, k: nat)
    requires Kept(c) && K_MIN <= k <= c.kMax
    ensures Within(Enter(c, k), 1.0)
    ensures k == c.cur + 1 ==> Kept(Promote(c, c.cur)) && Within(Promote(c, c.cur), 1.0)
    ensures c.cur == k + 1 ==> Kept(Demote(c, c.cur)) && Within(Demote(c, c.cur), 1.0)
  {}

  /** The three averages after a round. */
  lemma MovesKeep(c: Ctl, d: real, cap: int, hit: bool)
    requires Kept(c) && Within(c, d) && d >= 0.0
    ensures var md := c.cur; var d' := Times(d, 1.0 - c.tune.ema);
      var c1 := Counted(c, md, hit); var c2 := Deep(c1, md, cap); var c3 := Yielded(c2, md, cap, hit);
      && Kept(c1) && Kept(c2) && Kept(c3) && Within(c3, d')
      && c1.sat[md] <= 1.0 - d'
      && (md >= 6 ==> c2.fired >= Times(AtMostOne(2.0 * FiredBar(c.tune, md)), d'))
      && c3.yld[md] >= Times(AtMostOne(2.0 * c.tune.lo), d')
  {
    var md, e := c.cur, c.tune.ema;
    MovedUnit(e, c.sat[md], hit);
    MovedUnit(e, c.yld[md], hit);
    MovedUnit(e, c.fired, cap >= md);
    TimesOne(d);
    TimesOne(Times(d, 1.0 - e));
    Scaled(1.0 - c.sat[md], 1.0, d, 1.0 - e);
    Scaled(c.yld[md], AtMostOne(2.0 * c.tune.lo), d, 1.0 - e);
    if md >= 6 { Scaled(c.fired, AtMostOne(2.0 * FiredBar(c.tune, md)), d, 1.0 - e); }
    hide Moved, AtMostOne, FiredBar, Times;
  }

  lemma TimesOne(x: real)
    ensures Times(1.0, x) == x == Times(x, 1.0)
  {}

  /** An average seeded at twice its bar falls below the bar only after half is gone. */
  lemma BelowBar(bar: real, x: real, d: real)
    requires bar >= 0.0 && x >= Times(AtMostOne(2.0 * bar), d) && x < bar
    ensures d <= Larger(0.5, bar)
  {
    if 2.0 * bar <= 1.0 && d > 0.5 {
      NonNegative(bar, d - 0.5);
    }
  }

  /** A round that changes the ceiling shows that the averages could move that far. */
  lemma UpdateKeeps(c: Ctl, d: real, cap: int, n: int)
    requires Kept(c) && Within(c, d) && d >= 0.0
    ensures var u := Update(c, c.cur, cap, n);
      && Kept(u)
      && (if u.cur == c.cur then Within(u, Times(d, 1.0 - c.tune.ema))
          else Within(u, 1.0) && Times(d, 1.0 - c.tune.ema) <= Slack(c.tune))
  {
    hide Counted, Deep, Yielded, Promote, Demote, Within, Kept, AtMostOne, Times;
    var md, hit := c.cur, n >= c.cur + 1;
    var d' := Times(d, 1.0 - c.tune.ema);
    KeptRange(c);
    MovesKeep(c, d, cap, hit);
    SameLevel(c, md, cap, hit);
    var c1 := Counted(c, md, hit);
    var c2 := Deep(c1, md, cap);
    var c3 := Yielded(c2, md, cap, hit);
    if md < c.kMax && c1.sat[md] >= PromoteBar(c.tune, md) {
      EnterKeeps(c1, md + 1);
      Levels(c1, md);
    } else if TooRarelyDeep(c2, md) {
      BelowBar(FiredBar(c.tune, md), c2.fired, d');
      EnterKeeps(c2, md - 1);
      Levels(c2, md);
    } else if YieldsTooLittle(c3, md, cap) {
      BelowBar(c.tune.lo, c3.yld[md], d');
      EnterKeeps(c3, md - 1);
      Levels(c3, md);
    }
  }

  /** The ceiling moves one level at a time, and only after so many gated rounds at it
      that an average can have lost all but the slack its bars leave. */
  lemma ChangeNeedsDecay(a: Aged, cap: int, n: int)
    requires Inv(a)
    ensures var b := Act(a, Gated(cap, n));
      && Inv(b)
      && (b.c.cur != a.c.cur ==>
            && Decay(a.c.tune.ema, a.age + 1) <= Slack(a.c.tune)
            && (b.c.cur == a.c.cur + 1 || b.c.cur == a.c.cur - 1))
  {
    var e := a.c.tune.ema;
    assert Unit(e) && Decay(e, 0) == 1.0 && Decay(e, a.age + 1) == Times(Decay(e, a.age), 1.0 - e);
    DecayFalls(e, a.age);
    TuneStays(a.c, cap, n);
    LadderKeeps(a.c, cap, n);
    hide Decay, Update, Within, Kept, Slack, Times;
    KeptRange(a.c);
    UpdateKeeps(a.c, Decay(e, a.age), cap, n);
  }

  lemma TuneStays(c: Ctl, cap: int, n: int)
    requires Shaped(c) && c.cur < 8
    ensures Update(c, c.cur, cap, n).tune == c.tune
  {
    hide Moved;
  }

  lemma KeptRange(c: Ctl)
    requires Kept(c)
    ensures Shaped(c) && K_MIN <= c.cur <= c.kMax && Sane(c.tune) && OnLadder(c)
  {}

  lemma SameLevel(c: Ctl, md: nat, cap: int, hit: bool)
    requires Shaped(c) && md < 8
    ensures var c1 := Counted(c, md, hit); var c2 := Deep(c1, md, cap); var c3 := Yielded(c2, md, cap, hit);
      && Shaped(c1) && Shaped(c2) && Shaped(c3)
      && c1.cur == c2.cur == c3.cur == c.cur && c1.kMax == c2.kMax == c3.kMax == c.kMax
      && c1.tune == c2.tune == c3.tune == c.tune
  {}

  lemma Levels(c: Ctl, md: nat)
    requires Shaped(c) && 0 < md < 8
    ensures md < 7 ==> Promote(c, md).cur == md + 1
    ensures Demote(c, md).cur == md - 1
  {}

  /** On every run, for every tuning, the ceiling stays on the ladder and the counters
      balance; for a sane tuning the averages stay in [0, 1] and no further from their
      start than the rounds at the ceiling allow. */
  lemma {:induction false} RunKeeps(tune: Tuning, kMax: nat, actions: seq<Action>)
    requires K_MIN <= kMax <= 7
    ensures OnLadder(Run(tune, kMax, actions).c)
    ensures Sane(tune) ==> Inv(Run(tune, kMax, actions))
  {
    if actions == [] {
      FreshKeeps(tune, kMax);
    } else {
      RunKeeps(tune, kMax, actions[..|actions| - 1]);
      var a := Run(tune, kMax, actions[..|actions| - 1]);
      hide Run;
      match actions[|actions| - 1] {
        case Gated(cap, n) =>
          LadderKeeps(a.c, cap, n);
          if Sane(tune) { ChangeNeedsDecay(a, cap, n); }
        case Restart => FreshKeeps(tune, kMax);
        case Ungated =>
      }
    }
  }

  lemma FreshKeeps(tune: Tuning, kMax: nat)
    requires K_MIN <= kMax <= 7
    ensures OnLadder(Fresh(tune, kMax)) && (Sane(tune) ==> Inv(Aged(Fresh(tune, kMax), 0)))
  {}

  // ------------------------------------------------------------- eleven rounds

  lemma {:induction false} DecayFalls(ema: real, n: nat)
    requires Unit(ema)
    ensures 0.0 <= Decay(ema, n) <= 1.0
  {
    if n > 0 {
      DecayFalls(ema, n - 1);
      NonNegative(Decay(ema, n - 1), 1.0 - ema);
      NonNegative(Decay(ema, n - 1), ema);
    }
  }

  /** Half is left after ten rounds, but not after eleven. */
  lemma DecayAtTen()
    ensures var e := SHIPPED.ema; Decay(e, 10) > 0.5 && Decay(e, 11) < 0.5
  {
    var e := SHIPPED.ema;
    assert Decay(e, 2) == 225.0 / 256.0;
    assert Decay(e, 4) == 50625.0 / 65536.0;
    assert Decay(e, 6) == 11390625.0 / 16777216.0;
    assert Decay(e, 8) == 2562890625.0 / 4294967296.0;
    assert Decay(e, 10) == 576650390625.0 / 1099511627776.0;
  }

  lemma {:induction false} DecayMonotone(ema: real, i: nat, j: nat)
    requires i <= j && Unit(ema)
    ensures Decay(ema, j) <= Decay(ema, i)
    decreases j - i
  {
    if i < j {
      DecayMonotone(ema, i, j - 1);
      DecayFalls(ema, j - 1);
      NonNegative(Decay(ema, j - 1), ema);
    }
  }

  /** A smaller weight forgets more slowly. */
  lemma {:induction false} DecaySlower(ema: real, faster: real, n: nat)
    requires 0.0 <= ema <= faster <= 1.0
    ensures Decay(faster, n) <= Decay(ema, n)
  {
    if n > 0 {
      DecaySlower(ema, faster, n - 1);
      DecayFalls(ema, n - 1);
      var x, y := Decay(faster, n - 1), Decay(ema, n - 1);
      hide Decay;
      NonNegative(y - x, 1.0 - faster);
      NonNegative(y, faster - ema);
    }
  }

  /** With the shipped weight or a smaller one, and bars that leave no more than half,
      the ceiling does not change before the eleventh gated round at it. */
  lemma ChangeNeedsEleven(a: Aged, cap: int, n: int)
    requires Inv(a) && a.c.tune.ema <= SHIPPED.ema && Slack(a.c.tune) <= 0.5
    ensures Act(a, Gated(cap, n)).c.cur != a.c.cur ==> a.age + 1 >= 11
  {
    ChangeNeedsDecay(a, cap, n);
    if a.age + 1 <= 10 {
      DecayMonotone(a.c.tune.ema, a.age + 1, 10);
      DecaySlower(a.c.tune.ema, SHIPPED.ema, 10);
      DecayAtTen();
    }
  }

  lemma ShippedLeavesHalf()
    ensures Sane(SHIPPED) && Slack(SHIPPED) == 0.5
  {}

  function Rounds(n: nat, cap: int, k: int): seq<Action> { seq(n, _ => Gated(cap, k)) }

  /** Eleven is exact: full acceptance from a reset promotes on the eleventh round. */
  lemma {:induction false} ElevenSuffice(kMax: nat, n: nat)
    requires 5 <= kMax <= 7 && n <= 11
    ensures var a := Run(SHIPPED, kMax, Rounds(n, 0, 5));
      if n == 11 then a.c.cur == 5 else a.c.cur == 4 && a.c.sat[4] == 1.0 - Decay(SHIPPED.ema, n)
  {
    if n > 0 {
      ElevenSuffice(kMax, n - 1);
      assert Rounds(n, 0, 5)[..n - 1] == Rounds(n - 1, 0, 5);
      DecayAtTen();
      DecayMonotone(SHIPPED.ema, n, if n <= 10 then 10 else n);
    }
  }
}
