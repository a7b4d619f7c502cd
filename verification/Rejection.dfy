/** Speculative decoding by rejection, exact: the walk emits as ancestral sampling would. */
module Rejection {
  import opened Sampling

  // Probability is the length of the draws that lead to an outcome: every draw is a
  // number of [0,1), and each outcome's draws form a box.

  /** A 32-bit token id read back as a signed number. */
  function ToInt32(t: nat): int {
    if t < 0x8000_0000 then t else t - 0x1_0000_0000
  }

  const NO_EXCLUDE := -1

  predicate Excluded(t: nat, exclude: int) {
    exclude >= 0 && ToInt32(t) == exclude
  }

  /** The mass in front of slot `i`, the excluded token left out. */
  function Cum(d: Dist, exclude: int, i: nat): real
    requires |d.tokens| == |d.weights| && i <= |d.tokens|
  {
    if i == 0 then 0.0
    else Cum(d, exclude, i - 1) + if Excluded(d.tokens[i - 1], exclude) then 0.0 else d.weights[i - 1]
  }

  function Residual(d: Dist, exclude: int): real
    requires |d.tokens| == |d.weights|
  {
    Cum(d, exclude, |d.tokens|)
  }

  /** Walk along the slots until the draw is used up. */
  function Pick(d: Dist, exclude: int, i: nat, draw: real): (r: Result<nat>)
    requires |d.tokens| == |d.weights| && i <= |d.tokens|
    decreases |d.tokens| - i
  {
    if i == |d.tokens| then Err("past the end")
    else if Excluded(d.tokens[i], exclude) then Pick(d, exclude, i + 1, draw)
    else if draw - d.weights[i] <= 0.0 then Ok(d.tokens[i])
    else Pick(d, exclude, i + 1, draw - d.weights[i])
  }

  /** The last slot that is not excluded. */
  function LastAllowed(d: Dist, exclude: int, i: nat): Result<nat>
    requires i <= |d.tokens|
  {
    if i == 0 then Err("no non-excluded token")
    else if exclude < 0 || ToInt32(d.tokens[i - 1]) != exclude then Ok(d.tokens[i - 1])
    else LastAllowed(d, exclude, i - 1)
  }

  /** Quotients of masses, kept as a name in the longer proofs. */
  function Fraction(a: real, r: real): real
    requires r != 0.0
  {
    a / r
  }

  /** A draw of [0,total), from a draw of [0,1). */
  function UniformDraw(u: real, total: real): real {
    u * total
  }

  /** Sampling from a served distribution with the draw `u` of [0,1). */
  function SampleServed(d: Dist, u: real, exclude: int): Result<nat>
    requires |d.tokens| == |d.weights|
  {
    if d.tokens == [] then Err("empty served distribution")
    else
      var total := Residual(d, exclude);
      if !(total > 0.0) then
        if exclude >= 0 then Err("empty residual after excluding draft from nucleus") else Ok(d.argmax)
      else
        var r := Pick(d, exclude, 0, UniformDraw(u, total));
        if r.Ok? then r else LastAllowed(d, exclude, |d.tokens|)
  }

  function IndexOf(t: seq<nat>, x: nat): (i: nat)
    ensures i <= |t| && (i < |t| ==> t[i] == x) && forall j :: 0 <= j < i ==> t[j] != x
  {
    if t == [] || t[0] == x then 0 else 1 + IndexOf(t[1..], x)
  }

  /** The probability with which `token` is served. */
  function ServedProbability(d: Dist, token: nat): real
    requires |d.tokens| == |d.weights|
  {
    if !(d.total > 0.0) then 0.0
    else
      var i := IndexOf(d.tokens, token);
      if i < |d.tokens| then d.weights[i] / d.total else 0.0
  }

  // ---------------------------------------------- every list, every draw

  /** The token of slot `k` is the last one that is not excluded. */
  ghost predicate LastLeft(d: Dist, exclude: int, n: nat, k: nat) {
    k < n <= |d.tokens| && !Excluded(d.tokens[k], exclude) && forall j :: k < j < n ==> Excluded(d.tokens[j], exclude)
  }

  lemma {:induction false} LastAllowedIs(d: Dist, exclude: int, i: nat) returns (k: nat)
    requires i <= |d.tokens|
    ensures LastAllowed(d, exclude, i).Err? ==> forall j :: 0 <= j < i ==> Excluded(d.tokens[j], exclude)
    ensures LastAllowed(d, exclude, i).Ok? ==> LastLeft(d, exclude, i, k) && LastAllowed(d, exclude, i).value == d.tokens[k]
  {
    k := 0;
    if i > 0 {
      if Excluded(d.tokens[i - 1], exclude) { k := LastAllowedIs(d, exclude, i - 1); } else { k := i - 1; }
    }
  }

  lemma {:induction false} NothingLeft(d: Dist, exclude: int, i: nat)
    requires |d.tokens| == |d.weights| && i <= |d.tokens| && forall j :: 0 <= j < i ==> Excluded(d.tokens[j], exclude)
    ensures Cum(d, exclude, i) == 0.0
  {
    if i > 0 { NothingLeft(d, exclude, i - 1); }
  }

  lemma {:induction false} PickedIsLeft(d: Dist, exclude: int, i: nat, draw: real)
    requires |d.tokens| == |d.weights| && i <= |d.tokens|
    ensures var r := Pick(d, exclude, i, draw); r.Ok? ==> r.value in d.tokens && !Excluded(r.value, exclude)
    decreases |d.tokens| - i
  {
    if i < |d.tokens| {
      PickedIsLeft(d, exclude, i + 1, draw);
      PickedIsLeft(d, exclude, i + 1, draw - d.weights[i]);
    }
  }

  /** Whatever the list and the draw: sampling fails exactly on an empty list, or when a
      token is excluded and no mass is left; it never gives the excluded token, it gives
      the first token of all only for a list without mass, and a draw that runs past the
      end gives the last token left. */
  lemma SampledExactly(d: Dist, u: real, exclude: int) returns (k: nat)
    requires |d.tokens| == |d.weights|
    ensures var r, left := SampleServed(d, u, exclude), Residual(d, exclude);
      && (r.Err? <==> d.tokens == [] || (exclude >= 0 && left <= 0.0))
      && (r.Ok? && left <= 0.0 ==> r.value == d.argmax)
      && (r.Ok? && left > 0.0 ==> r.value in d.tokens && !Excluded(r.value, exclude))
      && (r.Ok? && left > 0.0 && Pick(d, exclude, 0, UniformDraw(u, left)).Err? ==>
            LastLeft(d, exclude, |d.tokens|, k) && r.value == d.tokens[k])
  {
    hide Pick, UniformDraw, LastAllowed;
    k := LastAllowedIs(d, exclude, |d.tokens|);
    if LastAllowed(d, exclude, |d.tokens|).Err? { NothingLeft(d, exclude, |d.tokens|); }
    PickedIsLeft(d, exclude, 0, UniformDraw(u, Residual(d, exclude)));
  }

  // ------------------------------------------- one draw selects by intervals

  predicate Ids(t: seq<nat>) {
    forall i :: 0 <= i < |t| ==> t[i] < 0x8000_0000
  }

  lemma {:induction false} CumMonotone(d: Dist, exclude: int, i: nat, j: nat)
    requires WellFormed(d) && i <= j <= |d.tokens|
    ensures 0.0 <= Cum(d, exclude, i) <= Cum(d, exclude, j)
    decreases j
  {
    if j == 0 {
    } else if i < j {
      CumMonotone(d, exclude, i, j - 1);
    } else {
      CumMonotone(d, exclude, j - 1, j - 1);
    }
  }

  lemma {:induction false} PickLands(d: Dist, exclude: int, i: nat, x: real) returns (j: nat)
    requires WellFormed(d) && i <= |d.tokens| && Cum(d, exclude, i) < x <= Residual(d, exclude)
    ensures i <= j < |d.tokens| && !Excluded(d.tokens[j], exclude)
    ensures Cum(d, exclude, j) < x <= Cum(d, exclude, j + 1)
    ensures Pick(d, exclude, i, x - Cum(d, exclude, i)) == Ok(d.tokens[j])
    decreases |d.tokens| - i
  {
    if Excluded(d.tokens[i], exclude) || x > Cum(d, exclude, i + 1) {
      j := PickLands(d, exclude, i + 1, x);
    } else {
      j := i;
    }
  }

  datatype Interval = Interval(lo: real, hi: real)

  function Length(iv: Interval): real { iv.hi - iv.lo }

  /** Open below and closed above; the draw 0 belongs to the first interval that is
      not empty. */
  predicate Inside(u: real, iv: Interval) { iv.lo < u <= iv.hi || u == 0.0 == iv.lo < iv.hi }

  /** The draws that select `token`. */
  function Draws(d: Dist, exclude: int, token: nat): Interval
    requires |d.tokens| == |d.weights|
  {
    var i, r := IndexOf(d.tokens, token), Residual(d, exclude);
    if i == |d.tokens| || Excluded(token, exclude) || r == 0.0 then Interval(0.0, 0.0)
    else Interval(Fraction(Cum(d, exclude, i), r), Fraction(Cum(d, exclude, i + 1), r))
  }

  lemma DivOrder(a: real, b: real, r: real)
    requires r > 0.0
    ensures a < b * r <==> a / r < b
    ensures b * r <= a <==> b <= a / r
  {
    assert (a / r) * r == a;
  }

  /** Slot `j` uses the draw `x` up. */
  predicate Lands(d: Dist, exclude: int, j: nat, x: real)
    requires |d.tokens| == |d.weights| && j < |d.tokens|
  {
    || Cum(d, exclude, j) < x <= Cum(d, exclude, j + 1)
    || x == 0.0 == Cum(d, exclude, j) < Cum(d, exclude, j + 1)
  }

  /** Where a draw lands. */
  lemma SampleLands(d: Dist, exclude: int, u: real) returns (j: nat)
    requires WellFormed(d) && 0.0 <= u < 1.0 && Residual(d, exclude) > 0.0
    ensures j < |d.tokens| && !Excluded(d.tokens[j], exclude)
    ensures SampleServed(d, u, exclude) == Ok(d.tokens[j])
    ensures Lands(d, exclude, j, UniformDraw(u, Residual(d, exclude)))
  {
    hide UniformDraw;
    var r := Residual(d, exclude);
    ScaledDraw(u, r);
    var x := UniformDraw(u, r);
    if u == 0.0 {
      j := ZeroLands(d, exclude, 0);
    } else {
      j := PickLands(d, exclude, 0, x);
    }
    assert x - Cum(d, exclude, 0) == x;
  }

  /** The draw 0 lands on the first allowed token. */
  lemma {:induction false} ZeroLands(d: Dist, exclude: int, i: nat) returns (j: nat)
    requires WellFormed(d) && i <= |d.tokens| && Residual(d, exclude) > Cum(d, exclude, i) == 0.0
    ensures i <= j < |d.tokens| && !Excluded(d.tokens[j], exclude)
    ensures 0.0 == Cum(d, exclude, j) < Cum(d, exclude, j + 1)
    ensures Pick(d, exclude, i, 0.0) == Ok(d.tokens[j])
    decreases |d.tokens| - i
  {
    if Excluded(d.tokens[i], exclude) { j := ZeroLands(d, exclude, i + 1); } else { j := i; }
  }

  lemma ScaledDraw(u: real, r: real)
    requires 0.0 <= u < 1.0 && r > 0.0
    ensures 0.0 <= UniformDraw(u, r) <= r && (u == 0.0 <==> UniformDraw(u, r) == 0.0)
  {
    assert (1.0 - u) * r > 0.0;
    if u > 0.0 { assert u * r > 0.0; }
  }

  lemma InsideExactly(d: Dist, exclude: int, u: real, token: nat)
    requires WellFormed(d) && 0.0 <= u < 1.0 && Residual(d, exclude) > 0.0
    ensures var i := IndexOf(d.tokens, token);
      Inside(u, Draws(d, exclude, token)) <==>
      i < |d.tokens| && !Excluded(token, exclude) && Lands(d, exclude, i, UniformDraw(u, Residual(d, exclude)))
  {
    hide Excluded, Cum;
    var i, r := IndexOf(d.tokens, token), Residual(d, exclude);
    if i < |d.tokens| {
      var a, b := Cum(d, exclude, i), Cum(d, exclude, i + 1);
      CumMonotone(d, exclude, i, i + 1);
      DivOrder(a, u, r);
      DivOrder(b, u, r);
      DivOrder(a, 0.0, r);
      DivOrder(b, 0.0, r);
      ScaledDraw(u, r);
    }
  }

  /** A draw lands in one slot only. */
  lemma LandsOnce(d: Dist, exclude: int, i: nat, j: nat, x: real)
    requires WellFormed(d) && i < |d.tokens| && j < |d.tokens| && Lands(d, exclude, i, x) && Lands(d, exclude, j, x)
    ensures i == j
  {
    hide Cum;
    CumMonotone(d, exclude, i, i + 1);
    CumMonotone(d, exclude, j, j + 1);
    if i < j { CumMonotone(d, exclude, i + 1, j); }
    if j < i { CumMonotone(d, exclude, j + 1, i); }
  }

  /** Sampling selects a token exactly by the draws of its interval, and never fails. */
  lemma SampleSelects(d: Dist, exclude: int, u: real, token: nat)
    requires WellFormed(d) && 0.0 <= u < 1.0 && Residual(d, exclude) > 0.0
    ensures SampleServed(d, u, exclude).Ok?
    ensures SampleServed(d, u, exclude) == Ok(token) <==> Inside(u, Draws(d, exclude, token))
  {
    hide SampleServed, UniformDraw, Draws, Residual, Cum, Excluded, Lands;
    var x := UniformDraw(u, Residual(d, exclude));
    var j := SampleLands(d, exclude, u);
    InsideExactly(d, exclude, u, token);
    var i := IndexOf(d.tokens, token);
    if i < |d.tokens| && Lands(d, exclude, i, x) { LandsOnce(d, exclude, i, j, x); }
  }

  // ------------------------------------------------------ masses of intervals

  /** Excluding a token takes its weight out of the mass, nothing else. */
  lemma {:induction false} CumExcluding(d: Dist, token: nat, i: nat)
    requires WellFormed(d) && Ids(d.tokens) && token < 0x8000_0000 && i <= |d.tokens|
    ensures Cum(d, NO_EXCLUDE, i) == Sum(d.weights[..i])
    ensures var k := IndexOf(d.tokens, token);
      Cum(d, ToInt32(token), i) == Sum(d.weights[..i]) - if k < i then d.weights[k] else 0.0
  {
    if i == 0 {
      assert d.weights[..0] == [];
    } else {
      CumExcluding(d, token, i - 1);
      assert d.weights[..i][..i - 1] == d.weights[..i - 1];
      var k := IndexOf(d.tokens, token);
      if d.tokens[i - 1] == token { assert k == i - 1; }
    }
  }

  /** A served probability as a share of the whole. */
  lemma ServedShare(d: Dist, token: nat)
    requires WellFormed(d)
    ensures d.total > 0.0 && 0.0 <= ServedProbability(d, token) <= 1.0
    ensures var k := IndexOf(d.tokens, token);
      Times(d.total, ServedProbability(d, token)) == if k < |d.tokens| then d.weights[k] else 0.0
  {
    var n, k := |d.tokens|, IndexOf(d.tokens, token);
    SumPositive(d.weights);
    if k < n {
      WeightFits(d.weights, k);
      Share(d.weights[k], d.total);
    }
  }

  lemma {:induction false} WeightFits(w: seq<real>, k: nat)
    requires k < |w| && forall i :: 0 <= i < |w| ==> w[i] > 0.0
    ensures 0.0 < w[k] <= Sum(w)
  {
    if k < |w| - 1 {
      WeightFits(w[..|w| - 1], k);
    } else if |w| > 1 {
      SumPositive(w[..|w| - 1]);
    } else {
      assert w[..0] == [];
    }
  }

  lemma ResidualMass(d: Dist, token: nat)
    requires WellFormed(d) && Ids(d.tokens) && token < 0x8000_0000
    ensures Residual(d, NO_EXCLUDE) == d.total > 0.0
    ensures Residual(d, ToInt32(token)) == Times(d.total, 1.0 - ServedProbability(d, token)) >= 0.0
    ensures ServedProbability(d, token) < 1.0 ==> Residual(d, ToInt32(token)) > 0.0
  {
    hide ServedProbability, Cum, Times, IndexOf;
    var n, p := |d.tokens|, ServedProbability(d, token);
    CumExcluding(d, token, n);
    assert d.weights[..n] == d.weights;
    ServedShare(d, token);
    LeftOver(d.total, p);
  }

  lemma LeftOver(total: real, p: real)
    requires total > 0.0 && 0.0 <= p <= 1.0
    ensures total - Times(total, p) == Times(total, 1.0 - p) >= 0.0
    ensures p < 1.0 ==> Times(total, 1.0 - p) > 0.0
  {}

  lemma Share(w: real, total: real)
    requires total > 0.0 && 0.0 <= w <= total
    ensures total * (w / total) == w && 0.0 <= w / total <= 1.0
  {
    assert (w / total) * total == w;
    DivOrder(w, 1.0, total);
    DivOrder(w, 0.0, total);
  }

  /** The draws of a token make up its share of the residual mass. */
  lemma DrawsLength(d: Dist, exclude: int, token: nat)
    requires WellFormed(d) && Residual(d, exclude) > 0.0 && !Excluded(token, exclude)
    ensures var iv := Draws(d, exclude, token);
      && 0.0 <= iv.lo <= iv.hi <= 1.0
      && Times(Length(iv), Residual(d, exclude)) == Times(d.total, ServedProbability(d, token))
  {
    hide ServedProbability, Excluded, Residual, Cum, Times, Fraction, IndexOf, Sum, NoRepeats;
    ServedShare(d, token);
    ResidualIsCum(d, exclude);
    var r, i := Residual(d, exclude), IndexOf(d.tokens, token);
    if i < |d.tokens| {
      CumMonotone(d, exclude, i, i + 1);
      CumMonotone(d, exclude, i + 1, |d.tokens|);
      CumStep(d, exclude, i);
      CumMonotone(d, exclude, 0, i);
      Distribute(Cum(d, exclude, i), Cum(d, exclude, i + 1), r);
    } else {
      TimesZero(r);
    }
  }

  lemma TimesZero(r: real)
    ensures Times(0.0, r) == 0.0
  {}

  lemma ResidualIsCum(d: Dist, exclude: int)
    requires |d.tokens| == |d.weights|
    ensures Residual(d, exclude) == Cum(d, exclude, |d.tokens|)
  {}

  lemma CumStep(d: Dist, exclude: int, i: nat)
    requires WellFormed(d) && i < |d.tokens| && !Excluded(d.tokens[i], exclude)
    ensures Cum(d, exclude, i + 1) - Cum(d, exclude, i) == d.weights[i]
  {}

  lemma Distribute(a: real, b: real, r: real)
    requires r > 0.0 && 0.0 <= a <= b <= r
    ensures Times(Fraction(b, r) - Fraction(a, r), r) == b - a && 0.0 <= Fraction(a, r) <= Fraction(b, r) <= 1.0
  {
    Share(a, r);
    Share(b, r);
    DivOrder(a, b / r, r);
  }

  // --------------------------------------------------------- the lane walk

  /** How many drafts are accepted: each lane accepts when its draw falls below the
      probability its draft is served with. */
  function Accepted(lanes: seq<Dist>, drafts: seq<nat>, us: seq<real>, k: nat): (n: nat)
    requires |drafts| + 1 == |lanes| && |us| == |drafts| && k <= |drafts|
    requires forall i :: 0 <= i < |lanes| ==> |lanes[i].tokens| == |lanes[i].weights|
    ensures k <= n <= |drafts|
    ensures forall i :: k <= i < n ==> us[i] < ServedProbability(lanes[i], drafts[i])
    ensures n < |drafts| ==> us[n] >= ServedProbability(lanes[n], drafts[n])
    decreases |drafts| - k
  {
    if k < |drafts| && us[k] < ServedProbability(lanes[k], drafts[k]) then Accepted(lanes, drafts, us, k + 1) else k
  }

  /** The walk's result: accepted drafts, the rejected draft if any, the next token. */
  datatype Walked = Walked(n: nat, stopLane: nat, exclude: int, pending: nat)

  function Walk(lanes: seq<Dist>, drafts: seq<nat>, us: seq<real>, v: real): Result<Walked>
    requires |drafts| + 1 == |lanes| && |us| == |drafts|
    requires forall i :: 0 <= i < |lanes| ==> |lanes[i].tokens| == |lanes[i].weights|
  {
    var k := Accepted(lanes, drafts, us, 0);
    var exclude := if k < |drafts| then ToInt32(drafts[k]) else NO_EXCLUDE;
    match SampleServed(lanes[k], v, exclude)
    case Ok(t) => Ok(Walked(k + 1, k, exclude, t))
    case Err(e) => Err(e)
  }

  /** What the walk commits after the token that was pending: the accepted drafts and
      the newly drawn token. */
  function Emitted(drafts: seq<nat>, w: Walked): seq<nat>
    requires w.stopLane <= |drafts|
  {
    drafts[..w.stopLane] + [w.pending]
  }

  /** Ancestral sampling draws `x` lane by lane from the served distributions. */
  function Ancestral(lanes: seq<Dist>, x: seq<nat>): real
    requires |x| <= |lanes|
    requires forall i :: 0 <= i < |lanes| ==> |lanes[i].tokens| == |lanes[i].weights|
  {
    if x == [] then 1.0
    else Times(Ancestral(lanes, x[..|x| - 1]), ServedProbability(lanes[|x| - 1], x[|x| - 1]))
  }

  /** The sequences the walk can emit: drafts up to some lane, then another token, or
      all drafts and any token. */
  predicate Emittable(drafts: seq<nat>, x: seq<nat>) {
    && 0 < |x| <= |drafts| + 1
    && x[..|x| - 1] == drafts[..|x| - 1]
    && (|x| <= |drafts| ==> x[|x| - 1] != drafts[|x| - 1])
  }

  /** A box of draws: one interval for every draw that matters. */
  datatype Box = Box(accept: seq<real>, reject: real, pending: Interval)

  /** The draws under which the walk emits `x`. */
  function BoxOf(lanes: seq<Dist>, drafts: seq<nat>, x: seq<nat>): Box
    requires Emittable(drafts, x) && |lanes| == |drafts| + 1
    requires forall i :: 0 <= i < |lanes| ==> |lanes[i].tokens| == |lanes[i].weights|
  {
    var k := |x| - 1;
    Box(seq(k, i requires 0 <= i < k => ServedProbability(lanes[i], drafts[i])),
        if k < |drafts| then ServedProbability(lanes[k], drafts[k]) else 0.0,
        Draws(lanes[k], if k < |drafts| then ToInt32(drafts[k]) else NO_EXCLUDE, x[k]))
  }

  /** Draws below the bound accept, draws from the bound on reject, the last draw falls
      into the interval of the pending token. */
  predicate InBox(b: Box, us: seq<real>, v: real) {
    && |b.accept| <= |us|
    && (forall i :: 0 <= i < |b.accept| ==> us[i] < b.accept[i])
    && (|b.accept| < |us| ==> us[|b.accept|] >= b.reject)
    && Inside(v, b.pending)
  }

  function Product(f: seq<real>): real {
    if f == [] then 1.0 else Times(Product(f[..|f| - 1]), f[|f| - 1])
  }

  /** Its share of all draws: [0,a) has length a, [a,1) has length 1-a. */
  function Volume(b: Box): real {
    Times(Product(b.accept), Times(1.0 - b.reject, Length(b.pending)))
  }

  ghost predicate Setting(lanes: seq<Dist>, drafts: seq<nat>) {
    && |lanes| == |drafts| + 1
    && (forall i :: 0 <= i < |lanes| ==> WellFormed(lanes[i]) && Ids(lanes[i].tokens))
    && Ids(drafts)
  }

  /** Draws as they come, from [0,1). */
  predicate Drawn(us: seq<real>, v: real) {
    (forall i :: 0 <= i < |us| ==> 0.0 <= us[i] < 1.0) && 0.0 <= v < 1.0
  }

  lemma SampleAllowed(d: Dist, exclude: int, v: real)
    requires WellFormed(d) && Residual(d, exclude) > 0.0 && 0.0 <= v < 1.0
    ensures var r := SampleServed(d, v, exclude); r.Ok? && !Excluded(r.value, exclude)
  {
    var j := SampleLands(d, exclude, v);
  }

  lemma StopLaneHasMass(lanes: seq<Dist>, drafts: seq<nat>, us: seq<real>)
    requires Setting(lanes, drafts) && |us| == |drafts| && forall i :: 0 <= i < |us| ==> 0.0 <= us[i] < 1.0
    ensures var k := Accepted(lanes, drafts, us, 0);
      Residual(lanes[k], if k < |drafts| then ToInt32(drafts[k]) else NO_EXCLUDE) > 0.0
  {
    hide ServedProbability, Residual;
    var k := Accepted(lanes, drafts, us, 0);
    ResidualMass(lanes[k], if k < |drafts| then drafts[k] else 0);
  }

  /** The walk never throws, never emits the draft it has just rejected, and emits an
      emittable sequence. */
  lemma WalkIsTotal(lanes: seq<Dist>, drafts: seq<nat>, us: seq<real>, v: real)
    requires Setting(lanes, drafts) && |us| == |drafts| && Drawn(us, v)
    ensures Walk(lanes, drafts, us, v).Ok?
    ensures var w := Walk(lanes, drafts, us, v).value;
      && 1 <= w.n == w.stopLane + 1 <= |lanes|
      && Emittable(drafts, Emitted(drafts, w))
      && (w.stopLane < |drafts| ==> w.pending != drafts[w.stopLane])
  {
    StopLaneHasMass(lanes, drafts, us);
    var k := Accepted(lanes, drafts, us, 0);
    var exclude := if k < |drafts| then ToInt32(drafts[k]) else NO_EXCLUDE;
    SampleAllowed(lanes[k], exclude, v);
    assert k < |drafts| ==> Excluded(drafts[k], exclude);
    var w := Walk(lanes, drafts, us, v).value;
    var x := Emitted(drafts, w);
    assert x[..|x| - 1] == drafts[..k] && x[|x| - 1] == w.pending;
  }

  /** The draws that emit `x` are exactly its box. */
  lemma EmitsExactlyInBox(lanes: seq<Dist>, drafts: seq<nat>, us: seq<real>, v: real, x: seq<nat>)
    requires Setting(lanes, drafts) && |us| == |drafts| && Drawn(us, v) && Emittable(drafts, x)
    ensures Walk(lanes, drafts, us, v).Ok?
    ensures Emitted(drafts, Walk(lanes, drafts, us, v).value) == x <==> InBox(BoxOf(lanes, drafts, x), us, v)
  {
    hide ServedProbability, Draws, Residual, SampleServed, IndexOf, Inside;
    WalkIsTotal(lanes, drafts, us, v);
    StopLaneHasMass(lanes, drafts, us);
    var k := Accepted(lanes, drafts, us, 0);
    var w := Walk(lanes, drafts, us, v).value;
    var e := Emitted(drafts, w);
    var b := BoxOf(lanes, drafts, x);
    var exclude := if k < |drafts| then ToInt32(drafts[k]) else NO_EXCLUDE;
    if |x| - 1 == k {
      SampleSelects(lanes[k], exclude, v, x[k]);
      assert x == drafts[..k] + [x[k]];
      assert e == x <==> w.pending == x[k];
    } else if |x| - 1 < k {
      assert us[|x| - 1] < ServedProbability(lanes[|x| - 1], drafts[|x| - 1]);
    } else {
      assert us[k] >= ServedProbability(lanes[k], drafts[k]);
      assert b.accept[k] == ServedProbability(lanes[k], drafts[k]);
    }
  }

  lemma {:induction false} AcceptProduct(lanes: seq<Dist>, drafts: seq<nat>, k: nat)
    requires |lanes| == |drafts| + 1 && k <= |drafts|
    requires forall i :: 0 <= i < |lanes| ==> |lanes[i].tokens| == |lanes[i].weights|
    ensures Product(seq(k, i requires 0 <= i < k => ServedProbability(lanes[i], drafts[i]))) == Ancestral(lanes, drafts[..k])
  {
    var f := seq(k, i requires 0 <= i < k => ServedProbability(lanes[i], drafts[i]));
    if k > 0 {
      AcceptProduct(lanes, drafts, k - 1);
      assert f[..k - 1] == seq(k - 1, i requires 0 <= i < k - 1 => ServedProbability(lanes[i], drafts[i]));
      assert drafts[..k][..k - 1] == drafts[..k - 1];
    }
  }

  /** Rejection followed by a draw from the residual is a draw from the lane itself. */
  lemma RejectThenDraw(d: Dist, draft: nat, token: nat)
    requires WellFormed(d) && Ids(d.tokens) && draft < 0x8000_0000 && token != draft && token < 0x8000_0000
    ensures Times(1.0 - ServedProbability(d, draft), Length(Draws(d, ToInt32(draft), token))) == ServedProbability(d, token)
  {
    hide ServedProbability, Draws, Residual;
    var p, q := ServedProbability(d, draft), ServedProbability(d, token);
    var iv, r := Draws(d, ToInt32(draft), token), Residual(d, ToInt32(draft));
    ResidualMass(d, draft);
    ResidualMass(d, token);
    if r > 0.0 {
      DrawsLength(d, ToInt32(draft), token);
      Cancel(d.total, p, q, Length(iv), r);
    } else {
      NothingElse(d, draft, token);
      assert Times(1.0 - p, 0.0) == 0.0;
    }
  }

  lemma Cancel(total: real, p: real, q: real, len: real, r: real)
    requires total > 0.0 && r == Times(total, 1.0 - p) && Times(len, r) == Times(total, q)
    ensures Times(1.0 - p, len) == q
  {
    var x := (1.0 - p) * len;
    assert total * x == total * q by {
      assert len * (total * (1.0 - p)) == total * ((1.0 - p) * len);
    }
    assert total * (x - q) == 0.0;
  }

  /** A lane that serves one token with certainty serves no other. */
  lemma NothingElse(d: Dist, draft: nat, token: nat)
    requires WellFormed(d) && Ids(d.tokens) && draft < 0x8000_0000 && token != draft && token < 0x8000_0000
    requires Residual(d, ToInt32(draft)) <= 0.0
    ensures ServedProbability(d, token) == 0.0
    ensures Length(Draws(d, ToInt32(draft), token)) == 0.0
  {
    var i := IndexOf(d.tokens, token);
    CumMonotone(d, ToInt32(draft), 0, |d.tokens|);
    ServedShare(d, token);
    if i < |d.tokens| {
      CumMonotone(d, ToInt32(draft), 0, i);
      CumMonotone(d, ToInt32(draft), i + 1, |d.tokens|);
    }
  }

  /** A free draw from the last lane. */
  lemma FreeDraw(d: Dist, token: nat)
    requires WellFormed(d) && Ids(d.tokens) && token < 0x8000_0000
    ensures Times(1.0 - 0.0, Length(Draws(d, NO_EXCLUDE, token))) == ServedProbability(d, token)
  {
    hide ServedProbability, Draws, Residual;
    ResidualMass(d, token);
    DrawsLength(d, NO_EXCLUDE, token);
    assert d.total == Times(d.total, 1.0 - 0.0);
    Cancel(d.total, 0.0, ServedProbability(d, token), Length(Draws(d, NO_EXCLUDE, token)), d.total);
  }

  /** Exactness: whatever the drafts, the walk emits each sequence with the probability
      of ancestral sampling, the product of the served probabilities lane by lane. */
  lemma WalkIsExact(lanes: seq<Dist>, drafts: seq<nat>, x: seq<nat>)
    requires Setting(lanes, drafts) && Emittable(drafts, x) && Ids(x)
    ensures Volume(BoxOf(lanes, drafts, x)) == Ancestral(lanes, x)
  {
    hide ServedProbability, Draws, Product, Times, Length;
    var k := |x| - 1;
    var b := BoxOf(lanes, drafts, x);
    AcceptProduct(lanes, drafts, k);
    assert x[..k] == drafts[..k];
    if k < |drafts| {
      RejectThenDraw(lanes[k], drafts[k], x[k]);
    } else {
      FreeDraw(lanes[k], x[k]);
    }
  }
}
