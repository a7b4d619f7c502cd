/** Sharing out a fused round: the only water-filled result, in a fixed order of giving way. */
module TrimWidths {

  const FLOOR := 2

  function Floored(w: int): int { if w < FLOOR then w else FLOOR }

  function Sum(w: seq<int>): int {
    if w == [] then 0 else Sum(w[..|w| - 1]) + w[|w| - 1]
  }

  /** Of two lanes of one width, does `i` give way before `j`? */
  predicate Before(sfx: seq<bool>, i: nat, j: nat)
    requires i < |sfx| && j < |sfx|
  {
    (sfx[i] && !sfx[j]) || (sfx[i] == sfx[j] && i > j)
  }

  predicate GivesWay(w: seq<int>, sfx: seq<bool>, i: nat, j: nat)
    requires i < |w| == |sfx| && j < |w|
  {
    w[i] > w[j] || (w[i] == w[j] && Before(sfx, i, j))
  }

  /** The lane among the first `n` that gives way, or -1 when all are at the floor. */
  function Victim(w: seq<int>, sfx: seq<bool>, n: nat): (v: int)
    requires n <= |w| == |sfx|
    ensures -1 <= v < n
    ensures v < 0 ==> forall j :: 0 <= j < n ==> w[j] <= FLOOR
    ensures v >= 0 ==> w[v] > FLOOR && forall j :: 0 <= j < n && j != v ==> GivesWay(w, sfx, v, j)
  {
    if n == 0 then -1
    else
      var i := n - 1;
      var p := Victim(w, sfx, i);
      if w[i] <= FLOOR then p
      else if p < 0 || w[i] > w[p] || (w[i] == w[p] && (sfx[i] || !sfx[p])) then
        Overtakes(w, sfx, i, p);
        i
      else p
  }

  lemma Overtakes(w: seq<int>, sfx: seq<bool>, i: nat, p: int)
    requires i < |w| == |sfx| && -1 <= p < i && w[i] > FLOOR
    requires p < 0 ==> forall j :: 0 <= j < i ==> w[j] <= FLOOR
    requires p >= 0 ==> forall j :: 0 <= j < i && j != p ==> GivesWay(w, sfx, p, j)
    requires p < 0 || w[i] > w[p] || (w[i] == w[p] && (sfx[i] || !sfx[p]))
    ensures forall j :: 0 <= j < i ==> GivesWay(w, sfx, i, j)
  {
    forall j | 0 <= j < i ensures GivesWay(w, sfx, i, j) {
      assert p >= 0 && j != p ==> GivesWay(w, sfx, p, j);
    }
  }

  /** Narrow one victim after another. */
  function Narrowed(w: seq<int>, sfx: seq<bool>, cap: int): (r: seq<int>)
    requires |w| == |sfx|
    ensures |r| == |w|
    decreases if Sum(w) > cap then Sum(w) - cap else 0
  {
    var v := Victim(w, sfx, |w|);
    if Sum(w) <= cap || v < 0 then w
    else
      SumUpdate(w, v, w[v] - 1);
      Narrowed(w[v := w[v] - 1], sfx, cap)
  }

  lemma {:induction false} SumUpdate(w: seq<int>, i: nat, x: int)
    requires i < |w|
    ensures Sum(w[i := x]) == Sum(w) - w[i] + x
  {
    var last := |w| - 1;
    if i == last {
      assert w[i := x][..last] == w[..last];
    } else {
      assert w[i := x][..last] == w[..last][i := x];
      SumUpdate(w[..last], i, x);
    }
  }

  lemma NarrowedStep(w: seq<int>, sfx: seq<bool>, cap: int)
    requires |w| == |sfx| && Sum(w) > cap
    ensures var v := Victim(w, sfx, |w|);
      if v < 0 then Narrowed(w, sfx, cap) == w
      else
        && Narrowed(w, sfx, cap) == Narrowed(w[v := w[v] - 1], sfx, cap)
        && Sum(w[v := w[v] - 1]) == Sum(w) - 1
  {
    var v := Victim(w, sfx, |w|);
    if v >= 0 { SumUpdate(w, v, w[v] - 1); }
  }

  lemma NarrowedStops(w: seq<int>, sfx: seq<bool>, cap: int)
    requires |w| == |sfx| && Sum(w) <= cap
    ensures Narrowed(w, sfx, cap) == w
  {}

  function Trimmed(w: seq<int>, sfx: seq<bool>, cap: int): (r: seq<int>)
    requires |w| > 1 ==> |w| == |sfx|
    ensures |r| == |w|
  {
    if |w| <= 1 then w else Narrowed(w, sfx, cap)
  }

  /** `trim_widths`: in place over the first `k` lanes. */
  method Trim(want: array<int>, isSuffix: array?<bool>, k: nat, cap: int)
    requires k <= want.Length
    requires k > 1 ==> isSuffix != null && k <= isSuffix.Length
    modifies want
    ensures want[k..] == old(want[k..])
    ensures k <= 1 ==> want[..] == old(want[..])
    ensures k > 1 ==> want[..k] == Trimmed(old(want[..k]), isSuffix[..k], cap)
  {
    if k <= 1 { return; }
    var sum := Total(want, k);
    Narrow(want, isSuffix, k, cap, sum);
  }

  method Total(want: array<int>, k: nat) returns (sum: int)
    requires k <= want.Length
    ensures sum == Sum(want[..k])
  {
    sum := 0;
    for i := 0 to k
      invariant sum == Sum(want[..i])
    {
      assert want[..i + 1][..i] == want[..i];
      sum := sum + want[i];
    }
  }

  lemma OneChanged(was: seq<int>, w: seq<int>, k: nat, i: nat)
    requires i < k <= |was| && w == was[i := was[i] - 1]
    ensures w[..k] == was[..k][i := was[..k][i] - 1] && w[k..] == was[k..]
  {}

  method Narrow(want: array<int>, isSuffix: array<bool>, k: nat, cap: int, total: int)
    requires k <= want.Length && k <= isSuffix.Length && total == Sum(want[..k])
    modifies want
    ensures want[k..] == old(want[k..])
    ensures want[..k] == Narrowed(old(want[..k]), isSuffix[..k], cap)
  {
    hide Sum, Victim, Narrowed;
    var sum := total;
    ghost var sfx := isSuffix[..k];
    while sum > cap
      invariant sum == Sum(want[..k]) && want[k..] == old(want[k..])
      invariant Narrowed(want[..k], sfx, cap) == Narrowed(old(want[..k]), sfx, cap)
      decreases sum - cap
    {
      NarrowedStep(want[..k], sfx, cap);
      var pick := Pick(want, isSuffix, k);
      if pick < 0 { return; }
      ghost var before := want[..];
      want[pick] := want[pick] - 1;
      OneChanged(before, want[..], k, pick);
      sum := sum - 1;
    }
    NarrowedStops(want[..k], sfx, cap);
  }

  method Pick(want: array<int>, isSuffix: array<bool>, k: nat) returns (pick: int)
    requires k <= want.Length && k <= isSuffix.Length
    ensures pick == Victim(want[..k], isSuffix[..k], k)
  {
    pick := -1;
    for i := 0 to k
      invariant pick == Victim(want[..k], isSuffix[..k], i)
    {
      if want[i] > FLOOR {
        if pick < 0 || want[i] > want[pick] || (want[i] == want[pick] && (isSuffix[i] || !isSuffix[pick])) {
          pick := i;
        }
      }
    }
  }

  // ------------------------------------------------------- what the result is

  /** No lane is more than one wider than a trimmed one, and a lane exactly one wider
      comes later in the order of giving way. */
  ghost predicate Level(orig: seq<int>, sfx: seq<bool>, out: seq<int>)
    requires |orig| == |sfx| == |out|
  {
    forall i, j :: 0 <= i < |out| && 0 <= j < |out| && out[i] < orig[i] ==>
      out[j] <= out[i] + 1 && (out[j] == out[i] + 1 ==> Before(sfx, i, j))
  }

  ghost predicate Bounded(orig: seq<int>, out: seq<int>)
    requires |orig| == |out|
  {
    forall i :: 0 <= i < |out| ==> Floored(orig[i]) <= out[i] <= orig[i]
  }

  ghost predicate AllFloored(orig: seq<int>, out: seq<int>)
    requires |orig| == |out|
  {
    forall i :: 0 <= i < |out| ==> out[i] == Floored(orig[i])
  }

  /** Filled like connected vessels: nothing taken without need, as much as needed or down
      to the floors, from the top. */
  ghost predicate WaterFilled(orig: seq<int>, sfx: seq<bool>, cap: int, out: seq<int>) {
    && |orig| == |sfx| == |out|
    && Bounded(orig, out) && Level(orig, sfx, out)
    && (Sum(orig) <= cap ==> out == orig)
    && (Sum(orig) > cap ==> Sum(out) == cap || (Sum(out) > cap && AllFloored(orig, out)))
  }

  lemma StepKeepsLevel(orig: seq<int>, sfx: seq<bool>, w: seq<int>, v: nat)
    requires |orig| == |sfx| == |w| && Bounded(orig, w) && Level(orig, sfx, w)
    requires v < |w| && v == Victim(w, sfx, |w|)
    ensures Bounded(orig, w[v := w[v] - 1]) && Level(orig, sfx, w[v := w[v] - 1])
  {
    var u := w[v := w[v] - 1];
    forall i, j | 0 <= i < |u| && 0 <= j < |u| && u[i] < orig[i]
      ensures u[j] <= u[i] + 1 && (u[j] == u[i] + 1 ==> Before(sfx, i, j))
    {
      if i == v {
        assert j != v ==> GivesWay(w, sfx, v, j);
      } else {
        assert w[i] < orig[i];
      }
    }
  }

  lemma {:induction false} NarrowedIsFilled(orig: seq<int>, sfx: seq<bool>, cap: int, w: seq<int>)
    requires |orig| == |sfx| == |w| && Bounded(orig, w) && Level(orig, sfx, w)
    requires Sum(orig) > cap && Sum(w) >= cap
    ensures WaterFilled(orig, sfx, cap, Narrowed(w, sfx, cap))
    decreases Sum(w) - cap
  {
    hide Level, Sum;
    var v := Victim(w, sfx, |w|);
    if Sum(w) > cap && v >= 0 {
      SumUpdate(w, v, w[v] - 1);
      StepKeepsLevel(orig, sfx, w, v);
      NarrowedIsFilled(orig, sfx, cap, w[v := w[v] - 1]);
    }
  }

  /** Trimming ends in a water-filled vector. */
  lemma TrimmedIsFilled(orig: seq<int>, sfx: seq<bool>, cap: int)
    requires |orig| >= 2 && |orig| == |sfx|
    ensures WaterFilled(orig, sfx, cap, Trimmed(orig, sfx, cap))
  {
    if Sum(orig) > cap { NarrowedIsFilled(orig, sfx, cap, orig); }
  }

  lemma {:induction false} SumOrdered(a: seq<int>, b: seq<int>)
    requires |a| == |b| && forall i :: 0 <= i < |a| ==> a[i] <= b[i]
    ensures Sum(a) <= Sum(b) && (Sum(a) == Sum(b) ==> a == b)
  {
    if a != [] {
      SumOrdered(a[..|a| - 1], b[..|b| - 1]);
      assert a == a[..|a| - 1] + [a[|a| - 1]] && b == b[..|b| - 1] + [b[|b| - 1]];
    }
  }

  /** Two vectors of one sum: where one is lower, somewhere it is higher. */
  lemma Exchange(a: seq<int>, b: seq<int>) returns (i: nat, j: nat)
    requires |a| == |b| && Sum(a) == Sum(b) && a != b
    ensures i < |a| && j < |a| && a[i] < b[i] && a[j] > b[j]
  {
    if forall k :: 0 <= k < |a| ==> a[k] <= b[k] { SumOrdered(a, b); }
    if forall k :: 0 <= k < |a| ==> b[k] <= a[k] { SumOrdered(b, a); }
    i :| 0 <= i < |a| && a[i] < b[i];
    j :| 0 <= j < |a| && a[j] > b[j];
  }

  lemma FilledSum(orig: seq<int>, sfx: seq<bool>, cap: int, a: seq<int>, b: seq<int>)
    requires WaterFilled(orig, sfx, cap, a) && WaterFilled(orig, sfx, cap, b)
    ensures Sum(a) == Sum(b)
  {
    hide Level;
    if Sum(orig) > cap {
      if Sum(a) != cap { SumOrdered(a, b); }
      if Sum(b) != cap { SumOrdered(b, a); }
    }
  }

  lemma NoExchange(orig: seq<int>, sfx: seq<bool>, a: seq<int>, b: seq<int>, i: nat, j: nat)
    requires |orig| == |sfx| == |a| == |b| && i < |a| && j < |a|
    requires Bounded(orig, a) && Bounded(orig, b) && Level(orig, sfx, a) && Level(orig, sfx, b)
    ensures !(a[i] < b[i] && a[j] > b[j])
  {
    assert !(Before(sfx, i, j) && Before(sfx, j, i));
  }

  /** There is only one water-filled vector. */
  lemma FilledIsUnique(orig: seq<int>, sfx: seq<bool>, cap: int, a: seq<int>, b: seq<int>)
    requires WaterFilled(orig, sfx, cap, a) && WaterFilled(orig, sfx, cap, b)
    ensures a == b
  {
    FilledSum(orig, sfx, cap, a, b);
    if a != b {
      var i, j := Exchange(a, b);
      NoExchange(orig, sfx, a, b, i, j);
    }
  }

  lemma {:induction false} SumAtLeast(w: seq<int>)
    requires forall i :: 0 <= i < |w| ==> w[i] <= FLOOR
    ensures Sum(w) <= FLOOR * |w|
  {
    if w != [] { SumAtLeast(w[..|w| - 1]); }
  }

  /** When every lane asks for the floor at least and the floors fit, the grants fit. */
  lemma GrantsFit(want: seq<int>, sfx: seq<bool>, cap: int)
    requires 2 <= |want| == |sfx| && cap >= FLOOR * |want|
    requires forall i :: 0 <= i < |want| ==> want[i] >= FLOOR
    ensures var out := Trimmed(want, sfx, cap);
      && Sum(out) <= cap
      && forall i :: 0 <= i < |out| ==> FLOOR <= out[i] <= want[i]
  {
    TrimmedIsFilled(want, sfx, cap);
    var out := Trimmed(want, sfx, cap);
    if Sum(out) > cap { SumAtLeast(out); }
  }
}
