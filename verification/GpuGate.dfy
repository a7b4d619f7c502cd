/** The ticket lock that slices the GPU between threads, as a state machine. */
module GpuGate {

  // Moves are the critical sections; every interleaving of them is a run of a
  // first-in-first-out line.

  type Tid = nat

  /** The lock's own words. */
  datatype Words = Words(next: nat, serving: nat, nwait: int)

  function Taken(g: Words): Words {
    Words(g.next + 1, g.serving, if g.next != g.serving then g.nwait + 1 else g.nwait)
  }
  function Woken(g: Words): Words { g.(nwait := g.nwait - 1) }
  function Released(g: Words): Words { g.(serving := g.serving + 1) }
  predicate Contended(g: Words) { g.nwait != 0 }
  predicate CanYield(g: Words) { g.next - g.serving > 1 }
  function Yielded(g: Words): Words { Words(g.next + 1, g.serving + 1, g.nwait + 1) }

  /** The lock; waiting itself is the condition variable's. */
  class Gate {
    var next: nat
    var serving: nat
    var nwait: int

    ghost function View(): Words
      reads this
    {
      Words(next, serving, nwait)
    }

    constructor ()
      ensures View() == Words(0, 0, 0)
    {
      next, serving, nwait := 0, 0, 0;
    }

    /** `acquire` up to the wait: the ticket, and whether it has to be waited for. */
    method TakeTicket() returns (t: nat, waits: bool)
      modifies this
      ensures t == old(next) && waits == (t != old(serving))
      ensures View() == Taken(old(View()))
    {
      t := next;
      next := next + 1;
      waits := t != serving;
      if waits { nwait := nwait + 1; }
    }

    /** One evaluation of the wait condition; once it holds the waiter is not counted. */
    method TryWake(t: nat) returns (served: bool)
      modifies this
      ensures served == (old(serving) == t)
      ensures View() == if served then Woken(old(View())) else old(View())
    {
      served := serving == t;
      if served { nwait := nwait - 1; }
    }

    method Release()
      modifies this
      ensures View() == Released(old(View()))
    {
      serving := serving + 1;
    }

    method IsContended() returns (r: bool)
      ensures r == Contended(View())
    {
      r := nwait != 0;
    }

    /** The critical section of `maybe_yield`, up to the wait. */
    method HandOver() returns (yielded: bool, t: nat)
      modifies this
      ensures yielded == CanYield(old(View()))
      ensures yielded ==> t == old(next) && View() == Yielded(old(View()))
      ensures !yielded ==> View() == old(View())
    {
      t := next;
      if next - serving <= 1 { return false, t; }
      next := next + 1;
      serving := serving + 1;
      nwait := nwait + 1;
      yielded := true;
    }
  }

  // ------------------------------------------------------------- interleaving

  /** Where a thread is; `Yielding` is between the unlocked look at the waiter count and
      the critical section. */
  datatype Phase = Idle | Waiting(ticket: nat) | Holding(ticket: nat) | Yielding(ticket: nat)

  datatype State = State(gate: Words, phases: map<Tid, Phase>)

  const START := State(Words(0, 0, 0), map[])

  function PhaseOf(s: State, th: Tid): Phase {
    if th in s.phases then s.phases[th] else Idle
  }

  datatype Move = Acquire(th: Tid) | Wake(th: Tid) | Release(th: Tid) | Look(th: Tid) | Yield(th: Tid)

  predicate Enabled(s: State, m: Move) {
    var p := PhaseOf(s, m.th);
    match m
    case Acquire(_) => p.Idle?
    case Wake(_) => p.Waiting? && s.gate.serving == p.ticket
    case Release(_) => p.Holding?
    case Look(_) => p.Holding?
    case Yield(_) => p.Yielding?
  }

  function Set(s: State, gate: Words, th: Tid, p: Phase): State {
    State(gate, s.phases[th := p])
  }

  function Next(s: State, m: Move): State
    requires Enabled(s, m)
  {
    var g, p := s.gate, PhaseOf(s, m.th);
    match m
    case Acquire(th) => Set(s, Taken(g), th, if g.next != g.serving then Waiting(g.next) else Holding(g.next))
    case Wake(th) => Set(s, Woken(g), th, Holding(p.ticket))
    case Release(th) => Set(s, Released(g), th, Idle)
    case Look(th) => Set(s, g, th, if Contended(g) then Yielding(p.ticket) else p)
    case Yield(th) =>
      if CanYield(g) then Set(s, Yielded(g), th, Waiting(g.next)) else Set(s, g, th, Holding(p.ticket))
  }

  /** Who hands the lock over in this move, and who joins the line. */
  function GivesUp(s: State, m: Move): seq<Tid> {
    if m.Release? || (m.Yield? && CanYield(s.gate)) then [m.th] else []
  }

  function Joins(s: State, m: Move): seq<Tid> {
    if m.Acquire? || (m.Yield? && CanYield(s.gate)) then [m.th] else []
  }

  predicate Runs(s: State, moves: seq<Move>)
    decreases |moves|
  {
    moves == [] || (Enabled(s, moves[0]) && Runs(Next(s, moves[0]), moves[1..]))
  }

  function After(s: State, moves: seq<Move>): State
    requires Runs(s, moves)
    decreases |moves|
  {
    if moves == [] then s else After(Next(s, moves[0]), moves[1..])
  }

  function Handovers(s: State, moves: seq<Move>): seq<Tid>
    requires Runs(s, moves)
    decreases |moves|
  {
    if moves == [] then [] else GivesUp(s, moves[0]) + Handovers(Next(s, moves[0]), moves[1..])
  }

  function Arrivals(s: State, moves: seq<Move>): seq<Tid>
    requires Runs(s, moves)
    decreases |moves|
  {
    if moves == [] then [] else Joins(s, moves[0]) + Arrivals(Next(s, moves[0]), moves[1..])
  }

  // ------------------------------------------------------------------ the line

  predicate Has(p: Phase, ticket: nat) { !p.Idle? && p.ticket == ticket }

  /** The live tickets are the interval from `serving` to `next`, one thread each; only
      the first may hold, the others wait and are counted. */
  ghost predicate IsLine(s: State, line: seq<Tid>) {
    var g := s.gate;
    && g.serving + |line| == g.next
    && (forall i :: 0 <= i < |line| ==> Has(PhaseOf(s, line[i]), g.serving + i))
    && (forall th :: !PhaseOf(s, th).Idle? ==>
          g.serving <= PhaseOf(s, th).ticket < g.next && line[PhaseOf(s, th).ticket - g.serving] == th)
    && (forall i :: 0 < i < |line| ==> PhaseOf(s, line[i]).Waiting?)
    && g.nwait == |line| - (if line != [] && !PhaseOf(s, line[0]).Waiting? then 1 else 0)
  }

  /** At most one thread holds, and its ticket is being served. */
  lemma OneHolder(s: State, line: seq<Tid>, a: Tid, b: Tid)
    requires IsLine(s, line)
    requires PhaseOf(s, a).Holding? || PhaseOf(s, a).Yielding?
    ensures PhaseOf(s, a).ticket == s.gate.serving && line != [] && line[0] == a
    ensures PhaseOf(s, b).Holding? || PhaseOf(s, b).Yielding? ==> a == b
  {}

  /** Nobody is stuck: the first in line holds or can be woken. */
  lemma HeadCanMove(s: State, line: seq<Tid>)
    requires IsLine(s, line) && line != []
    ensures !PhaseOf(s, line[0]).Waiting? || Enabled(s, Wake(line[0]))
  {
    assert Has(PhaseOf(s, line[0]), s.gate.serving + 0);
  }

  lemma AcquireLine(s: State, line: seq<Tid>, th: Tid)
    requires IsLine(s, line) && Enabled(s, Acquire(th))
    ensures IsLine(Next(s, Acquire(th)), line + [th])
  {
    var s1 := Next(s, Acquire(th));
    assert forall i :: 0 <= i < |line| ==> line[i] != th;
    assert forall u :: u != th ==> PhaseOf(s1, u) == PhaseOf(s, u);
  }

  lemma WakeLine(s: State, line: seq<Tid>, th: Tid)
    requires IsLine(s, line) && Enabled(s, Wake(th))
    ensures IsLine(Next(s, Wake(th)), line)
  {
    var s1 := Next(s, Wake(th));
    assert forall i :: 0 < i < |line| ==> line[i] != th;
    assert forall u :: u != th ==> PhaseOf(s1, u) == PhaseOf(s, u);
  }

  lemma ReleaseLine(s: State, line: seq<Tid>, th: Tid)
    requires IsLine(s, line) && Enabled(s, Release(th))
    ensures line != [] && line[0] == th && IsLine(Next(s, Release(th)), line[1..])
  {
    var s1 := Next(s, Release(th));
    OneHolder(s, line, th, th);
    assert forall i :: 0 < i < |line| ==> line[i] != th;
    assert forall u :: u != th ==> PhaseOf(s1, u) == PhaseOf(s, u);
  }

  lemma LookLine(s: State, line: seq<Tid>, th: Tid)
    requires IsLine(s, line) && Enabled(s, Look(th))
    ensures IsLine(Next(s, Look(th)), line)
  {
    var s1 := Next(s, Look(th));
    OneHolder(s, line, th, th);
    assert forall u :: u != th ==> PhaseOf(s1, u) == PhaseOf(s, u);
  }

  /** Leaving the yield without a handover, or about to make one: still the holder. */
  lemma HoldAgain(s: State, line: seq<Tid>, th: Tid)
    requires IsLine(s, line) && Enabled(s, Yield(th))
    ensures line != [] && line[0] == th
    ensures IsLine(Set(s, s.gate, th, Holding(PhaseOf(s, th).ticket)), line)
  {
    var s1 := Set(s, s.gate, th, Holding(PhaseOf(s, th).ticket));
    OneHolder(s, line, th, th);
    assert forall u :: u != th ==> PhaseOf(s1, u) == PhaseOf(s, u);
  }

  lemma YieldsNot(s: State, th: Tid)
    requires Enabled(s, Yield(th)) && !CanYield(s.gate)
    ensures Next(s, Yield(th)) == Set(s, s.gate, th, Holding(PhaseOf(s, th).ticket))
  {}

  lemma YieldInTwo(s: State, th: Tid)
    requires Enabled(s, Yield(th)) && CanYield(s.gate)
    ensures var held := Set(s, s.gate, th, Holding(PhaseOf(s, th).ticket));
      && Enabled(held, Release(th)) && Enabled(Next(held, Release(th)), Acquire(th))
      && Next(Next(held, Release(th)), Acquire(th)) == Next(s, Yield(th))
  {
    var free := Next(Set(s, s.gate, th, Holding(PhaseOf(s, th).ticket)), Release(th));
    assert Next(free, Acquire(th)).phases == Next(s, Yield(th)).phases;
  }

  /** A yield hands over exactly when someone is behind, and then goes to the tail: it is
      a release and an acquire in one critical section. */
  lemma YieldLine(s: State, line: seq<Tid>, th: Tid)
    requires IsLine(s, line) && Enabled(s, Yield(th))
    ensures line != [] && line[0] == th && (CanYield(s.gate) <==> |line| > 1)
    ensures IsLine(Next(s, Yield(th)), if CanYield(s.gate) then line[1..] + [th] else line)
  {
    HoldAgain(s, line, th);
    assert s.gate.serving + |line| == s.gate.next;
    hide IsLine, Next;
    var held := Set(s, s.gate, th, Holding(PhaseOf(s, th).ticket));
    if !CanYield(s.gate) {
      YieldsNot(s, th);
    } else {
      YieldInTwo(s, th);
      ReleaseLine(held, line, th);
      AcquireLine(Next(held, Release(th)), line[1..], th);
    }
  }

  lemma MoveLine(s: State, line: seq<Tid>, m: Move) returns (after: seq<Tid>)
    requires IsLine(s, line) && Enabled(s, m)
    ensures IsLine(Next(s, m), after) && GivesUp(s, m) + after == line + Joins(s, m)
  {
    hide IsLine, Next;
    after := line;
    match m {
      case Acquire(th) => AcquireLine(s, line, th); after := line + [th];
      case Wake(th) => WakeLine(s, line, th);
      case Release(th) => ReleaseLine(s, line, th); after := line[1..];
      case Look(th) => LookLine(s, line, th);
      case Yield(th) => YieldLine(s, line, th); after := if CanYield(s.gate) then line[1..] + [th] else line;
    }
  }

  /** Over every run: those who handed over, then those still in line, are the line at the
      start followed by the arrivals, in order. */
  lemma {:induction false} FirstInFirstOut(s: State, line: seq<Tid>, moves: seq<Move>) returns (after: seq<Tid>)
    requires IsLine(s, line) && Runs(s, moves)
    ensures IsLine(After(s, moves), after)
    ensures Handovers(s, moves) + after == line + Arrivals(s, moves)
    decreases |moves|
  {
    hide IsLine;
    if moves == [] {
      after := line;
    } else {
      var m := moves[0];
      var mid := MoveLine(s, line, m);
      after := FirstInFirstOut(Next(s, m), mid, moves[1..]);
      Telescoped(GivesUp(s, m), mid, line, Joins(s, m), Handovers(Next(s, m), moves[1..]), after, Arrivals(Next(s, m), moves[1..]));
    }
  }

  lemma Telescoped(g: seq<Tid>, mid: seq<Tid>, line: seq<Tid>, j: seq<Tid>, hs: seq<Tid>, after: seq<Tid>, arr: seq<Tid>)
    requires g + mid == line + j && hs + after == mid + arr
    ensures (g + hs) + after == line + (j + arr)
  {
    assert (g + hs) + after == g + (hs + after) == g + (mid + arr) == (g + mid) + arr == (line + j) + arr;
  }

  /** Every reachable state has its line. */
  lemma ReachableHasLine(moves: seq<Move>) returns (line: seq<Tid>)
    requires Runs(START, moves)
    ensures IsLine(After(START, moves), line) && Handovers(START, moves) + line == Arrivals(START, moves)
  {
    line := FirstInFirstOut(START, [], moves);
  }

  lemma {:induction false} ServingCounts(s: State, moves: seq<Move>)
    requires Runs(s, moves)
    ensures After(s, moves).gate.serving == s.gate.serving + |Handovers(s, moves)|
    decreases |moves|
  {
    if moves != [] { ServingCounts(Next(s, moves[0]), moves[1..]); }
  }

  /** The line names nobody twice. */
  lemma LineDistinct(s: State, line: seq<Tid>)
    requires IsLine(s, line)
    ensures forall i, j :: 0 <= i < j < |line| ==> line[i] != line[j]
  {
    forall i, j | 0 <= i < j < |line| ensures line[i] != line[j] {
      assert Has(PhaseOf(s, line[i]), s.gate.serving + i) && Has(PhaseOf(s, line[j]), s.gate.serving + j);
    }
  }

  /** A waiter runs after exactly as many handovers as there are tickets before its own,
      and they are those of the threads in front of it, once each, in order. */
  lemma WaiterRuns(s: State, line: seq<Tid>, th: Tid, moves: seq<Move>)
    requires IsLine(s, line) && PhaseOf(s, th).Waiting? && Runs(s, moves)
    requires PhaseOf(After(s, moves), th) == Holding(PhaseOf(s, th).ticket)
    ensures var ahead := PhaseOf(s, th).ticket - s.gate.serving;
      && 0 <= ahead < |line| && line[ahead] == th
      && Handovers(s, moves) == line[..ahead]
    ensures forall i, j :: 0 <= i < j < |Handovers(s, moves)| ==> Handovers(s, moves)[i] != Handovers(s, moves)[j]
  {
    LineDistinct(s, line);
    var after := FirstInFirstOut(s, line, moves);
    ServingCounts(s, moves);
    OneHolder(After(s, moves), after, th, th);
    var ahead := PhaseOf(s, th).ticket - s.gate.serving;
    var h := Handovers(s, moves);
    assert |h| == ahead;
    assert h == (h + after)[..ahead] == (line + Arrivals(s, moves))[..ahead] == line[..ahead];
  }

  /** A yielder resumes only after everyone queued behind it has had one turn. */
  lemma YielderWaitsOneTurnEach(s: State, line: seq<Tid>, th: Tid, moves: seq<Move>)
    requires IsLine(s, line) && Enabled(s, Yield(th)) && CanYield(s.gate)
    requires Runs(Next(s, Yield(th)), moves)
    requires PhaseOf(After(Next(s, Yield(th)), moves), th) == Holding(s.gate.next)
    ensures line != [] && Handovers(Next(s, Yield(th)), moves) == line[1..]
  {
    YieldLine(s, line, th);
    var s1 := Next(s, Yield(th));
    WaiterRuns(s1, line[1..] + [th], th, moves);
    assert (line[1..] + [th])[..|line| - 1] == line[1..];
  }
}
