/** The per-request controller: it watches the decoded text for the opener, feeds the
    grammar, and stages on the device the mask of the state the next token is drawn in. */
module ToolConstrain {
  import opened ToolGrammar
  import opened GrammarState
  import opened GrammarLiveness
  import opened Signature
  import opened GrammarMachine
  import opened MaskCache
  import opened ConstrainRun

  const MASK_POOL_CAP := 512

  /** The device side: an append-only pool of masks and the one that is in force. */
  class Engine {
    var pool: seq<Mask>
    var constraint: int
    var lanes: seq<int>  // one mask per verify lane
    ghost var refused: nat  // uploads turned down because the pool was full

    constructor ()
      ensures pool == [] && constraint == -1 && lanes == [] && refused == 0
    {
      pool, constraint, lanes, refused := [], -1, [], 0;
    }

    method MaskPoolAdd(m: Mask) returns (slot: int)
      modifies this`pool, this`refused
      ensures if |old(pool)| >= MASK_POOL_CAP then slot == -1 && pool == old(pool) && refused == old(refused) + 1
              else slot == |old(pool)| && pool == old(pool) + [m] && refused == old(refused)
    {
      if |pool| >= MASK_POOL_CAP { refused := refused + 1; return -1; }
      pool := pool + [m];
      slot := |pool| - 1;
    }

    method SetToolConstraint(slot: int)
      modifies this`constraint
      ensures constraint == slot
    {
      constraint := slot;
    }

    method SetToolMasks(ids: seq<int>)
      modifies this`lanes
      ensures lanes == ids
    {
      lanes := ids;
    }
  }

  /** Scans a whole round for the opener; a token that starts a call ends the scan. */
  function ScanAll(vocab: seq<string>, s: Ctl, em: seq<int>): (r: (Ctl, int))
    ensures -1 <= r.1 <= |em|
    decreases |em|
  {
    if em == [] then (s, -1)
    else
      var t := ScanStep(s, Decode(vocab, em[0]));
      if t.active then (t, 1)
      else
        var r := ScanAll(vocab, t, em[1..]);
        (r.0, if r.1 < 0 then -1 else r.1 + 1)
  }

  /** One token after the other, as the serial loop scans and feeds them. */
  function FedAll(vocab: seq<string>, s: Ctl, em: seq<int>): Ctl {
    if em == [] then s else FedStep(vocab, FedAll(vocab, s, em[..|em| - 1]), em[|em| - 1])
  }

  /** Is `n` the number of tokens up to the one that starts a call, or -1 for none? */
  ghost predicate StartsAt(vocab: seq<string>, s: Ctl, em: seq<int>, n: int) {
    if n < 0 then n == -1 && forall k :: 0 <= k <= |em| ==> !FedAll(vocab, s, em[..k]).active
    else
      && 0 < n <= |em| && FedAll(vocab, s, em[..n]).active
      && forall k :: 0 <= k < n ==> !FedAll(vocab, s, em[..k]).active
  }

  lemma {:induction false} FedAllFront(vocab: seq<string>, s: Ctl, id: int, rest: seq<int>)
    ensures FedAll(vocab, s, [id] + rest) == FedAll(vocab, FedStep(vocab, s, id), rest)
    decreases |rest|
  {
    hide FedStep;
    if rest == [] {
      assert [id] + rest == [id] && [id][..0] == [];
      assert FedAll(vocab, s, []) == s;
    } else {
      var front := rest[..|rest| - 1];
      FedAllFront(vocab, s, id, front);
      assert ([id] + rest)[..|rest|] == [id] + front;
    }
  }

  lemma FedAllNone(vocab: seq<string>, s: Ctl)
    ensures FedAll(vocab, s, []) == s
  {}

  /** Scanning a round is the serial loop up to the token that starts a call, over all
      tokens if none does. */
  lemma {:induction false} ScanIsSerial(vocab: seq<string>, s: Ctl, em: seq<int>)
    requires s.enabled && !s.active && s.names != []
    ensures var r := ScanAll(vocab, s, em);
      && StartsAt(vocab, s, em, r.1)
      && r.0 == FedAll(vocab, s, if r.1 < 0 then em else em[..r.1])
    decreases |em|
  {
    hide ScanStep, FedAll;
    FedAllNone(vocab, s);
    if em == [] {
      assert em[..0] == [];
    } else {
      var id, rest := em[0], em[1..];
      var t := ScanStep(s, Decode(vocab, id));
      FedIsScan(vocab, s, id);
      forall k | 0 < k <= |em| ensures FedAll(vocab, s, em[..k]) == FedAll(vocab, t, rest[..k - 1]) {
        assert em[..k] == [id] + rest[..k - 1];
        FedAllFront(vocab, s, id, rest[..k - 1]);
      }
      assert em[..0] == [] && rest[..0] == [] && em[..|em|] == em && rest[..|rest|] == rest;
      FedAllNone(vocab, t);
      if !t.active { ScanIsSerial(vocab, t, rest); }
    }
  }

  lemma FedIsScan(vocab: seq<string>, s: Ctl, id: int)
    requires s.enabled && !s.active && s.names != []
    ensures var t := ScanStep(s, Decode(vocab, id)); FedStep(vocab, s, id) == t && t.enabled && t.names == s.names
  {
    hide ScanToken, Run, Last, Config.IsClosed;
  }

  lemma ScanAllCons(vocab: seq<string>, s: Ctl, em: seq<int>, j: nat)
    requires j < |em|
    ensures var t := ScanStep(s, Decode(vocab, em[j])); var r := ScanAll(vocab, t, em[j + 1..]);
      ScanAll(vocab, s, em[j..]) == if t.active then (t, 1) else (r.0, if r.1 < 0 then -1 else r.1 + 1)
  {
    hide ScanStep, Decode;
    assert em[j..][1..] == em[j + 1..];
  }

  lemma ScanAllNil(vocab: seq<string>, s: Ctl)
    ensures ScanAll(vocab, s, []) == (s, -1)
  {}

  /** The bytes of the first `k` drafts. */
  function DraftBytes(vocab: seq<string>, dr: seq<int>, k: nat): string
    requires k <= |dr|
  {
    if k == 0 then "" else DraftBytes(vocab, dr, k - 1) + Decode(vocab, dr[k - 1])
  }

  /** The mask behind the first `k` drafts, or the lane before once a draft was illegal. */
  ghost predicate LaneOk(pool: seq<Mask>, vocab: seq<string>, closerId: int, base: Config, dr: seq<int>, ids: seq<int>, k: nat)
    requires k < |ids| && k <= |dr|
  {
    && 0 <= ids[k] < |pool|
    && var g := Run(base, DraftBytes(vocab, dr, k));
       if g.dead then k > 0 && ids[k] == ids[k - 1] else pool[ids[k]] == FreshMask(vocab, closerId, g)
  }

  ghost predicate LanesOk(pool: seq<Mask>, vocab: seq<string>, closerId: int, base: Config, dr: seq<int>, ids: seq<int>) {
    |ids| <= |dr| + 1 && forall k :: 0 <= k < |ids| ==> LaneOk(pool, vocab, closerId, base, dr, ids, k)
  }

  lemma FirstLane(pool: seq<Mask>, vocab: seq<string>, closerId: int, base: Config, dr: seq<int>, id: int)
    requires !base.dead
    ensures 0 <= id < |pool| && pool[id] == FreshMask(vocab, closerId, base) ==>
      LanesOk(pool, vocab, closerId, base, dr, [id])
  {
    hide FreshMask, Run;
    RunNil(base);
    assert DraftBytes(vocab, dr, 0) == "";
    if 0 <= id < |pool| && pool[id] == FreshMask(vocab, closerId, base) {
      assert LaneOk(pool, vocab, closerId, base, dr, [id], 0);
    }
  }

  lemma NextLane(pool: seq<Mask>, grown: seq<Mask>, vocab: seq<string>, closerId: int, base: Config,
                 dr: seq<int>, ids: seq<int>, id: int)
    requires pool <= grown && 0 < |ids| <= |dr| && LanesOk(pool, vocab, closerId, base, dr, ids)
    requires var g := Run(base, DraftBytes(vocab, dr, |ids|));
      if g.dead then id == ids[|ids| - 1] else 0 <= id < |grown| && grown[id] == FreshMask(vocab, closerId, g)
    ensures LanesOk(grown, vocab, closerId, base, dr, ids + [id])
  {
    hide FreshMask, Run, DraftBytes;
    var all := ids + [id];
    assert LaneOk(pool, vocab, closerId, base, dr, ids, |ids| - 1);
    forall k | 0 <= k < |all| ensures LaneOk(grown, vocab, closerId, base, dr, all, k) {
      if k < |ids| {
        assert LaneOk(pool, vocab, closerId, base, dr, ids, k);
        assert k > 0 ==> all[k - 1] == ids[k - 1];
      }
    }
  }

  lemma LaneInPool(pool: seq<Mask>, vocab: seq<string>, closerId: int, base: Config, dr: seq<int>, ids: seq<int>)
    requires LanesOk(pool, vocab, closerId, base, dr, ids) && ids != []
    ensures 0 <= ids[0] < |pool|
    ensures 0 <= ids[|ids| - 1] < |pool|
  {
    hide FreshMask, Run, DraftBytes;
    assert LaneOk(pool, vocab, closerId, base, dr, ids, 0);
    assert LaneOk(pool, vocab, closerId, base, dr, ids, |ids| - 1);
  }

  /** Every slot lies in the pool. */
  ghost predicate InPool(pool: seq<Mask>, ids: seq<int>) {
    forall k :: 0 <= k < |ids| ==> 0 <= ids[k] < |pool|
  }

  lemma FirstInPool(pool: seq<Mask>, id: int)
    ensures 0 <= id < |pool| ==> InPool(pool, [id])
  {}

  lemma EndsInPool(pool: seq<Mask>, ids: seq<int>)
    requires InPool(pool, ids) && ids != []
    ensures 0 <= ids[|ids| - 1] < |pool|
  {}

  lemma NextInPool(pool: seq<Mask>, grown: seq<Mask>, ids: seq<int>, id: int)
    requires InPool(pool, ids) && pool <= grown && 0 <= id < |grown|
    ensures InPool(grown, ids + [id])
  {}

  class ToolConstrainer {
    const eng: Engine
    const cache: ToolMaskCache
    const tg: Machine
    var host2dev: seq<int>
    var enabled: bool
    var active: bool
    var poolDead: bool
    var staged: Machine
    var names: seq<string>
    var tail: string
    var skipFeed: nat
    var engaged: nat
    var disengaged: nat
    var poolDrops: nat
    var rebinds: nat
    ghost var h: History

    ghost function View(): Ctl
      reads this, tg
    {
      Ctl(names, enabled, active, tg.View(), tail, engaged, disengaged, h)
    }

    /** Every slot the host remembers lies in the live pool and holds the mask it is
        remembered for.  Kept as long as the pool is only ever appended to. */
    ghost predicate Mapped()
      reads this`host2dev, eng`pool, cache`masks
    {
      |host2dev| <= |cache.masks| &&
      forall ci :: 0 <= ci < |host2dev| && host2dev[ci] >= 0 ==>
        host2dev[ci] < |eng.pool| && eng.pool[host2dev[ci]] == cache.masks[ci]
    }

    ghost predicate Valid()
      reads this`names, this`staged, this`active, cache, tg, staged
    {
      && cache.Valid() && cache.Plain() && tg.Valid() && staged.Valid() && staged != tg && !staged.dead
      && PlainNames(names) && PlainNames(tg.names) && PlainNames(staged.names)
      && (active ==> tg.names == names && !tg.dead)
    }

    /** The mask in force is the one simulated afresh from `g`. */
    ghost predicate InForce(g: Config)
      reads eng
    {
      0 <= eng.constraint < |eng.pool| && eng.pool[eng.constraint] == FreshMask(cache.vocab, cache.closerId, g)
    }

    constructor (eng: Engine, cache: ToolMaskCache)
      requires cache.Valid() && cache.Plain()
      ensures Valid() && Mapped() && this.eng == eng && this.cache == cache && fresh(tg) && fresh(staged)
      ensures !enabled && !active && !poolDead && skipFeed == 0
      ensures tg.View() == Init([], "") && engaged == disengaged == 0
    {
      this.eng, this.cache := eng, cache;
      var m := new Machine();
      var s := new Machine();
      tg, staged := m, s;
      host2dev, names, tail := [], [], "";
      enabled, active, poolDead, skipFeed := false, false, false, 0;
      engaged, disengaged, poolDrops, rebinds := 0, 0, 0, 0;
      h := NO_HISTORY;
    }

    /** A new request.  What the device already holds is remembered across requests. */
    method Begin(n: seq<string>)
      requires Valid() && PlainNames(n)
      modifies this`active, this`poolDead, this`skipFeed, this`tail, this`names, this`h
      ensures Valid() && host2dev == old(host2dev) && (old(Mapped()) ==> Mapped())
      ensures View() == Started(n)
      ensures !poolDead && skipFeed == 0
    {
      hide SignatureOf, SigInv, PlainNames, NamesKey, FreshMask;
      active := false;
      poolDead := false;
      skipFeed := 0;
      tail := "";
      names := n;
      h := NO_HISTORY;
    }

    /** The view of a request that has just begun; the counters are the object's own. */
    ghost function Started(n: seq<string>): Ctl
      reads this`enabled, this`engaged, this`disengaged, tg
    {
      Fresh(n, enabled, tg.View()).(engaged := engaged, disengaged := disengaged)
    }

    /** The slot the host remembers for mask `ci`; negative for none. */
    ghost function Remembered(ci: nat): int
      reads this`host2dev
    {
      if ci < |host2dev| then host2dev[ci] else -2
    }

    /** The device slot of the mask of `g`: remembered, or uploaded now; -1 when the
        pool is full.  With a remembered slot that went stale the mask is wrong exactly if
        the slot still lies inside the live pool. */
    method MaskId(g: Machine) returns (slot: int, ghost ci: nat)
      requires cache.Valid() && cache.Plain() && g.Valid() && PlainNames(g.names)
      modifies this`host2dev, this`rebinds, eng`pool, eng`refused, cache
      ensures cache.Valid() && cache.Plain() && old(eng.pool) <= eng.pool && |eng.pool| <= |old(eng.pool)| + 1
      ensures ci < |cache.masks| && cache.masks[ci] == FreshMask(cache.vocab, cache.closerId, g.View())
      ensures SlotTaken(slot, ci, old(Remembered(ci)), old(eng.pool), old(eng.refused), old(rebinds))
      ensures slot >= 0 ==>
        && slot < |eng.pool|
        && (eng.pool[slot] == FreshMask(cache.vocab, cache.closerId, g.View()) <==>
         !StaleInside(old(Remembered(ci)), old(eng.pool), cache.masks[ci]))
      ensures old(Mapped()) ==>
        && Mapped() && rebinds == old(rebinds)
        && (slot >= 0 ==> eng.pool[slot] == FreshMask(cache.vocab, cache.closerId, g.View()))
    {
      hide FreshMask, SignatureOf, SigInv, PlainNames, NamesKey, ToolMaskCache.Valid, Machine.Valid;
      var i := cache.Get(g);
      ci := i;
      slot := Slot(i);
    }

    /** Remembered for a mask, inside the live pool, and holding another one. */
    ghost predicate StaleInside(was: int, pool: seq<Mask>, m: Mask) {
      0 <= was < |pool| && pool[was] != m
    }

    /** How a slot is found: a remembered one inside the live pool is kept, any other is
        uploaded again, and counted if it pointed beyond the pool. */
    ghost predicate SlotTaken(slot: int, ci: nat, was: int, pool: seq<Mask>, refused: nat, bound: nat)
      requires ci < |cache.masks|
      reads this, eng, cache
    {
      && Remembered(ci) == slot
      && if 0 <= was < |pool| then slot == was && eng.pool == pool && eng.refused == refused && rebinds == bound
         else
           && rebinds == bound + (if was < 0 then 0 else 1)
           && if |pool| >= MASK_POOL_CAP then slot == -1 && eng.pool == pool && eng.refused == refused + 1
              else slot == |pool| && eng.pool == pool + [cache.masks[ci]] && eng.refused == refused
    }

    /** The device slot of mask `ci`, uploading it if it was never uploaded, could not be
        uploaded before, or lies outside the live pool. */
    method Slot(ci: nat) returns (slot: int)
      requires ci < |cache.masks|
      modifies this`host2dev, this`rebinds, eng`pool, eng`refused
      ensures SlotTaken(slot, ci, old(Remembered(ci)), old(eng.pool), old(eng.refused), old(rebinds))
      ensures forall j: nat :: j != ci ==> Remembered(j) == old(Remembered(j)) || (Remembered(j) < 0 && old(Remembered(j)) < 0)
      ensures old(Mapped()) ==> Mapped()
    {
      if |host2dev| <= ci {
        host2dev := host2dev + seq(ci + 1 - |host2dev|, _ => -2);
      }
      if host2dev[ci] >= 0 && host2dev[ci] >= |eng.pool| {
        rebinds := rebinds + 1;
        host2dev := host2dev[ci := -2];
      }
      if host2dev[ci] < 0 {
        var id := eng.MaskPoolAdd(cache.masks[ci]);
        host2dev := host2dev[ci := id];
      }
      slot := host2dev[ci];
    }

    method Drop()
      modifies this`active, this`disengaged, eng`constraint
      ensures !active && disengaged == old(disengaged) + (if old(active) then 1 else 0)
      ensures eng.constraint == if old(active) then -1 else old(eng.constraint)
    {
      if active {
        eng.SetToolConstraint(-1);
        active := false;
        disengaged := disengaged + 1;
      }
    }

    /** Stage the mask of `g`; a full pool ends constraining for the rest of the request. */
    method Stage(g: Machine)
      requires Valid() && Mapped() && g.Valid() && PlainNames(g.names) && !g.dead
      modifies this`host2dev, this`rebinds, this`staged, this`poolDrops, this`poolDead, this`active, this`disengaged, eng, cache
      ensures Valid() && Mapped() && old(eng.pool) <= eng.pool && |eng.pool| <= |old(eng.pool)| + 1 && rebinds == old(rebinds)
      ensures eng.refused == old(eng.refused) ==>
        && InForce(g.View()) && staged.View() == g.View() && poolDead == old(poolDead)
        && active == old(active) && disengaged == old(disengaged) && poolDrops == old(poolDrops)
      ensures eng.refused != old(eng.refused) ==>
        && eng.refused == old(eng.refused) + 1 && |eng.pool| >= MASK_POOL_CAP
        && poolDead && !active && poolDrops == old(poolDrops) + 1 && staged == old(staged)
      ensures fresh(staged) || staged == old(staged)
    {
      hide FreshMask, SignatureOf, SigInv, PlainNames, NamesKey, ToolMaskCache.Valid, Machine.Valid;
      var slot, ci := MaskId(g);
      if slot < 0 {
        poolDrops := poolDrops + 1;
        poolDead := true;
        Drop();
        return;
      }
      var copy := new Machine.Copy(g);
      staged := copy;
      eng.SetToolConstraint(slot);
    }

    /** Reset the machine and feed it the remainder of the opener's token. */
    method Restart(rem: string) returns (ok: bool, closed: bool)
      requires tg.Valid() && PlainNames(names)
      modifies tg
      ensures tg.Valid() && tg.names == names && tg.View() == Run(Init(names, old(tg.litWord)), rem)
      ensures ok == !tg.View().dead && closed == tg.View().IsClosed()
    {
      hide SignatureOf, SigInv, PlainNames, NamesKey, Run, Advance;
      tg.Reset(names);
      SigInvRun(tg.View(), rem);
      RunNil(tg.View());
      ok := tg.AdvanceStr(rem);
      closed := tg.IsClosed();
    }

    method Engage(rem: string)
      requires Valid() && Mapped() && !active
      modifies this`active, this`engaged, this`disengaged, this`h, eng`constraint, tg
      ensures Valid() && Mapped() && View() == EngageStep(old(View()), rem)
    {
      hide PlainNames, Run, Init, Mapped, ToolMaskCache.Valid, Machine.Valid, Config.IsClosed;
      h := h.(word := tg.litWord, mark := if |rem| <= |h.text| then |h.text| - |rem| else 0);
      var ok, closed := Restart(rem);
      active := true;
      engaged := engaged + 1;
      if !ok {
        Drop();
      } else if closed {
        active := false;
        h := h.(calls := h.calls + [rem]);
      }
    }

    method StageCurrent()
      requires Valid() && Mapped() && active
      modifies this`host2dev, this`rebinds, this`staged, this`poolDrops, this`poolDead, this`active, this`disengaged, eng, cache
      ensures Valid() && Mapped() && old(eng.pool) <= eng.pool && |eng.pool| <= |old(eng.pool)| + 1
      ensures eng.refused == old(eng.refused) ==>
        InForce(tg.View()) && View() == old(View()) && poolDead == old(poolDead)
      ensures eng.refused != old(eng.refused) ==> poolDead && !active && |eng.pool| >= MASK_POOL_CAP
      ensures fresh(staged) || staged == old(staged)
    {
      hide SignatureOf, SigInv, PlainNames, NamesKey, FreshMask, Run, Advance, ToolMaskCache.Valid, Machine.Valid;
      Stage(tg);
    }

    /** Look for the opener in a whole round.  The token that starts a call ends the
        scan: the caller keeps the round up to it, and its mask is staged.  Nothing is
        scanned while switched off, without names, inside a call, or once the pool was
        found full. */
    method ScanRound(em: seq<int>) returns (n: int)
      requires Valid() && Mapped()
      modifies this, eng, cache, tg
      ensures Valid() && Mapped() && old(eng.pool) <= eng.pool && |eng.pool| <= |old(eng.pool)| + 1 && enabled == old(enabled) && names == old(names)
      ensures fresh(staged) || staged == old(staged)
      ensures old(Idle()) ==>
        && n == -1 && View() == old(View()) && poolDead == old(poolDead) && skipFeed == old(skipFeed)
        && eng.constraint == old(eng.constraint) && eng.pool == old(eng.pool)
      ensures !old(Idle()) && !poolDead ==>
        && (View(), n) == ScanAll(cache.vocab, old(View()), em)
        && skipFeed == (if n < 0 then old(skipFeed) else n) && active == (n >= 0) && (active ==> InForce(tg.View()))
      ensures !old(Idle()) && poolDead ==> !active && n == -1 && skipFeed == old(skipFeed) && |eng.pool| >= MASK_POOL_CAP
    {
      hide ToolConstrainer.Valid, Mapped, ScanStep, Decode, InForce, ScanAll;
      if !enabled || names == [] || active || poolDead { return -1; }
      var j := 0;
      assert em[0..] == em;
      while j < |em|
        invariant 0 <= j <= |em|
        invariant Valid() && Mapped() && !poolDead && enabled && names == old(names) && !active && skipFeed == old(skipFeed)
        invariant eng.pool == old(eng.pool) && staged == old(staged)
        invariant ScanAll(cache.vocab, old(View()), em) ==
                  var r := ScanAll(cache.vocab, View(), em[j..]); (r.0, if r.1 < 0 then -1 else r.1 + j)
      {
        ScanAllCons(cache.vocab, View(), em, j);
        ScanOne(em[j]);
        if active {
          StageCurrent();
          if !active { return -1; }
          skipFeed := j + 1;
          return j + 1;
        }
        j := j + 1;
      }
      n := -1;
      assert em[j..] == [];
      ScanAllNil(cache.vocab, View());
    }

    /** No scan takes place. */
    ghost predicate Idle()
      reads this
    {
      !enabled || names == [] || active || poolDead
    }

    /** One token of the scan, up to staging. */
    method ScanOne(id: int)
      requires Valid() && Mapped() && !active && names != []
      modifies this`tail, this`active, this`engaged, this`disengaged, this`h, eng`constraint, tg
      ensures Valid() && Mapped() && View() == ScanStep(old(View()), Decode(cache.vocab, id))
    {
      hide PlainNames, Run, Last, FindFrom, Mapped, ToolMaskCache.Valid, Machine.Valid;
      var bytes := Decode(cache.vocab, id);
      h := h.(text := h.text + bytes);
      tail := tail + bytes;
      if |tail| > WINDOW { tail := tail[|tail| - WINDOW..]; }
      assert tail == Last(old(tail) + bytes) by { LastIs(old(tail) + bytes); }
      var pos := RFind(tail);
      if pos < 0 || |bytes| > |tail| || pos + |MARKER| <= |tail| - |bytes| { return; }
      var rem := tail[pos + |MARKER|..];
      Engage(rem);
    }

    /** Feed the grammar one token of an open call. */
    method Feed(id: int) returns (ok: bool, closed: bool)
      requires tg.Valid()
      modifies tg
      ensures tg.Valid() && tg.names == old(tg.names) && tg.View() == Run(old(tg.View()), Decode(cache.vocab, id))
      ensures !old(tg.dead) ==> ok == !tg.View().dead
      ensures closed == tg.View().IsClosed()
    {
      hide SignatureOf, SigInv, NamesKey, Run, Advance;
      var bytes := Decode(cache.vocab, id);
      SigInvRun(tg.View(), bytes);
      RunNil(tg.View());
      ok := tg.AdvanceStr(bytes);
      closed := tg.IsClosed();
    }

    /** A token that was already consumed by the scan, is outside a call, or feeds the
        grammar: a refused byte gives the call up, the closer ends it.  Switched off,
        nothing happens. */
    method OnId(id: int)
      requires Valid() && Mapped()
      modifies this`skipFeed, this`active, this`disengaged, this`tail, this`h, eng`constraint, tg
      ensures Valid() && Mapped()
      ensures skipFeed == if enabled && old(skipFeed) > 0 then old(skipFeed) - 1 else old(skipFeed)
      ensures View() == if !enabled || old(skipFeed) > 0 || !old(active) then old(View())
                        else FeedStep(old(View()), Decode(cache.vocab, id))
      ensures !enabled || old(skipFeed) > 0 || !old(active) ==> eng.constraint == old(eng.constraint)
      ensures enabled && old(active) && !active ==> eng.constraint == -1
    {
      hide PlainNames, Run, Mapped, ToolMaskCache.Valid, Machine.Valid, FeedStep;
      if !enabled { return; }
      if skipFeed > 0 { skipFeed := skipFeed - 1; return; }
      if !active { return; }
      FeedOpen(id);
    }

    /** One token of an open call. */
    method FeedOpen(id: int)
      requires Valid() && Mapped() && active
      modifies this`active, this`disengaged, this`tail, this`h, eng`constraint, tg
      ensures Valid() && Mapped()
      ensures View() == FeedStep(old(View()), Decode(cache.vocab, id))
      ensures !active ==> eng.constraint == -1
    {
      hide PlainNames, Run, Mapped, ToolMaskCache.Valid, Machine.Valid, Decode;
      var ok, closed := Feed(id);
      h := h.(text := h.text + Decode(cache.vocab, id));
      if !ok {
        Drop();
        h := h.(rejects := h.rejects + 1);
        return;
      }
      if closed {
        eng.SetToolConstraint(-1);
        active := false;
        tail := "";
        h := h.(from := |h.text|, calls := h.calls + [if h.mark <= |h.text| then h.text[h.mark..] else ""]);
      }
    }

    /** Stage the mask behind the pending token, tried out on a copy. */
    method OnPending(id: int)
      requires Valid() && Mapped()
      modifies this`host2dev, this`rebinds, this`staged, this`poolDrops, this`poolDead, this`active, this`disengaged, eng, cache
      ensures Valid() && Mapped() && old(eng.pool) <= eng.pool
      ensures var g := Run(tg.View(), Decode(cache.vocab, id));
        if !enabled || !old(active) || id < 0 || !TokenOk(tg.View(), Decode(cache.vocab, id)) then
          eng.constraint == old(eng.constraint) && View() == old(View()) && poolDead == old(poolDead)
        else if g.IsClosed() then eng.constraint == -1 && View() == old(View()) && poolDead == old(poolDead)
        else if eng.refused == old(eng.refused) then InForce(g) && View() == old(View()) && poolDead == old(poolDead)
        else poolDead && !active && |eng.pool| >= MASK_POOL_CAP
      ensures fresh(staged) || staged == old(staged)
    {
      hide SignatureOf, SigInv, PlainNames, NamesKey, FreshMask, Run, Advance, ToolMaskCache.Valid, Config.IsClosed;
      if !enabled || !active || id < 0 { return; }
      var peek := new Machine.Copy(tg);
      SigInvOf(peek);
      SigInvRun(peek.View(), Decode(cache.vocab, id));
      RunNil(peek.View());
      var ok := peek.AdvanceStr(Decode(cache.vocab, id));
      if !ok { return; }
      var closed := peek.IsClosed();
      if closed { eng.SetToolConstraint(-1); return; }
      Stage(peek);
    }

    /** Mid-round: one mask per lane.  Lane k's token follows k drafts, so its mask is
        that of the staged state behind them while they are legal; behind an illegal
        draft the lanes repeat the last legal mask.  A lane whose mask the full pool
        refuses falls back to a slot of a lane before it. */
    method OnDrafts(dr: seq<int>)
      requires Valid() && Mapped() && |dr| == 4
      modifies this`host2dev, this`rebinds, eng`pool, eng`refused, eng`lanes, cache
      ensures Valid() && Mapped() && old(eng.pool) <= eng.pool && eng.constraint == old(eng.constraint)
      ensures eng.refused == old(eng.refused) ==>
        |eng.lanes| == 5 && LanesOk(eng.pool, cache.vocab, cache.closerId, staged.View(), dr, eng.lanes)
      ensures eng.refused > old(eng.refused) ==> |eng.pool| >= MASK_POOL_CAP
      ensures |old(eng.pool)| + 5 <= MASK_POOL_CAP ==> eng.refused == old(eng.refused)
      ensures eng.lanes == old(eng.lanes) || (|eng.lanes| == 5 && InPool(eng.pool, eng.lanes))
    {
      hide SignatureOf, SigInv, PlainNames, NamesKey, FreshMask, Run, Advance, ToolMaskCache.Valid, Machine.Valid, Mapped, Decode, LanesOk, InPool;
      var c := new Machine.Copy(staged);
      RunNil(c.View());
      var id, _ := MaskId(c);
      var ids := [id];
      var alive := true;
      var k := 1;
      FirstLane(eng.pool, cache.vocab, cache.closerId, staged.View(), dr, id);
      FirstInPool(eng.pool, id);
      while k <= 4
        invariant 1 <= k <= 5 && |ids| == k && ids[0] == id
        invariant cache.Valid() && cache.Plain() && Mapped() && old(eng.pool) <= eng.pool && |eng.pool| <= |old(eng.pool)| + k
        invariant c.Valid() && PlainNames(c.names) && fresh(c)
        invariant c.View() == Run(staged.View(), DraftBytes(cache.vocab, dr, k - 1)) && alive == !c.dead
        invariant eng.refused >= old(eng.refused) && eng.lanes == old(eng.lanes)
        invariant id < 0 ==> eng.refused > old(eng.refused)
        invariant eng.refused == old(eng.refused) ==> LanesOk(eng.pool, cache.vocab, cache.closerId, staged.View(), dr, ids)
        invariant eng.refused > old(eng.refused) ==> |eng.pool| >= MASK_POOL_CAP
        invariant |old(eng.pool)| + 5 <= MASK_POOL_CAP ==> eng.refused == old(eng.refused)
        invariant id >= 0 ==> InPool(eng.pool, ids)
      {
        ghost var pool := eng.pool;
        RunConcat(staged.View(), DraftBytes(cache.vocab, dr, k - 1), Decode(cache.vocab, dr[k - 1]));
        if eng.refused == old(eng.refused) { LaneInPool(pool, cache.vocab, cache.closerId, staged.View(), dr, ids); }
        if id >= 0 { EndsInPool(pool, ids); }
        var next;
        next, alive := Lane(c, Decode(cache.vocab, dr[k - 1]), alive, ids[k - 1], id);
        if eng.refused == old(eng.refused) {
          NextLane(pool, eng.pool, cache.vocab, cache.closerId, staged.View(), dr, ids, next);
        }
        if id >= 0 { NextInPool(pool, eng.pool, ids, next); }
        ids := ids + [next];
        k := k + 1;
      }
      if id < 0 { return; }
      eng.SetToolMasks(ids);
    }

    /** The mask slot behind one more draft. */
    method Lane(c: Machine, bytes: string, alive: bool, last: int, first: int) returns (id: int, alive': bool)
      requires cache.Valid() && cache.Plain() && Mapped() && c.Valid() && PlainNames(c.names) && alive == !c.dead
      modifies this`host2dev, this`rebinds, eng`pool, eng`refused, cache, c
      ensures cache.Valid() && cache.Plain() && Mapped() && old(eng.pool) <= eng.pool && |eng.pool| <= |old(eng.pool)| + 1
      ensures c.Valid() && c.names == old(c.names) && c.View() == Run(old(c.View()), bytes) && alive' == !c.dead
      ensures old(eng.refused) <= eng.refused && (eng.refused > old(eng.refused) ==> |old(eng.pool)| >= MASK_POOL_CAP)
      ensures last >= 0 && eng.refused == old(eng.refused) ==>
        if alive' then 0 <= id < |eng.pool| && eng.pool[id] == FreshMask(cache.vocab, cache.closerId, c.View())
        else id == last
      ensures 0 <= last < |old(eng.pool)| ==> 0 <= id < |eng.pool|
    {
      hide SignatureOf, SigInv, PlainNames, NamesKey, FreshMask, Run, Advance, ToolMaskCache.Valid, Mapped;
      alive' := alive;
      SigInvOf(c);
      SigInvRun(c.View(), bytes);
      RunNil(c.View());
      if alive { alive' := c.AdvanceStr(bytes); } else { DeadStays(c.View(), bytes); }
      if alive' {
        var slot, _ := MaskId(c);
        id := slot;
      } else {
        id := last;
      }
      if id < 0 { id := if last < 0 then first else last; }
    }

    lemma SigInvOf(c: Machine)
      requires c.Valid()
      ensures SigInv(c.View())
    {}

    /** Scan, then feed: a token the scan has consumed is not fed again. */
    method ScanAndFeed(id: int)
      requires Valid() && Mapped() && !poolDead && skipFeed == 0
      modifies this, eng, cache, tg
      ensures Valid() && Mapped() && old(eng.pool) <= eng.pool && |eng.pool| <= |old(eng.pool)| + 1
      ensures !poolDead ==> View() == FedStep(cache.vocab, old(View()), id) && skipFeed == 0
      ensures poolDead ==> |eng.pool| >= MASK_POOL_CAP
      ensures fresh(staged) || staged == old(staged)
    {
      hide ToolConstrainer.Valid, Mapped, FeedStep, ScanStep, Decode, InForce;
      ghost var scanned, fed := !Idle(), active;
      var _ := ScanRound([id]);
      if poolDead { return; }
      assert ScanAll(cache.vocab, old(View()), [id]) ==
             var t := ScanStep(old(View()), Decode(cache.vocab, id)); (t, if t.active then 1 else -1);
      OnId(id);
      if !scanned && !(enabled && fed) { h := h.(text := h.text + Decode(cache.vocab, id)); }
    }

    method SwitchOn()
      requires Valid() && Mapped()
      modifies this`enabled
      ensures Valid() && Mapped() && enabled
    {
      hide PlainNames, ToolMaskCache.Valid, Machine.Valid;
      enabled := true;
    }

    /** A fenced body follows: nothing is constrained for the rest of the turn. */
    method SwitchOff()
      requires Valid() && Mapped() && !active
      modifies this`enabled, this`active, eng`constraint
      ensures Valid() && Mapped() && View() == old(View()).(enabled := false) && eng.constraint == -1
    {
      hide PlainNames, ToolMaskCache.Valid, Machine.Valid;
      enabled := false;
      active := false;
      eng.SetToolConstraint(-1);
    }

    /** The serial loop's body for one token: scan, feed, stage the mask of the state the
        next token will be drawn in, and decide whether the loop goes on. */
    method EmitOne(body: string -> bool, id: int) returns (end: End)
      requires Valid() && Mapped() && !poolDead && skipFeed == 0 && h.end == Going
      modifies this, eng, cache, tg
      ensures Valid() && Mapped() && old(eng.pool) <= eng.pool && |eng.pool| <= |old(eng.pool)| + 2
      ensures !poolDead ==> View() == SerialStep(cache.vocab, body, old(View()), id) && end == h.end
      ensures !poolDead ==> skipFeed == 0 && (active ==> InForce(tg.View()))
      ensures poolDead ==> end == Threw && |eng.pool| >= MASK_POOL_CAP
      ensures fresh(staged) || staged == old(staged)
    {
      hide ToolConstrainer.Valid, Mapped, FedStep, InForce, Config.IsClosed;
      var engagedBefore, activeBefore := engaged, active;
      FedShape(cache.vocab, View(), id);
      ScanAndFeed(id);
      if poolDead { return Threw; }
      var newly := engaged != engagedBefore;
      var closed := tg.IsClosed();
      if newly && !active && !closed {
        h := h.(end := Threw);
        return Threw;
      }
      if active {
        StageCurrent();
        return if poolDead then Threw else Going;
      }
      end := Going;
      if closed && (activeBefore || newly) {
        if body(tg.namePref) {
          SwitchOff();
        } else {
          h := h.(end := Stopped);
          end := Stopped;
        }
      }
    }

    /** The serial loop over the tokens drawn one after another, until a closed call stops
        it or an error ends it. */
    method EmitAll(body: string -> bool, ids: seq<int>) returns (end: End)
      requires Valid() && Mapped() && !poolDead && skipFeed == 0 && h.end == Going
      modifies this, eng, cache, tg
      ensures Valid() && Mapped() && |eng.pool| <= |old(eng.pool)| + 2 * |ids|
      ensures !poolDead ==> View() == SerialRun(cache.vocab, body, old(View()), ids) && end == h.end
      ensures poolDead ==> end == Threw && |eng.pool| >= MASK_POOL_CAP
    {
      hide ToolConstrainer.Valid, Mapped, InForce, SerialStep;
      end := Going;
      var i := 0;
      assert ids[0..] == ids;
      while i < |ids|
        invariant i <= |ids| && Valid() && Mapped() && !poolDead && skipFeed == 0 && h.end == end == Going
        invariant |eng.pool| <= |old(eng.pool)| + 2 * i
        invariant SerialRun(cache.vocab, body, View(), ids[i..]) == SerialRun(cache.vocab, body, old(View()), ids)
      {
        assert ids[i..][1..] == ids[i + 1..];
        end := EmitOne(body, ids[i]);
        if poolDead { return; }
        if end != Going {
          EndedStays(cache.vocab, body, View(), ids[i + 1..]);
          return;
        }
        i := i + 1;
      }
      assert ids[i..] == [];
    }

    /** A whole request, from any earlier use of the object on: begun and run on tokens
        that are drawn from the masks in force, it is safe throughout, unless the mask pool
        fills. */
    method Serve(n: seq<string>, body: string -> bool, ids: seq<int>) returns (end: End)
      requires Valid() && Mapped() && PlainNames(n)
      requires CloserBytes(cache.vocab, cache.closerId) && ShortTokens(cache.vocab)
      requires Obeys(cache.vocab, body, cache.closerId, Started(n), ids)
      modifies this, eng, cache, tg
      ensures Valid() && Mapped()
      ensures poolDead ==> end == Threw && |old(eng.pool)| + 2 * |ids| >= MASK_POOL_CAP
      ensures !poolDead ==> View() == SerialRun(cache.vocab, body, old(Started(n)), ids) && end == h.end
      ensures !poolDead ==> Good(View()) && h.rejects == 0 && names == n
    {
      hide ToolConstrainer.Valid, Mapped, Good, SerialRun, Obeys, ShortTokens, CloserBytes, PlainNames;
      Begin(n);
      assert View() == old(Started(n));
      StartedIsGood(n);
      SerialRunIsSafe(cache.vocab, body, cache.closerId, View(), ids);
      end := EmitAll(body, ids);
    }

    lemma StartedIsGood(n: seq<string>)
      ensures Good(Started(n))
    {
      FreshIsGood(n, enabled, tg.View());
    }
  }

  /** The first request of a process: fewer than 256 tokens cannot fill the pool, and the
      run is safe. */
  method FirstRequest(vocab: seq<string>, closerId: int, n: seq<string>, body: string -> bool, ids: seq<int>)
    returns (c: ToolConstrainer, end: End)
    requires PlainNames(n) && CloserBytes(vocab, closerId) && ShortTokens(vocab)
    requires Obeys(vocab, body, closerId, Fresh(n, true, Init([], "")), ids)
    ensures fresh(c) && c.Valid() && c.Mapped()
    ensures 2 * |ids| < MASK_POOL_CAP ==> !c.poolDead
    ensures !c.poolDead ==>
      && c.View() == SerialRun(vocab, body, Fresh(n, true, Init([], "")), ids)
      && Good(c.View()) && c.h.rejects == 0 && c.names == n && end == c.h.end
  {
    hide ToolConstrainer.Valid, ToolConstrainer.Mapped, Good, SerialRun, Obeys, ShortTokens, CloserBytes, PlainNames, ToolMaskCache.Valid;
    var eng := new Engine();
    var cache := new ToolMaskCache(vocab, closerId);
    c := new ToolConstrainer(eng, cache);
    c.SwitchOn();
    assert c.Started(n) == Fresh(n, true, Init([], ""));
    end := c.Serve(n, body, ids);
  }

  /** What feeding a token leaves alone. */
  lemma FedShape(vocab: seq<string>, s: Ctl, id: int)
    ensures FedStep(vocab, s, id).h.end == s.h.end
  {
    StepShape(vocab, s, id);
  }

  lemma LastIs(s: string)
    ensures Last(s) == if |s| > WINDOW then s[|s| - WINDOW..] else s
  {}
}
