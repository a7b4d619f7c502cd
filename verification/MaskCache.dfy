/** The shared cache of masks: whatever was asked before, each mask is as if simulated afresh. */
module MaskCache {
  import opened ToolGrammar
  import opened GrammarState
  import opened GrammarLiveness
  import opened Signature
  import opened GrammarMachine
  import opened MaskLanguage

  /** A word of the mask: 32 flags. */
  type Word = seq<bool>
  type Mask = seq<Word>

  const WORD_BITS := 32

  function WordCount(vocab: seq<string>): nat {
    (|vocab| + 31) / WORD_BITS
  }

  /** May token `id` be sampled from `g`?  The closer id is legal once the body is
      complete; an id without bytes never is. */
  predicate Legal(vocab: seq<string>, closerId: int, g: Config, id: nat)
    requires id < |vocab|
  {
    if id == closerId then g.IsDone()
    else vocab[id] != "" && TokenOk(g, vocab[id])
  }

  /** The flag of token `id`, and no flag beyond the vocabulary. */
  predicate Flag(vocab: seq<string>, closerId: int, g: Config, id: nat) {
    id < |vocab| && Legal(vocab, closerId, g, id)
  }

  /** The mask simulated from `g`. */
  function FreshMask(vocab: seq<string>, closerId: int, g: Config): Mask {
    seq(WordCount(vocab), w requires 0 <= w => seq(WORD_BITS, b requires 0 <= b => Flag(vocab, closerId, g, w * WORD_BITS + b)))
  }

  lemma SameLanguageMask(vocab: seq<string>, closerId: int, a: Config, b: Config)
    requires SameLanguage(a, b)
    ensures FreshMask(vocab, closerId, a) == FreshMask(vocab, closerId, b)
  {
    hide Run, Advance;
    var ma, mb := FreshMask(vocab, closerId, a), FreshMask(vocab, closerId, b);
    forall w | 0 <= w < |ma| ensures ma[w] == mb[w] {
      forall k | 0 <= k < WORD_BITS ensures ma[w][k] == mb[w][k] {
        assert Flag(vocab, closerId, a, w * WORD_BITS + k) == Flag(vocab, closerId, b, w * WORD_BITS + k);
      }
    }
  }

  /** The flag of token `id` sits at bit `id & 31` of word `id >> 5`. */
  lemma FreshMaskBit(vocab: seq<string>, closerId: int, g: Config, id: nat)
    requires id < |vocab|
    ensures id / WORD_BITS < |FreshMask(vocab, closerId, g)|
    ensures FreshMask(vocab, closerId, g)[id / WORD_BITS][id % WORD_BITS] == Legal(vocab, closerId, g, id)
  {
    hide Run, Advance, TokenOk;
    var w, b := id / WORD_BITS, id % WORD_BITS;
    assert w * WORD_BITS + b == id;
    assert FreshMask(vocab, closerId, g)[w][b] == Flag(vocab, closerId, g, w * WORD_BITS + b);
  }

  // ------------------------------------------------------ what the mask is for

  /** The flag of token `id` in a mask. */
  predicate Bit(m: Mask, id: nat) {
    id / WORD_BITS < |m| && id % WORD_BITS < |m[id / WORD_BITS]| && m[id / WORD_BITS][id % WORD_BITS]
  }

  /** Should the sampler see token `id`?  The closer id once the object of the call is
      complete, any other token if it has bytes and the call goes on with them. */
  ghost predicate Belongs(vocab: seq<string>, closerId: int, g: Config, id: nat) {
    id < |vocab| && if id == closerId then Complete(g) else vocab[id] != "" && Continues(g, vocab[id])
  }

  /** The mask offers every token it should, and no other. */
  ghost predicate Exact(vocab: seq<string>, closerId: int, g: Config, m: Mask) {
    forall id: nat :: Bit(m, id) <==> Belongs(vocab, closerId, g, id)
  }

  lemma LegalBelongs(vocab: seq<string>, closerId: int, g: Config, id: nat)
    requires Inv(g) && Finishable(g.names) && id < |vocab|
    ensures Legal(vocab, closerId, g, id) <==> Belongs(vocab, closerId, g, id)
  {
    hide Run, Continues, Complete, Inv, Finishable, Config.IsDone;
    if id == closerId { DoneExactly(g); } else { LiveTokenContinues(g, vocab[id]); }
  }

  lemma BitFlag(vocab: seq<string>, closerId: int, g: Config, id: nat)
    ensures Bit(FreshMask(vocab, closerId, g), id) <==> Flag(vocab, closerId, g, id)
  {
    hide Legal;
    var w, b := id / WORD_BITS, id % WORD_BITS;
    assert w * WORD_BITS + b == id;
    if w < WordCount(vocab) {
      assert FreshMask(vocab, closerId, g)[w][b] == Flag(vocab, closerId, g, w * WORD_BITS + b);
    }
  }

  /** From every state a run can reach, the simulated mask offers exactly the tokens the
      call can go on with. */
  lemma FreshMaskExact(vocab: seq<string>, closerId: int, g: Config)
    requires Inv(g) && Finishable(g.names)
    ensures Exact(vocab, closerId, g, FreshMask(vocab, closerId, g))
  {
    hide FreshMask, Bit, Legal, Inv, Finishable;
    forall id: nat
      ensures Bit(FreshMask(vocab, closerId, g), id) <==> Belongs(vocab, closerId, g, id)
    {
      BitFlag(vocab, closerId, g, id);
      if id < |vocab| { LegalBelongs(vocab, closerId, g, id); }
    }
  }

  /** The same over the text of the call: behind the bytes `u` of a call in progress a
      token is offered exactly if `u` and its bytes begin a legal call or hold a whole
      one, and the closer id exactly if no brace is missing. */
  lemma MaskOffersCalls(vocab: seq<string>, closerId: int, names: seq<string>, litWord: string, u: string, id: nat)
    requires Finishable(names) && id < |vocab|
    requires var g := Run(Init(names, litWord), u); !g.dead && !g.IsClosed()
    ensures Bit(FreshMask(vocab, closerId, Run(Init(names, litWord), u)), id) <==>
            if id == closerId then CallComplete(names, u)
            else vocab[id] != "" && CallContinues(names, u, vocab[id])
  {
    hide Run, FreshMask, Bit, Finishable, Inv, Continues, Complete, CallContinues, CallComplete;
    var g := Run(Init(names, litWord), u);
    InitInv(names, litWord);
    RunKeeps(Init(names, litWord), u);
    FreshMaskExact(vocab, closerId, g);
    assert Bit(FreshMask(vocab, closerId, g), id) <==> Belongs(vocab, closerId, g, id);
    CallInProgress(names, litWord, u, vocab[id]);
  }

  /** The mask while only the ids below `n` have been visited. */
  function PartMask(vocab: seq<string>, closerId: int, g: Config, n: nat): Mask {
    seq(WordCount(vocab), w requires 0 <= w => seq(WORD_BITS, b requires 0 <= b =>
      w * WORD_BITS + b < n && Flag(vocab, closerId, g, w * WORD_BITS + b)))
  }

  lemma PartMaskNext(vocab: seq<string>, closerId: int, g: Config, n: nat)
    requires n < |vocab|
    ensures var m := PartMask(vocab, closerId, g, n);
      && n / WORD_BITS < |m| && |m[n / WORD_BITS]| == WORD_BITS
      && PartMask(vocab, closerId, g, n + 1) ==
         if Legal(vocab, closerId, g, n) then m[n / WORD_BITS := m[n / WORD_BITS][n % WORD_BITS := true]] else m
  {
    hide Legal;
    var m, q, r := PartMask(vocab, closerId, g, n), n / WORD_BITS, n % WORD_BITS;
    assert n == q * WORD_BITS + r;
    var next := PartMask(vocab, closerId, g, n + 1);
    forall w | 0 <= w < |m|
      ensures next[w] == if w == q && Legal(vocab, closerId, g, n) then m[w][r := true] else m[w]
    {
      forall b | 0 <= b < WORD_BITS
        ensures next[w][b] == if w == q && b == r && Legal(vocab, closerId, g, n) then true else m[w][b]
      {
        var id := w * WORD_BITS + b;
        assert next[w][b] == (id < n + 1 && Flag(vocab, closerId, g, id));
        assert m[w][b] == (id < n && Flag(vocab, closerId, g, id));
        if id == n { assert w == q && b == r; }
      }
    }
  }

  lemma PartMaskEnds(vocab: seq<string>, closerId: int, g: Config)
    ensures PartMask(vocab, closerId, g, 0) == seq(WordCount(vocab), _ => seq(WORD_BITS, _ => false))
    ensures PartMask(vocab, closerId, g, |vocab|) == FreshMask(vocab, closerId, g)
  {
    var z, e, f := PartMask(vocab, closerId, g, 0), PartMask(vocab, closerId, g, |vocab|), FreshMask(vocab, closerId, g);
    hide Legal;
    forall w | 0 <= w < |z| ensures z[w] == seq(WORD_BITS, _ => false) && e[w] == f[w] {
      forall b | 0 <= b < WORD_BITS ensures e[w][b] == f[w][b] {
        var id := w * WORD_BITS + b;
        assert e[w][b] == (id < |vocab| && Flag(vocab, closerId, g, id));
        assert f[w][b] == Flag(vocab, closerId, g, id);
      }
    }
  }

  /** Names the signature is sound for. */
  ghost predicate PlainNames(names: seq<string>) {
    BarFree(names) && SepFree(names)
  }

  lemma SameSignatureMask(vocab: seq<string>, closerId: int, a: Config, b: Config)
    requires SigInv(a) && SigInv(b) && SignatureOf(a) == SignatureOf(b)
    requires PlainNames(a.names) && PlainNames(b.names)
    ensures FreshMask(vocab, closerId, a) == FreshMask(vocab, closerId, b)
  {
    hide Run, Advance, SignatureOf, FreshMask, SigInv, BarFree, SepFree;
    SignatureDecides(a, b);
    SameLiveLanguage(a, b);
    SameLanguageMask(vocab, closerId, a, b);
  }

  class ToolMaskCache {
    const vocab: seq<string>
    const closerId: int
    var index: map<string, nat>
    var content: map<Mask, nat>
    var masks: seq<Mask>
    /** The state each signature was first asked for. */
    ghost var origin: map<string, Config>

    ghost predicate Valid()
      reads this
    {
      && index.Keys == origin.Keys
      && (forall s :: s in index ==>
        && SignatureOf(origin[s]) == s
        && SigInv(origin[s])
        && index[s] < |masks|
        && masks[index[s]] == FreshMask(vocab, closerId, origin[s]))
      && (forall m :: m in content ==> content[m] < |masks| && masks[content[m]] == m)
      && (forall i :: 0 <= i < |masks| ==> masks[i] in content && content[masks[i]] == i)
    }

    /** So far every state asked for had names the signature is sound for. */
    ghost predicate Plain()
      reads this
    {
      forall s :: s in origin ==> PlainNames(origin[s].names)
    }

    constructor (vocab: seq<string>, closerId: int)
      ensures Valid() && Plain() && this.vocab == vocab && this.closerId == closerId
      ensures masks == [] && index == map[]
    {
      this.vocab := vocab;
      this.closerId := closerId;
      index, content, masks, origin := map[], map[], [], map[];
    }

    method IsLegal(g: Machine, id: nat) returns (ok: bool)
      requires g.Valid() && id < |vocab|
      ensures ok == Legal(vocab, closerId, g.View(), id)
    {
      hide Run, Advance, SigInv;
      if id == closerId {
        ok := g.IsDone();
      } else if vocab[id] == "" {
        ok := false;
      } else {
        ok := g.TokenOk(vocab[id]);
      }
    }

    /** Simulate every token from `g`. */
    method Build(g: Machine) returns (m: Mask)
      requires g.Valid()
      ensures m == FreshMask(vocab, closerId, g.View())
      ensures Inv(g.View()) && Finishable(g.names) ==> Exact(vocab, closerId, g.View(), m)
    {
      hide Run, Advance, PartMask, FreshMask, SigInv, Legal, Exact, Inv, Finishable;
      m := seq(WordCount(vocab), _ => seq(WORD_BITS, _ => false));
      PartMaskEnds(vocab, closerId, g.View());
      var id := 0;
      while id < |vocab|
        invariant 0 <= id <= |vocab|
        invariant m == PartMask(vocab, closerId, g.View(), id)
      {
        var ok := IsLegal(g, id);
        PartMaskNext(vocab, closerId, g.View(), id);
        if ok {
          m := m[id / WORD_BITS := m[id / WORD_BITS][id % WORD_BITS := true]];
        }
        id := id + 1;
      }
      if Inv(g.View()) && Finishable(g.names) { FreshMaskExact(vocab, closerId, g.View()); }
    }

    /** Appends a mask that is not there yet. */
    method Append(m: Mask) returns (idx: nat)
      requires Valid() && m !in content
      modifies this`masks, this`content
      ensures Valid() && masks == old(masks) + [m] && idx == |old(masks)| && old(Plain()) == Plain()
    {
      hide FreshMask, SignatureOf, SigInv, PlainNames;
      idx := |masks|;
      masks := masks + [m];
      content := content[m := idx];
    }

    /** Files an existing mask under the signature of `g`. */
    method File(sig: string, g: Machine, idx: nat)
      requires Valid() && g.Valid() && sig == SignatureOf(g.View()) && sig !in index
      requires idx < |masks| && masks[idx] == FreshMask(vocab, closerId, g.View())
      modifies this`index, this`origin
      ensures Valid() && index == old(index)[sig := idx] && origin == old(origin)[sig := g.View()]
    {
      hide FreshMask, SignatureOf, PlainNames, NamesKey;
      origin := origin[sig := g.View()];
      index := index[sig := idx];
    }

    /** The mask index of a state.  Masks are only ever appended and a signature keeps
        its index; the mask is that of the state the signature was first asked for, and
        for plain names that is the one simulated afresh from `g`, which offers exactly the
        tokens the call can go on with. */
    method Get(g: Machine) returns (idx: nat)
      requires Valid() && g.Valid()
      modifies this
      ensures Valid()
      ensures old(masks) <= masks && |masks| <= |old(masks)| + 1
      ensures forall s :: s in old(index) ==> s in index && index[s] == old(index)[s] && origin[s] == old(origin)[s]
      ensures var sig := SignatureOf(g.View());
        && sig in index && index[sig] == idx < |masks|
        && masks[idx] == FreshMask(vocab, closerId, origin[sig])
        && (sig !in old(index) ==> origin[sig] == g.View())
      ensures old(Plain()) && PlainNames(g.names) ==> Plain() && masks[idx] == FreshMask(vocab, closerId, g.View())
      ensures old(Plain()) && PlainNames(g.names) && Inv(g.View()) && Finishable(g.names) ==>
        Exact(vocab, closerId, g.View(), masks[idx])
    {
      hide Run, Advance, SignatureOf, FreshMask, PlainNames, NamesKey, SigInv, ToolMaskCache.Valid, Machine.Valid;
      hide Exact, Inv, Finishable;
      if Inv(g.View()) && Finishable(g.names) { FreshMaskExact(vocab, closerId, g.View()); }
      var sig := g.SignatureString();
      if sig in index {
        FiledMask(this, g);
        return index[sig];
      }
      var m := Build(g);
      idx := Place(m);
      File(sig, g, idx);
      FiledMask(this, g);
    }

    /** The index of a mask, appended if it is not there yet. */
    method Place(m: Mask) returns (idx: nat)
      requires Valid()
      modifies this`masks, this`content
      ensures Valid() && old(masks) <= masks && |masks| <= |old(masks)| + 1
      ensures idx < |masks| && masks[idx] == m && Plain() == old(Plain())
    {
      hide FreshMask, SignatureOf, SigInv, PlainNames;
      if m in content {
        idx := content[m];
      } else {
        idx := Append(m);
      }
    }
  }

  /** Any sequence of requests, over any allowlists, against one cache: every mask is
      that of the first state with the same signature, and for plain names the fresh one. */
  method GetAll(c: ToolMaskCache, gs: seq<Machine>) returns (idxs: seq<nat>)
    requires c.Valid() && forall g :: g in gs ==> g.Valid()
    modifies c
    ensures c.Valid() && old(c.masks) <= c.masks && |idxs| == |gs|
    ensures forall k :: 0 <= k < |gs| ==>
      var sig := SignatureOf(gs[k].View());
      && sig in c.index && c.index[sig] == idxs[k] < |c.masks|
      && c.masks[idxs[k]] == FreshMask(c.vocab, c.closerId, c.origin[sig])
    ensures old(c.Plain()) && (forall g :: g in gs ==> PlainNames(g.names)) ==>
      forall k :: 0 <= k < |gs| ==>
        && idxs[k] < |c.masks|
        && c.masks[idxs[k]] == FreshMask(c.vocab, c.closerId, gs[k].View())
        && (Inv(gs[k].View()) && Finishable(gs[k].names) ==> Exact(c.vocab, c.closerId, gs[k].View(), c.masks[idxs[k]]))
  {
    hide Run, Advance, SignatureOf, FreshMask, SigInv, PlainNames, ToolMaskCache.Valid, Machine.Valid, ToolMaskCache.Plain;
    hide Exact, Inv, Finishable;
    idxs := [];
    var k := 0;
    ghost var plain := c.Plain() && forall g :: g in gs ==> PlainNames(g.names);
    while k < |gs|
      invariant 0 <= k <= |gs| && |idxs| == k
      invariant c.Valid() && old(c.masks) <= c.masks && (plain ==> c.Plain())
      invariant forall g :: g in gs ==> g.Valid()
      invariant forall j :: 0 <= j < k ==>
        SignatureOf(gs[j].View()) in c.index && c.index[SignatureOf(gs[j].View())] == idxs[j]
    {
      assert gs[k] in gs;
      var i := c.Get(gs[k]);
      idxs := idxs + [i];
      k := k + 1;
    }
    forall j | 0 <= j < |gs|
      ensures var sig := SignatureOf(gs[j].View());
        && sig in c.origin && idxs[j] < |c.masks|
        && c.masks[idxs[j]] == FreshMask(c.vocab, c.closerId, c.origin[sig])
      ensures plain ==> c.masks[idxs[j]] == FreshMask(c.vocab, c.closerId, gs[j].View())
      ensures plain && Inv(gs[j].View()) && Finishable(gs[j].names) ==>
        Exact(c.vocab, c.closerId, gs[j].View(), c.masks[idxs[j]])
    {
      assert gs[j] in gs;
      FiledMask(c, gs[j]);
      if Inv(gs[j].View()) && Finishable(gs[j].names) { FreshMaskExact(c.vocab, c.closerId, gs[j].View()); }
    }
  }

  /** What the cache holds for a state it has been asked for. */
  lemma FiledMask(c: ToolMaskCache, g: Machine)
    requires c.Valid() && g.Valid() && SignatureOf(g.View()) in c.index
    ensures var sig := SignatureOf(g.View());
      && sig in c.origin && c.index[sig] < |c.masks|
      && c.masks[c.index[sig]] == FreshMask(c.vocab, c.closerId, c.origin[sig])
      && (c.Plain() && PlainNames(g.names) ==> c.masks[c.index[sig]] == FreshMask(c.vocab, c.closerId, g.View()))
  {
    hide Run, Advance, SignatureOf, FreshMask, PlainNames, NamesKey, SigInv;
    var sig := SignatureOf(g.View());
    assert SigInv(g.View()) by { MachineSigInv(g); }
    if c.Plain() && PlainNames(g.names) { SameSignatureMask(c.vocab, c.closerId, c.origin[sig], g.View()); }
  }

  lemma MachineSigInv(g: Machine)
    requires g.Valid()
    ensures SigInv(g.View())
  {}

  /** The closer id is legal in a wider set of states than its bytes: half-way through
      the literal closer the id is still allowed, its bytes are not. */
  lemma CloserIdWider(vocab: seq<string>, closerId: nat, g: Config)
    requires closerId < |vocab| && vocab[closerId] == CLOSER
    requires g.st == Closer && !g.dead && g.litWord == CLOSER && 0 < g.lit < |CLOSER|
    ensures Legal(vocab, closerId, g, closerId) && !TokenOk(g, vocab[closerId])
  {
    hide JsonAct;
    assert Advance(g, CLOSER[0]).dead;
    DeadStays(Advance(g, CLOSER[0]), CLOSER[1..]);
    assert Run(g, CLOSER) == Run(Advance(g, CLOSER[0]), CLOSER[1..]);
  }
}
