/** The cache object over its directory: lookup, write, eviction, rescan, and crashes
    between the steps of a write. */
module PrefixStore {
  import opened PrefixCache

  /** What the disk does to one write. */
  datatype Fate = CannotOpen | WriteFails | Succeeds

  /** What else the disk does: whether the directory can be listed, which names resist
      being unlinked, which files cannot be read. */
  datatype Disk = Disk(listable: bool, stuck: set<Name>, unreadable: set<Name>)

  /** Where a write is cut off by the death of the process. */
  datatype Cut = BeforeRename(torn: File) | AfterRename | WhileEvicting(unlinked: nat)

  function Without(index: seq<Entry>, path: Name): seq<Entry> {
    if index == [] then []
    else (if index[0].path == path then [] else [index[0]]) + Without(index[1..], path)
  }

  lemma CompleteHasHeader(f: File, compat: nat)
    requires Complete(f, compat)
    ensures f.hdr.Some?
  {}

  lemma {:induction false} WithoutIs(index: seq<Entry>, path: Name)
    requires OncePerPath(index)
    ensures forall e :: e in Without(index, path) <==> e in index && e.path != path
    ensures OncePerPath(Without(index, path)) && Novel(Without(index, path), path)
  {
    if index != [] {
      var rest := index[1..];
      assert OncePerPath(rest);
      WithoutIs(rest, path);
      assert index == [index[0]] + rest;
      var r := Without(rest, path);
      forall e | e in r ensures e.path != index[0].path {
        assert e in rest;
        var k :| 0 <= k < |rest| && rest[k] == e;
        assert index[k + 1] == e;
      }
    }
  }

  function Paths(es: seq<Entry>): set<Name> { set e | e in es :: e.path }

  /** The first `n` of the doomed, those unlinked before the process died. */
  function Gone(doomed: seq<Entry>, n: nat): seq<Entry> {
    doomed[..if n < |doomed| then n else |doomed|]
  }

  /** The state region of an entry, as words and odd bytes. */
  datatype Blob = Blob(words: seq<int>, odd: nat)

  function Whole(compat: nat, hash: seq<int> -> nat, toks: seq<int>, blob: Blob, gdn: nat, kv: nat, now: int): File {
    File(Some(Hdr(true, VERSION, compat, hash(toks), |toks|, gdn, kv)), toks + blob.words, blob.odd, now)
  }

  /** A whole write of this kind, under some hash, left just this. */
  ghost predicate Written(f: File, compat: nat) {
    exists hash: seq<int> -> nat, toks, blob: Blob, gdn: nat, kv: nat, now ::
      && toks != [] && blob.odd < 4 && gdn + kv == 4 * |blob.words| + blob.odd
      && f == Whole(compat, hash, toks, blob, gdn, kv, now)
  }

  /** The header check of a rescan passes exactly the files that a write of this kind
      could have finished. */
  lemma CompleteExactly(f: File, compat: nat)
    requires f.odd < 4
    ensures Complete(f, compat) <==> Written(f, compat)
  {
    if Complete(f, compat) {
      var h := f.hdr.value;
      var blob := Blob(f.words[h.len..], f.odd);
      assert f.words == f.words[..h.len] + blob.words;
      var hash: seq<int> -> nat := _ => h.tokHash;
      assert f == Whole(compat, hash, f.words[..h.len], blob, h.gdn, h.kv, f.mtime);
    }
  }

  /** The front of the sorted index, up to where the rest fits. */
  lemma FrontIsDoomed(before: seq<Entry>, s: seq<Entry>, k: nat, budget: nat)
    requires Ascending(s, Age) && OncePerPath(s) && Rearranged(s, before) && Total(before) > budget
    requires forall e :: e in s <==> e in before
    requires k <= |s| && (k == |s| || Total(s[k..]) <= budget)
    requires if k == 0 then Total(s) > budget && Total(s[k..]) > budget else Total(s[k - 1..]) > budget
    ensures Trimmed(before, s[k..], s[..k], budget) && OncePerPath(s[k..])
    ensures forall e :: e in before <==> e in s[..k] || e in s[k..]
    ensures forall x, y :: x in s[..k] && y in s[k..] ==> x.path != y.path
  {
    assert s[|s|..] == [];
    assert s[..k] + s[k..] == s;
    assert k > 0 && [s[k - 1]] + s[k..] == s[k - 1..];
    assert s[..k][k - 1] == s[k - 1];
    forall x, y | x in s[..k] && y in s[k..] ensures x.path != y.path {
      var i :| 0 <= i < k && s[..k][i] == x;
      var j :| 0 <= j < |s| - k && s[k..][j] == y;
      assert s[i].path != s[k + j].path;
    }
  }

  /** The directory without the leftover temporaries that let themselves be unlinked. */
  function Swept(d: Dir, disk: Disk): Dir {
    map n | n in d && (n.Temp? ==> n in disk.stuck) :: d[n]
  }

  /** The directory while it is being swept. */
  function SweptSoFar(d: Dir, disk: Disk, done: set<Name>): Dir {
    map n | n in d && !(n.Temp? && n in done && n !in disk.stuck) :: d[n]
  }

  lemma SweepOneMore(d: Dir, disk: Disk, done: set<Name>, n: Name)
    requires n in d && n !in done
    ensures n in SweptSoFar(d, disk, done) && SweptSoFar(d, disk, done)[n] == d[n]
    ensures SweptSoFar(d, disk, done + {n}) ==
      SweptSoFar(d, disk, done) - (if n.Temp? && n !in disk.stuck then {n} else {})
  {}

  lemma SweepStartsAndEnds(d: Dir, disk: Disk)
    ensures SweptSoFar(d, disk, {}) == d && SweptSoFar(d, disk, d.Keys) == Swept(d, disk)
  {}

  function Started(d: Dir, disk: Disk): Dir {
    if disk.listable then Swept(d, disk) else d
  }

  predicate Found(compat: nat, d: Dir, disk: Disk, n: Name) {
    n.Final? && n in d && n !in disk.unreadable && Complete(d[n], compat)
  }

  /** The entries of the names looked at so far, once each. */
  ghost predicate Lists(compat: nat, d: Dir, disk: Disk, done: set<Name>, es: seq<Entry>) {
    && OncePerPath(es)
    && forall e :: e in es <==> e.path in done && Found(compat, d, disk, e.path) && e == EntryOf(e.path, d[e.path])
  }

  lemma ListOneMore(compat: nat, d: Dir, disk: Disk, done: set<Name>, es: seq<Entry>, n: Name)
    requires Lists(compat, d, disk, done, es) && n in d && n !in done
    ensures if Found(compat, d, disk, n) then Lists(compat, d, disk, done + {n}, es + [EntryOf(n, d[n])]) else Lists(compat, d, disk, done + {n}, es)
  {
    hide Complete;
    if Found(compat, d, disk, n) {
      assert d[n].hdr.Some? by { CompleteHasHeader(d[n], compat); }
      var more := es + [EntryOf(n, d[n])];
      forall e ensures e in more <==> e in es || e == EntryOf(n, d[n]) {}
    }
  }

  lemma ListedIsIndexed(compat: nat, d: Dir, disk: Disk, es: seq<Entry>)
    requires Lists(compat, d, disk, d.Keys, es)
    ensures Indexed(Swept(d, disk), compat, es) && Lists(compat, Swept(d, disk), disk, Swept(d, disk).Keys, es)
  {
    hide OncePerPath;
    forall e | e in es ensures Describes(Swept(d, disk), compat, e) {}
  }

  lemma ListsNothing(compat: nat, d: Dir, disk: Disk)
    ensures Lists(compat, d, disk, {}, [])
  {}

  lemma FoundIsFinal(compat: nat, d: Dir, disk: Disk, n: Name)
    ensures Found(compat, d, disk, n) ==> n.Final? && n in d && d[n].hdr.Some?
  {}

  lemma FoundIsLocal(compat: nat, d: Dir, now: Dir, disk: Disk, n: Name)
    requires n in d && n in now && now[n] == d[n]
    ensures Found(compat, now, disk, n) == Found(compat, d, disk, n)
  {}

  class Cache {
    const hash: seq<int> -> nat
    const compat: nat
    const budget: nat
    const minTokens: int
    var enabled: bool
    var dir: Dir
    var index: seq<Entry>

    ghost predicate Valid()
      reads this
    {
      Sound(dir) && Indexed(dir, compat, index)
    }

    /** The headers on disk tell the truth about their tokens. */
    ghost predicate Truthful()
      reads this
    {
      Honest(dir, hash, compat)
    }

    constructor (hash_: seq<int> -> nat, compat_: nat, budget_: nat, minTokens_: int, found: Dir, disk: Disk)
      requires Sound(found)
      ensures Valid() && enabled && hash == hash_ && compat == compat_ && budget == budget_ && minTokens == minTokens_
      ensures dir == Started(found, disk)
      ensures if disk.listable then IndexesDirectory(disk) else index == []
      ensures Honest(found, hash_, compat_) ==> Truthful()
    {
      hash, compat, budget, minTokens := hash_, compat_, budget_, minTokens_;
      enabled, dir, index := true, found, [];
      new;
      Rescan(disk);
    }

    /** The index is exactly the complete and readable files of this cache's kind. */
    ghost predicate IndexesDirectory(disk: Disk)
      reads this
    {
      Lists(compat, dir, disk, dir.Keys, index)
    }

    /** `rescan`, in whatever order the directory lists its names. */
    method Rescan(disk: Disk)
      requires Valid()
      modifies `index, `dir
      ensures Valid() && dir == Started(old(dir), disk)
      ensures if disk.listable then IndexesDirectory(disk) else index == old(index)
      ensures old(Truthful()) ==> Truthful()
    {
      if !disk.listable { return; }
      ghost var d := dir;
      SweepStartsAndEnds(d, disk);
      hide Complete, Found, Lists, Indexed, SweptSoFar;
      var found: seq<Entry> := [];
      var todo := dir.Keys;
      ghost var done: set<Name> := {};
      assert Lists(compat, d, disk, {}, []) by { ListsNothing(compat, d, disk); }
      while todo != {}
        invariant todo <= d.Keys && done == d.Keys - todo
        invariant dir == SweptSoFar(d, disk, done)
        invariant Lists(compat, d, disk, done, found)
        decreases |todo|
      {
        var n :| n in todo;
        SweepOneMore(d, disk, done, n);
        ListOneMore(compat, d, disk, done, found, n);
        FoundIsFinal(compat, d, disk, n);
        FoundIsLocal(compat, d, dir, disk, n);
        if n.Temp? {
          if n !in disk.stuck { dir := dir - {n}; }
        } else if Found(compat, dir, disk, n) {
          found := found + [EntryOf(n, dir[n])];
        }
        todo, done := todo - {n}, done + {n};
      }
      assert done == d.Keys;
      ListedIsIndexed(compat, d, disk, found);
      index := found;
    }

    /** Read the stored tokens back and compare. */
    method Verify(e: Entry, prompt: seq<int>, disk: Disk) returns (ok: bool)
      requires 0 <= e.len <= |prompt|
      ensures ok == (e.path !in disk.unreadable && TokensAre(dir, e, prompt))
    {
      if e.path !in dir || e.path in disk.unreadable { return false; }
      var words := dir[e.path].words;
      if |words| < e.len { return false; }
      var i := 0;
      while i < e.len
        invariant 0 <= i <= e.len && words[..i] == prompt[..i]
      {
        if words[i] != prompt[i] {
          assert words[..e.len][i] != prompt[..e.len][i];
          return false;
        }
        assert words[..i + 1] == words[..i] + [words[i]] && prompt[..i + 1] == prompt[..i] + [prompt[i]];
        i := i + 1;
      }
      ok := true;
    }

    ghost predicate CanUse(e: Entry, prompt: seq<int>, disk: Disk)
      reads this
    {
      e.path !in disk.unreadable && Usable(dir, hash, minTokens, e, prompt)
    }

    ghost predicate FitsHere(e: Entry, prompt: seq<int>, disk: Disk)
      reads this
    {
      e.path !in disk.unreadable && Fits(dir, minTokens, e, prompt)
    }

    lemma TruthfulFits(prompt: seq<int>, disk: Disk)
      requires Valid() && Truthful()
      ensures forall e :: e in index ==> (CanUse(e, prompt, disk) <==> FitsHere(e, prompt, disk))
    {
      forall e | e in index ensures CanUse(e, prompt, disk) <==> FitsHere(e, prompt, disk) {
        HashRulesNobodyOut(dir, hash, compat, index, minTokens, e, prompt);
      }
    }

    /** `find`: a longest usable entry, whatever hashes collide; with truthful headers the
        longest stored prefix of all. */
    method Find(prompt: seq<int>, disk: Disk) returns (found: bool, out: Option<Entry>)
      requires Valid()
      ensures found == out.Some?
      ensures found ==> out.value in index && CanUse(out.value, prompt, disk)
      ensures found ==> forall e :: e in index && CanUse(e, prompt, disk) ==> e.len <= out.value.len
      ensures !found && enabled ==> forall e :: e in index ==> !CanUse(e, prompt, disk)
      ensures found ==> FitsHere(out.value, prompt, disk)
      ensures Truthful() && found ==> forall e :: e in index && FitsHere(e, prompt, disk) ==> e.len <= out.value.len
      ensures Truthful() && !found && enabled ==> forall e :: e in index ==> !FitsHere(e, prompt, disk)
    {
      if Truthful() { TruthfulFits(prompt, disk); }
      if !enabled || prompt == [] { return false, None; }
      var cands := Sort(index, Shortness);
      var i := 0;
      while i < |cands|
        invariant i <= |cands| && forall j :: 0 <= j < i ==> !CanUse(cands[j], prompt, disk)
      {
        var e := cands[i];
        assert e in cands && Describes(dir, compat, e);
        if e.len >= minTokens && e.len + 1 <= |prompt| && hash(prompt[..e.len]) == e.key {
          var ok := Verify(e, prompt, disk);
          if ok {
            forall x | x in index && CanUse(x, prompt, disk) ensures x.len <= e.len {
              assert x in cands;
              var k :| 0 <= k < |cands| && cands[k] == x;
              assert k == i || Shortness(cands[i]) <= Shortness(cands[k]);
            }
            return true, Some(e);
          }
        }
        i := i + 1;
      }
      forall e | e in index ensures !CanUse(e, prompt, disk) { assert e in cands; }
      found, out := false, None;
    }

    /** `has`. */
    method Has(toks: seq<int>, len: int) returns (r: bool)
      ensures r <==> enabled && 0 < len <= |toks| && exists e :: e in index && e.len == len && e.key == hash(toks[..len])
    {
      if !enabled || len <= 0 || len > |toks| { return false; }
      var k := hash(toks[..len]);
      var i := 0;
      while i < |index|
        invariant i <= |index| && forall j :: 0 <= j < i ==> !(index[j].len == len && index[j].key == k)
      {
        if index[i].len == len && index[i].key == k {
          assert index[i] in index;
          return true;
        }
        i := i + 1;
      }
      r := false;
    }

    /** The index half of an eviction: oldest entries leave until the rest fits. */
    method PickDoomed() returns (doomed: seq<Entry>)
      requires OncePerPath(index)
      modifies `index
      ensures Trimmed(old(index), index, doomed, budget) && OncePerPath(index)
      ensures forall e :: e in old(index) <==> e in doomed || e in index
      ensures forall x, y :: x in doomed && y in index ==> x.path != y.path
    {
      doomed := [];
      if Total(index) <= budget { return; }
      hide Total, OncePerPath, Ascending, Rearranged, Trimmed;
      var s := Sort(index, Age);
      var k := 0;
      assert s[0..] == s;
      while k < |s| && Total(s[k..]) > budget
        invariant k <= |s| && (k > 0 ==> Total(s[k - 1..]) > budget) && (k == 0 ==> Total(s[k..]) > budget)
      {
        k := k + 1;
      }
      FrontIsDoomed(old(index), s, k, budget);
      doomed, index := s[..k], s[k..];
    }

    /** Unlink one evicted file after the other; a failure is not looked at. */
    method UnlinkAll(doomed: seq<Entry>, n: nat, disk: Disk)
      requires n <= |doomed|
      modifies `dir
      ensures dir == old(dir) - (Paths(doomed[..n]) - disk.stuck)
    {
      var i := 0;
      while i < n
        invariant i <= n && dir == old(dir) - (Paths(doomed[..i]) - disk.stuck)
      {
        assert doomed[..i + 1] == doomed[..i] + [doomed[i]];
        if doomed[i].path !in disk.stuck { dir := dir - {doomed[i].path}; }
        i := i + 1;
      }
    }

    /** `evict_to_budget`. */
    method EvictToBudget(disk: Disk) returns (doomed: seq<Entry>)
      requires Valid()
      modifies `index, `dir
      ensures Valid() && (old(Truthful()) ==> Truthful())
      ensures !enabled ==> index == old(index) && dir == old(dir)
      ensures enabled ==> Trimmed(old(index), index, doomed, budget) && dir == old(dir) - (Paths(doomed) - disk.stuck)
    {
      doomed := [];
      if !enabled { return; }
      doomed := PickDoomed();
      UnlinkAll(doomed, |doomed|, disk);
      assert doomed[..|doomed|] == doomed;
      forall e | e in index ensures Describes(dir, compat, e) {
        assert e in old(index) && Describes(old(dir), compat, e);
      }
    }

    ghost function Target(toks: seq<int>, len: int): Stem
      requires 0 < len <= |toks|
    {
      Own(hash(toks[..len]), len)
    }

    ghost function Content(toks: seq<int>, len: int, blob: Blob, gdn: nat, kv: nat, now: int): File
      requires 0 < len <= |toks|
    {
      Whole(compat, hash, toks[..len], blob, gdn, kv, now)
    }

    /** Up to and including the rename: the file is there, complete, under its name. */
    method Publish(toks: seq<int>, len: int, blob: Blob, gdn: nat, kv: nat, torn: File, now: int)
      requires 0 < len <= |toks|
      modifies `dir
      ensures dir == old(dir)[Final(Target(toks, len)) := Content(toks, len, blob, gdn, kv, now)] - {Temp(Target(toks, len))}
    {
      var stem := Own(hash(toks[..len]), len);
      dir := dir[Temp(stem) := torn];
      dir := dir[Temp(stem) := Whole(compat, hash, toks[..len], blob, gdn, kv, now)];
      dir := dir[Final(stem) := dir[Temp(stem)]] - {Temp(stem)};
    }

    /** Replace or add the index entry of a published file. */
    method Enter(toks: seq<int>, len: int, blob: Blob, gdn: nat, kv: nat, now: int)
      requires 0 < len <= |toks| && OncePerPath(index)
      modifies `index
      ensures OncePerPath(index)
      ensures index == Without(old(index), Final(Target(toks, len)))
        + [EntryOf(Final(Target(toks, len)), Content(toks, len, blob, gdn, kv, now))]
    {
      var key := hash(toks[..len]);
      var path := Final(Own(key, len));
      WithoutIs(index, path);
      var e := Entry(path, len, key, HEADER_BYTES + len * 4 + (4 * |blob.words| + blob.odd), now);
      index := Without(index, path) + [e];
    }

    /** `write`. */
    method Write(toks: seq<int>, len: int, blob: Blob, gdn: nat, kv: nat, fate: Fate, disk: Disk, torn: File, now: int)
      returns (done: bool, doomed: seq<Entry>)
      requires Valid() && blob.odd < 4 && torn.odd < 4 && gdn + kv == 4 * |blob.words| + blob.odd
      modifies `index, `dir
      ensures Valid() && (old(Truthful()) ==> Truthful())
      ensures done <==> enabled && 0 < len <= |toks| && fate.Succeeds?
      ensures !done ==> index == old(index) && forall n: Name :: n.Final? ==> (n in dir <==> n in old(dir)) && (n in dir ==> dir[n] == old(dir)[n])
      ensures done ==>
        var path, file := Final(Target(toks, len)), Content(toks, len, blob, gdn, kv, now);
        && Trimmed(Without(old(index), path) + [EntryOf(path, file)], index, doomed, budget)
        && dir == old(dir)[path := file] - {Temp(Target(toks, len))} - (Paths(doomed) - disk.stuck)
    {
      done, doomed := false, [];
      if !enabled || len <= 0 || len > |toks| || fate.CannotOpen? { return; }
      var stem := Own(hash(toks[..len]), len);
      if fate.WriteFails? {
        dir := dir[Temp(stem) := torn];
        if Temp(stem) !in disk.stuck { dir := dir - {Temp(stem)}; }
        return;
      }
      Publish(toks, len, blob, gdn, kv, torn, now);
      Enter(toks, len, blob, gdn, kv, now);
      PublishedIsValid(old(dir), old(index), toks, len, blob, gdn, kv, now);
      if old(Truthful()) { PublishedIsHonest(old(dir), toks, len, blob, gdn, kv, now); }
      doomed := EvictToBudget(disk);
      done := true;
    }

    lemma PublishedIsHonest(d: Dir, toks: seq<int>, len: int, blob: Blob, gdn: nat, kv: nat, now: int)
      requires Honest(d, hash, compat) && 0 < len <= |toks|
      ensures Honest(d[Final(Target(toks, len)) := Content(toks, len, blob, gdn, kv, now)] - {Temp(Target(toks, len))}, hash, compat)
    {
      var f := Content(toks, len, blob, gdn, kv, now);
      assert f.words[..len] == toks[..len];
    }

    lemma PublishedIsValid(d: Dir, index: seq<Entry>, toks: seq<int>, len: int, blob: Blob, gdn: nat, kv: nat, now: int)
      requires Sound(d) && Indexed(d, compat, index) && 0 < len <= |toks|
      requires blob.odd < 4 && gdn + kv == 4 * |blob.words| + blob.odd
      ensures var path, file := Final(Target(toks, len)), Content(toks, len, blob, gdn, kv, now);
        var d1 := d[path := file] - {Temp(Target(toks, len))};
        var index1 := Without(index, path) + [EntryOf(path, file)];
        Sound(d1) && Indexed(d1, compat, index1)
    {
      var path, file := Final(Target(toks, len)), Content(toks, len, blob, gdn, kv, now);
      WithoutIs(index, path);
      var index1 := Without(index, path) + [EntryOf(path, file)];
      var d1 := d[path := file] - {Temp(Target(toks, len))};
      forall e | e in index1 ensures Describes(d1, compat, e) {
        if e != EntryOf(path, file) { assert e in index && Describes(d, compat, e); }
      }
    }

    /** A write cut off by the end of the process. */
    method Crash(toks: seq<int>, len: int, blob: Blob, gdn: nat, kv: nat, torn: File, now: int, cut: Cut, disk: Disk)
      returns (ghost doomed: seq<Entry>)
      requires Valid() && 0 < len <= |toks| && torn.odd < 4
      requires blob.odd < 4 && gdn + kv == 4 * |blob.words| + blob.odd
      requires cut.BeforeRename? ==> cut.torn.odd < 4
      modifies `index, `dir
      ensures Sound(dir) && (old(Truthful()) ==> Truthful())
      ensures cut.BeforeRename? ==> dir == old(dir)[Temp(Target(toks, len)) := cut.torn]
      ensures cut.AfterRename? ==>
        dir == old(dir)[Final(Target(toks, len)) := Content(toks, len, blob, gdn, kv, now)] - {Temp(Target(toks, len))}
      ensures cut.WhileEvicting? ==>
        var path, file := Final(Target(toks, len)), Content(toks, len, blob, gdn, kv, now);
        && Trimmed(Without(old(index), path) + [EntryOf(path, file)], index, doomed, budget)
        && dir == old(dir)[path := file] - {Temp(Target(toks, len))} - (Paths(Gone(doomed, cut.unlinked)) - disk.stuck)
      ensures forall n :: n in dir && n.Final? ==>
        || (n in old(dir) && dir[n] == old(dir)[n])
        || (n == Final(Target(toks, len)) && dir[n] == Content(toks, len, blob, gdn, kv, now))
    {
      hide Indexed;
      doomed := [];
      var stem := Own(hash(toks[..len]), len);
      if cut.BeforeRename? {
        dir := dir[Temp(stem) := cut.torn];
        return;
      }
      if old(Truthful()) { PublishedIsHonest(old(dir), toks, len, blob, gdn, kv, now); }
      PublishedIsValid(old(dir), old(index), toks, len, blob, gdn, kv, now);
      Publish(toks, len, blob, gdn, kv, torn, now);
      if cut.WhileEvicting? {
        assert OncePerPath(index) by { IndexedOnce(old(dir), index); }
        Enter(toks, len, blob, gdn, kv, now);
        var picked := PickDoomed();
        UnlinkAll(picked, if cut.unlinked < |picked| then cut.unlinked else |picked|, disk);
        doomed := picked;
      }
    }

    lemma IndexedOnce(d: Dir, es: seq<Entry>)
      requires Indexed(d, compat, es)
      ensures OncePerPath(es)
    {}

    /** A crash in the middle of a write, and the next start. */
    method CrashAndRestart(toks: seq<int>, len: int, blob: Blob, gdn: nat, kv: nat, torn: File, now: int, cut: Cut, disk: Disk)
      returns (ghost rest: seq<Entry>, ghost doomed: seq<Entry>)
      requires Valid() && enabled && 0 < len <= |toks| && torn.odd < 4
      requires blob.odd < 4 && gdn + kv == 4 * |blob.words| + blob.odd
      requires cut.BeforeRename? ==> cut.torn.odd < 4
      modifies this
      ensures Valid() && enabled && (old(Truthful()) ==> Truthful())
      ensures if disk.listable then IndexesDirectory(disk) else index == []
      ensures disk.listable ==> forall n :: n in dir && n.Temp? ==> n in disk.stuck
      ensures cut.BeforeRename? ==> dir == Started(old(dir)[Temp(Target(toks, len)) := cut.torn], disk)
      ensures cut.AfterRename? ==>
        dir == Started(old(dir)[Final(Target(toks, len)) := Content(toks, len, blob, gdn, kv, now)] - {Temp(Target(toks, len))}, disk)
      ensures cut.WhileEvicting? ==>
        var path, file := Final(Target(toks, len)), Content(toks, len, blob, gdn, kv, now);
        && Trimmed(Without(old(index), path) + [EntryOf(path, file)], rest, doomed, budget)
        && dir == Started(old(dir)[path := file] - {Temp(Target(toks, len))} - (Paths(Gone(doomed, cut.unlinked)) - disk.stuck), disk)
      ensures forall n :: n in dir && n.Final? ==>
        || (n in old(dir) && dir[n] == old(dir)[n])
        || (n == Final(Target(toks, len)) && dir[n] == Content(toks, len, blob, gdn, kv, now))
    {
      hide Honest, Content, Lists, Complete, Target, Trimmed;
      doomed := Crash(toks, len, blob, gdn, kv, torn, now, cut, disk);
      rest := index;
      index := [];
      Rescan(disk);
    }
  }
}
