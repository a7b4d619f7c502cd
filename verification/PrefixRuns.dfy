/** Whole histories of the disk tier: which of the writes a lookup can still find. */
module PrefixRuns {
  import opened PrefixCache
  import opened PrefixStore

  /** The arguments of one write. */
  datatype Job = Job(toks: seq<int>, len: int, blob: Blob, gdn: nat, kv: nat, torn: File, now: int)

  predicate Proper(j: Job) {
    j.blob.odd < 4 && j.torn.odd < 4 && j.gdn + j.kv == 4 * |j.blob.words| + j.blob.odd
  }

  /** What happens to a cache: writes, and deaths in the middle of one. */
  datatype Happening = Saves(job: Job, fate: Fate, disk: Disk) | Dies(job: Job, cut: Cut, disk: Disk)

  predicate MayHappen(h: Happening) {
    && Proper(h.job)
    && (h.Dies? ==> 0 < h.job.len <= |h.job.toks| && (h.cut.BeforeRename? ==> h.cut.torn.odd < 4))
  }

  // ------------------------------------------------------- one happening, a history

  /** What a cache was made with. */
  datatype Setting = Setting(hash: seq<int> -> nat, compat: nat, budget: nat)

  datatype Snapshot = Snapshot(dir: Dir, index: seq<Entry>)

  predicate Sized(j: Job) { 0 < j.len <= |j.toks| }

  function StemOf(k: Setting, j: Job): Stem
    requires Sized(j)
  {
    Own(k.hash(j.toks[..j.len]), j.len)
  }

  function PathOf(k: Setting, j: Job): Name
    requires Sized(j)
  {
    Final(StemOf(k, j))
  }

  function FileOf(k: Setting, j: Job): File
    requires Sized(j)
  {
    Whole(k.compat, k.hash, j.toks[..j.len], j.blob, j.gdn, j.kv, j.now)
  }

  function NewEntry(k: Setting, j: Job): Entry
    requires Sized(j)
  {
    EntryOf(PathOf(k, j), FileOf(k, j))
  }

  /** The directory once the file has been renamed into place. */
  function Landed(k: Setting, j: Job, d: Dir): Dir
    requires Sized(j)
  {
    d[PathOf(k, j) := FileOf(k, j)] - {Temp(StemOf(k, j))}
  }

  function Entered(k: Setting, j: Job, index: seq<Entry>): seq<Entry>
    requires Sized(j)
  {
    Without(index, PathOf(k, j)) + [NewEntry(k, j)]
  }

  /** The file of this job gets its name. */
  predicate Publishes(h: Happening) {
    Sized(h.job) && if h.Saves? then h.fate.Succeeds? else !h.cut.BeforeRename?
  }

  ghost predicate SameFinals(a: Dir, b: Dir) {
    forall n: Name :: n.Final? ==> (n in b <==> n in a) && (n in b ==> b[n] == a[n])
  }

  /** The directory the next start finds after a death. */
  ghost predicate Leaves(k: Setting, a: Snapshot, j: Job, cut: Cut, disk: Disk, left: Dir)
    requires Sized(j)
  {
    match cut
    case BeforeRename(torn) => left == a.dir[Temp(StemOf(k, j)) := torn]
    case AfterRename => left == Landed(k, j, a.dir)
    case WhileEvicting(n) =>
      exists rest, doomed :: Evicts(k, j, a.index, rest, doomed) && left == Landed(k, j, a.dir) - (Paths(Gone(doomed, n)) - disk.stuck)
  }

  ghost predicate Evicts(k: Setting, j: Job, index: seq<Entry>, rest: seq<Entry>, doomed: seq<Entry>)
    requires Sized(j)
  {
    Trimmed(Entered(k, j, index), rest, doomed, k.budget)
  }

  ghost predicate Saved(k: Setting, a: Snapshot, j: Job, disk: Disk, b: Snapshot)
    requires Sized(j)
  {
    exists doomed :: Evicts(k, j, a.index, b.index, doomed) && b.dir == Landed(k, j, a.dir) - (Paths(doomed) - disk.stuck)
  }

  ghost predicate Restarted(k: Setting, a: Snapshot, j: Job, cut: Cut, disk: Disk, b: Snapshot)
    requires Sized(j)
  {
    && (exists left :: Leaves(k, a, j, cut, disk, left) && b.dir == Started(left, disk))
    && if disk.listable then Lists(k.compat, b.dir, disk, b.dir.Keys, b.index) else b.index == []
  }

  /** What one happening does to directory and index. */
  ghost predicate Step(k: Setting, a: Snapshot, h: Happening, b: Snapshot)
    requires MayHappen(h)
  {
    match h
    case Saves(j, _, disk) => if Publishes(h) then Saved(k, a, j, disk, b) else b.index == a.index && SameFinals(a.dir, b.dir)
    case Dies(j, cut, disk) => Restarted(k, a, j, cut, disk, b)
  }

  ghost predicate MayAllHappen(history: seq<Happening>) {
    forall h :: h in history ==> MayHappen(h)
  }

  const NOTHING := Snapshot(map[], [])

  /** A history from an empty directory, and every snapshot on the way. */
  ghost predicate Run(k: Setting, history: seq<Happening>, trace: seq<Snapshot>)
    requires MayAllHappen(history)
  {
    && |trace| == |history| + 1 && trace[0] == NOTHING
    && forall i :: 0 <= i < |history| ==> Step(k, trace[i], history[i], trace[i + 1])
  }

  lemma RunMore(k: Setting, history: seq<Happening>, trace: seq<Snapshot>, h: Happening, b: Snapshot)
    requires MayAllHappen(history) && MayHappen(h) && Run(k, history, trace)
    requires Step(k, trace[|history|], h, b)
    ensures MayAllHappen(history + [h]) && Run(k, history + [h], trace + [b])
  {
    hide Step;
    var more, longer := history + [h], trace + [b];
    forall i | 0 <= i < |more| ensures Step(k, longer[i], more[i], longer[i + 1]) {
      if i < |history| { assert Step(k, trace[i], history[i], trace[i + 1]); }
    }
  }

  // ------------------------------------------------------- the write that was newest

  /** The file of the job is on disk and indexed. */
  ghost predicate Kept(k: Setting, j: Job, s: Snapshot)
    requires Sized(j)
  {
    && NewEntry(k, j) in s.index
    && PathOf(k, j) in s.dir && s.dir[PathOf(k, j)] == FileOf(k, j)
  }

  /** Every file and every entry is older than `t`. */
  ghost predicate Older(s: Snapshot, t: int) {
    && (forall e :: e in s.index ==> e.mtime < t)
    && forall n: Name :: n in s.dir && n.Final? ==> s.dir[n].mtime < t
  }

  lemma InRearranged(a: seq<Entry>, b: seq<Entry>, e: Entry)
    requires Rearranged(a, b)
    ensures e in a <==> e in b
  {
    assert e in a <==> multiset(a)[e] > 0;
    assert e in b <==> multiset(b)[e] > 0;
  }

  lemma AfterIsPart(k: Setting, j: Job, index: seq<Entry>, rest: seq<Entry>, doomed: seq<Entry>)
    requires Sized(j) && Evicts(k, j, index, rest, doomed)
    ensures forall e :: e in rest || e in doomed ==> e in Entered(k, j, index)
  {
    forall e | e in rest || e in doomed ensures e in Entered(k, j, index) {
      InRearranged(doomed + rest, Entered(k, j, index), e);
    }
  }

  lemma {:induction false} WithoutIsPart(index: seq<Entry>, path: Name)
    ensures forall e :: e in Without(index, path) ==> e in index && e.path != path
  {
    if index != [] {
      WithoutIsPart(index[1..], path);
      assert index == [index[0]] + index[1..];
    }
  }

  /** Of entries that were all older, the newest stays if it alone fits: whatever leaves
      before it makes room for it. */
  lemma NewestStays(before: seq<Entry>, rest: seq<Entry>, doomed: seq<Entry>, budget: nat, e: Entry)
    requires Trimmed(before, rest, doomed, budget) && e in before && e.bytes <= budget
    requires forall x :: x in before && x != e ==> x.mtime < e.mtime
    requires multiset(before)[e] == 1
    ensures e in rest
  {
    hide Total;
    InRearranged(doomed + rest, before, e);
    if e in doomed && e !in rest {
      var all := doomed + rest;
      var i :| 0 <= i < |doomed| && doomed[i] == e;
      assert all[i] == e && multiset(all)[e] == 1;
      if i + 1 < |all| {
        assert Age(all[i]) <= Age(all[i + 1]);
        InRearranged(all, before, all[i + 1]);
        TwiceIn(all, i, i + 1);
      }
      assert rest == [] && i == |doomed| - 1;
      assert [doomed[|doomed| - 1]] + rest == [e];
      OneTotal(e);
    }
  }

  lemma OneTotal(e: Entry)
    ensures Total([e]) == e.bytes
  {
    assert [e][1..] == [];
  }

  lemma TwiceIn(s: seq<Entry>, i: nat, m: nat)
    requires i < m < |s| && s[i] == s[m]
    ensures multiset(s)[s[i]] >= 2
  {
    assert s == s[..m] + [s[m]] + s[m + 1..];
    assert s[..m][i] == s[i] && s[i] in multiset(s[..m]);
  }

  lemma DistinctOnce(s: seq<Entry>, i: nat)
    requires OncePerPath(s) && i < |s|
    ensures multiset(s)[s[i]] == 1
  {
    assert s == s[..i] + [s[i]] + s[i + 1..];
    assert s[i] !in s[..i] && s[i] !in s[i + 1..];
  }

  lemma EnteredOnce(k: Setting, j: Job, index: seq<Entry>)
    requires Sized(j) && OncePerPath(index)
    ensures OncePerPath(Entered(k, j, index)) && multiset(Entered(k, j, index))[NewEntry(k, j)] == 1
    ensures NewEntry(k, j) in Entered(k, j, index)
  {
    WithoutIs(index, PathOf(k, j));
    var es := Entered(k, j, index);
    assert es[|es| - 1] == NewEntry(k, j);
    DistinctOnce(es, |es| - 1);
  }

  /** A write whose file fits the budget, newer than all there is, is kept. */
  lemma NewestIsKept(k: Setting, a: Snapshot, h: Happening, b: Snapshot)
    requires MayHappen(h) && h.Saves? && Publishes(h) && Step(k, a, h, b)
    requires OncePerPath(a.index) && Indexed(b.dir, k.compat, b.index)
    requires Older(a, h.job.now) && Size(FileOf(k, h.job)) <= k.budget
    ensures Kept(k, h.job, b)
  {
    hide Trimmed, OncePerPath, Total, Complete;
    var j := h.job;
    var doomed :| Evicts(k, j, a.index, b.index, doomed) && b.dir == Landed(k, j, a.dir) - (Paths(doomed) - h.disk.stuck);
    EnteredOnce(k, j, a.index);
    WithoutIsPart(a.index, PathOf(k, j));
    NewestStays(Entered(k, j, a.index), b.index, doomed, k.budget, NewEntry(k, j));
    assert Describes(b.dir, k.compat, NewEntry(k, j));
  }

  lemma OlderStarted(left: Dir, disk: Disk, b: Dir, t: int)
    requires b == Started(left, disk) && forall n: Name :: n in left && n.Final? ==> left[n].mtime < t
    ensures forall n: Name :: n in b && n.Final? ==> b[n].mtime < t
  {}

  lemma OlderStays(k: Setting, a: Snapshot, h: Happening, b: Snapshot, t: int)
    requires MayHappen(h) && Step(k, a, h, b) && Older(a, t) && h.job.now < t
    ensures Older(b, t)
  {
    hide Trimmed, Complete;
    var j := h.job;
    if Sized(j) { WithoutIsPart(a.index, PathOf(k, j)); }
    match h {
      case Saves(_, _, disk) =>
        if Publishes(h) {
          var doomed :| Evicts(k, j, a.index, b.index, doomed) && b.dir == Landed(k, j, a.dir) - (Paths(doomed) - disk.stuck);
          AfterIsPart(k, j, a.index, b.index, doomed);
        }
      case Dies(_, cut, disk) =>
        var left :| Leaves(k, a, j, cut, disk, left) && b.dir == Started(left, disk);
        OlderStarted(left, disk, b.dir, t);
    }
  }

  lemma {:induction false} AllOlder(k: Setting, history: seq<Happening>, trace: seq<Snapshot>, n: nat, t: int)
    requires MayAllHappen(history) && Run(k, history, trace) && n <= |history|
    requires forall i :: 0 <= i < n ==> history[i].job.now < t
    ensures Older(trace[n], t)
  {
    hide Step, Older;
    if n == 0 {
      NothingIsOlder(t);
    } else {
      AllOlder(k, history, trace, n - 1, t);
      OlderStays(k, trace[n - 1], history[n - 1], trace[n], t);
    }
  }

  lemma NothingIsOlder(t: int)
    ensures Older(NOTHING, t)
  {}

  // --------------------------------------------------- a budget with room for everything

  lemma RemoveTotal(s: seq<Entry>, i: nat)
    requires i < |s|
    ensures Total(s) == s[i].bytes + Total(s[..i] + s[i + 1..])
  {
    hide Total;
    var t := s[..i] + s[i + 1..];
    assert t[..i] + [s[i]] + t[i..] == s;
    InsertTotal(t, i, s[i]);
  }

  lemma RemoveMembers(s: seq<Entry>, i: nat)
    requires OncePerPath(s) && i < |s|
    ensures var t := s[..i] + s[i + 1..];
      OncePerPath(t) && forall e :: e in t <==> e in s && e != s[i]
  {
    var t := s[..i] + s[i + 1..];
    forall m | 0 <= m < |t| ensures t[m] == s[if m < i then m else m + 1] {}
    forall e ensures e in t <==> e in s && e != s[i] {
      if e in s && e != s[i] {
        var m :| 0 <= m < |s| && s[m] == e;
        assert t[if m < i then m else m - 1] == e;
      }
    }
  }

  lemma HasMember(s: seq<Entry>)
    requires s != []
    ensures exists e :: e in s
  {
    assert s[0] in s;
  }

  lemma {:induction false} SameTotal(a: seq<Entry>, b: seq<Entry>)
    requires OncePerPath(a) && OncePerPath(b) && forall e :: e in a <==> e in b
    ensures Total(a) == Total(b)
  {
    if a == [] {
      if b != [] { HasMember(b); }
    } else {
      hide OncePerPath, Total;
      assert a[0] in b;
      var i :| 0 <= i < |b| && b[i] == a[0];
      RemoveTotal(a, 0);
      RemoveTotal(b, i);
      RemoveMembers(a, 0);
      RemoveMembers(b, i);
      SameTotal(a[..0] + a[1..], b[..i] + b[i + 1..]);
    }
  }

  lemma {:induction false} WithoutTotal(index: seq<Entry>, path: Name)
    ensures Total(Without(index, path)) <= Total(index)
  {
    if index != [] {
      WithoutTotal(index[1..], path);
      var w := Without(index[1..], path);
      assert ([index[0]] + w)[1..] == w;
      assert [] + w == w;
    }
  }

  /** The sizes of all files a history has published. */
  function Sizes(k: Setting, history: seq<Happening>): nat {
    if history == [] then 0
    else
      var h := history[|history| - 1];
      Sizes(k, history[..|history| - 1]) + if Publishes(h) then Size(FileOf(k, h.job)) else 0
  }

  /** The file a history has published last under this name. */
  function LastFile(k: Setting, history: seq<Happening>, n: Name): Option<File> {
    if history == [] then None
    else
      var h := history[|history| - 1];
      if Publishes(h) && PathOf(k, h.job) == n then Some(FileOf(k, h.job)) else LastFile(k, history[..|history| - 1], n)
  }

  predicate GoodDisk(d: Disk) { d.listable && d.unreadable == {} }

  ghost predicate GoodDisks(history: seq<Happening>) {
    forall h :: h in history ==> GoodDisk(h.disk)
  }

  predicate Shown(d: Dir, e: Entry) {
    e.path.Final? && e.path in d && d[e.path].hdr.Some? && e == EntryOf(e.path, d[e.path])
  }

  /** The index shows every file, each once. */
  ghost predicate ShowsAll(k: Setting, s: Snapshot) {
    && OncePerPath(s.index) && (forall e :: e in s.index <==> Shown(s.dir, e))
    && forall n: Name :: n in s.dir && n.Final? ==> Complete(s.dir[n], k.compat)
  }

  /** Directory and index hold the last file of every name, and nothing else. */
  ghost predicate HoldsAll(k: Setting, history: seq<Happening>, s: Snapshot) {
    && ShowsAll(k, s) && Total(s.index) <= Sizes(k, history)
    && forall n: Name :: n.Final? ==> LastFile(k, history, n) == if n in s.dir then Some(s.dir[n]) else None
  }

  lemma FileIsComplete(k: Setting, j: Job)
    requires Sized(j) && Proper(j)
    ensures Complete(FileOf(k, j), k.compat)
  {}

  /** What a published file turns the snapshot into, as long as nothing is evicted. */
  function Grown(k: Setting, a: Snapshot, j: Job): Snapshot
    requires Sized(j)
  {
    Snapshot(Landed(k, j, a.dir), Entered(k, j, a.index))
  }

  lemma GrownShows(k: Setting, a: Snapshot, j: Job)
    requires Sized(j) && Proper(j) && ShowsAll(k, a)
    ensures ShowsAll(k, Grown(k, a, j))
  {
    FileIsComplete(k, j);
    EnteredOnce(k, j, a.index);
    EnteredMembers(k, j, a.index);
    hide Complete, OncePerPath, Entered, Without;
    var b := Grown(k, a, j);
    forall e ensures e in b.index <==> Shown(b.dir, e) { LandedShows(k, j, a.dir, e); }
  }

  lemma EnteredMembers(k: Setting, j: Job, index: seq<Entry>)
    requires Sized(j) && OncePerPath(index)
    ensures forall e :: e in Entered(k, j, index) <==> (e in index && e.path != PathOf(k, j)) || e == NewEntry(k, j)
  {
    WithoutIs(index, PathOf(k, j));
    hide OncePerPath, Without;
  }

  lemma LandedShows(k: Setting, j: Job, d: Dir, e: Entry)
    requires Sized(j)
    ensures Shown(Landed(k, j, d), e) <==> (e.path != PathOf(k, j) && Shown(d, e)) || e == NewEntry(k, j)
  {}

  lemma HistoryMore(k: Setting, history: seq<Happening>, h: Happening)
    ensures Sizes(k, history + [h]) == Sizes(k, history) + if Publishes(h) then Size(FileOf(k, h.job)) else 0
    ensures forall n {:trigger LastFile(k, history + [h], n)} :: LastFile(k, history + [h], n) ==
              (if Publishes(h) && PathOf(k, h.job) == n then Some(FileOf(k, h.job)) else LastFile(k, history, n))
  {
    assert (history + [h])[..|history|] == history;
  }

  lemma GrownTotal(k: Setting, a: Snapshot, j: Job)
    requires Sized(j)
    ensures Total(Entered(k, j, a.index)) <= Total(a.index) + Size(FileOf(k, j))
  {
    hide Total;
    WithoutTotal(a.index, PathOf(k, j));
    OneMore(Without(a.index, PathOf(k, j)), NewEntry(k, j));
  }

  lemma GrownHolds(k: Setting, history: seq<Happening>, a: Snapshot, h: Happening)
    requires MayHappen(h) && Publishes(h) && HoldsAll(k, history, a)
    ensures HoldsAll(k, history + [h], Grown(k, a, h.job))
  {
    hide Complete, ShowsAll, Total, Entered, FileOf;
    HistoryMore(k, history, h);
    GrownShows(k, a, h.job);
    GrownTotal(k, a, h.job);
    hide Sizes, LastFile;
  }

  /** Nothing is evicted while the total fits. */
  lemma NothingDoomed(k: Setting, j: Job, index: seq<Entry>, rest: seq<Entry>, doomed: seq<Entry>)
    requires Sized(j) && Evicts(k, j, index, rest, doomed) && Total(Entered(k, j, index)) <= k.budget
    ensures doomed == [] && rest == Entered(k, j, index)
  {}

  /** Another snapshot with the same files, all of them shown. */
  lemma SameHolds(k: Setting, history: seq<Happening>, a: Snapshot, b: Snapshot)
    requires HoldsAll(k, history, a) && SameFinals(a.dir, b.dir) && OncePerPath(b.index)
    requires forall e :: e in b.index <==> Shown(b.dir, e)
    ensures HoldsAll(k, history, b)
  {
    hide Complete, OncePerPath, Total, Sizes, LastFile, EntryOf;
    forall e ensures Shown(a.dir, e) <==> Shown(b.dir, e) {}
    SameTotal(a.index, b.index);
  }

  lemma ListedShows(k: Setting, d: Dir, disk: Disk, es: seq<Entry>)
    requires GoodDisk(disk) && Lists(k.compat, d, disk, d.Keys, es)
    requires forall n: Name :: n in d && n.Final? ==> Complete(d[n], k.compat)
    ensures OncePerPath(es) && forall e :: e in es <==> Shown(d, e)
  {
    hide OncePerPath;
  }

  lemma StartedFinals(left: Dir, disk: Disk)
    ensures SameFinals(left, Started(left, disk))
  {}

  /** A death and the next start, in a directory `s` is the last complete view of. */
  lemma RestartHolds(k: Setting, history: seq<Happening>, s: Snapshot, left: Dir, disk: Disk, b: Snapshot)
    requires HoldsAll(k, history, s) && SameFinals(s.dir, left) && GoodDisk(disk)
    requires b.dir == Started(left, disk) && Lists(k.compat, b.dir, disk, b.dir.Keys, b.index)
    ensures HoldsAll(k, history, b)
  {
    hide Complete, OncePerPath, Total, Sizes, LastFile, EntryOf, Started, Lists;
    StartedFinals(left, disk);
    ListedShows(k, b.dir, disk, b.index);
    SameHolds(k, history, s, b);
  }

  lemma StepHolds(k: Setting, history: seq<Happening>, a: Snapshot, h: Happening, b: Snapshot)
    requires MayHappen(h) && Step(k, a, h, b) && HoldsAll(k, history, a) && GoodDisk(h.disk)
    requires Sizes(k, history + [h]) <= k.budget
    ensures HoldsAll(k, history + [h], b)
  {
    hide HoldsAll, Complete, Total, Entered, Lists, Started, Trimmed, SameFinals, Without;
    var j := h.job;
    HistoryMore(k, history, h);
    if Publishes(h) {
      GrownHolds(k, history, a, h);
      HoldsTotal(k, history + [h], Grown(k, a, j));
    } else {
      UnpublishedHolds(k, history, a, h);
    }
    match h {
      case Saves(_, _, disk) =>
        if Publishes(h) {
          var doomed :| Evicts(k, j, a.index, b.index, doomed) && b.dir == Landed(k, j, a.dir) - (Paths(doomed) - disk.stuck);
          NothingDoomed(k, j, a.index, b.index, doomed);
          assert b.dir == Landed(k, j, a.dir);
          assert b == Grown(k, a, j);
        } else {
          FailedHolds(k, history + [h], a, b);
        }
      case Dies(_, cut, disk) =>
        var left :| Leaves(k, a, j, cut, disk, left) && b.dir == Started(left, disk);
        LeftFinals(k, a, h, left);
        RestartHolds(k, history + [h], if Publishes(h) then Grown(k, a, j) else a, left, disk, b);
    }
  }

  lemma HoldsTotal(k: Setting, history: seq<Happening>, s: Snapshot)
    requires HoldsAll(k, history, s)
    ensures Total(s.index) <= Sizes(k, history)
  {}

  lemma UnpublishedHolds(k: Setting, history: seq<Happening>, a: Snapshot, h: Happening)
    requires HoldsAll(k, history, a) && !Publishes(h)
    ensures HoldsAll(k, history + [h], a)
  {
    HistoryMore(k, history, h);
    hide ShowsAll, Total, Sizes, LastFile;
  }

  lemma FailedHolds(k: Setting, history: seq<Happening>, a: Snapshot, b: Snapshot)
    requires HoldsAll(k, history, a) && SameFinals(a.dir, b.dir) && b.index == a.index
    ensures HoldsAll(k, history, b)
  {
    hide Complete, OncePerPath, Total, Sizes, LastFile, EntryOf;
    SameHolds(k, history, a, b);
  }

  /** The files a death leaves are those of the last complete view. */
  lemma LeftFinals(k: Setting, a: Snapshot, h: Happening, left: Dir)
    requires h.Dies? && Sized(h.job) && Leaves(k, a, h.job, h.cut, h.disk, left)
    requires Publishes(h) ==> Total(Entered(k, h.job, a.index)) <= k.budget
    ensures SameFinals(if Publishes(h) then Landed(k, h.job, a.dir) else a.dir, left)
  {
    hide Total, Entered, Trimmed;
    var j := h.job;
    if h.cut.WhileEvicting? {
      var rest, doomed :| Evicts(k, j, a.index, rest, doomed)
        && left == Landed(k, j, a.dir) - (Paths(Gone(doomed, h.cut.unlinked)) - h.disk.stuck);
      NothingDoomed(k, j, a.index, rest, doomed);
    }
  }

  lemma {:induction false} SizesGrow(k: Setting, history: seq<Happening>, n: nat)
    requires n <= |history|
    ensures Sizes(k, history[..n]) <= Sizes(k, history)
    decreases |history|
  {
    if n == |history| {
      assert history[..n] == history;
    } else {
      SizesGrow(k, history[..|history| - 1], n);
      assert history[..|history| - 1][..n] == history[..n];
    }
  }

  lemma NothingHolds(k: Setting)
    ensures HoldsAll(k, [], NOTHING)
  {}

  /** With room for everything and disks that can be read, directory and index hold the
      last file of every name all along. */
  lemma {:induction false} AllHeld(k: Setting, history: seq<Happening>, trace: seq<Snapshot>, n: nat)
    requires MayAllHappen(history) && Run(k, history, trace) && n <= |history|
    requires GoodDisks(history) && Sizes(k, history) <= k.budget
    ensures HoldsAll(k, history[..n], trace[n])
  {
    hide Step, HoldsAll, Sizes;
    if n == 0 {
      NothingHolds(k);
    } else {
      AllHeld(k, history, trace, n - 1);
      SizesGrow(k, history, n);
      assert history[..n - 1] + [history[n - 1]] == history[..n];
      StepHolds(k, history[..n - 1], trace[n - 1], history[n - 1], trace[n]);
    }
  }

  /** Whoever publishes under the same name later publishes the same tokens. */
  ghost predicate Lasting(k: Setting, history: seq<Happening>, i: nat)
    requires i < |history| && Publishes(history[i])
  {
    forall m :: i < m < |history| && Publishes(history[m]) && PathOf(k, history[m].job) == PathOf(k, history[i].job) ==>
      SavedTokens(history[m].job) == SavedTokens(history[i].job)
  }

  /** The tokens a job saves. */
  function SavedTokens(j: Job): seq<int>
    requires Sized(j)
  {
    j.toks[..j.len]
  }

  lemma {:induction false} LastingFile(k: Setting, history: seq<Happening>, i: nat)
    requires i < |history| && Publishes(history[i]) && Lasting(k, history, i)
    ensures var j := history[i].job; var f := LastFile(k, history, PathOf(k, j));
      && f.Some? && f.value.hdr.Some? && f.value.hdr.value.len == j.len
      && j.len <= |f.value.words| && f.value.words[..j.len] == SavedTokens(j)
    decreases |history|
  {
    var front, h := history[..|history| - 1], history[|history| - 1];
    var j := history[i].job;
    if Publishes(h) && PathOf(k, h.job) == PathOf(k, j) {
      assert SavedTokens(h.job) == SavedTokens(j);
      assert FileOf(k, h.job).words[..j.len] == SavedTokens(j);
    } else {
      assert i < |front| && front[i] == history[i];
      LastingFile(k, front, i);
    }
  }

  /** An entry for these tokens is indexed and can be read back. */
  ghost predicate Indexes(s: Snapshot, toks: seq<int>) {
    exists e :: e in s.index && e.len == |toks| && e.path in s.dir && |toks| <= |s.dir[e.path].words|
      && s.dir[e.path].words[..|toks|] == toks
  }

  /** With room for everything every lasting write stays indexed. */
  lemma EverythingIndexed(k: Setting, history: seq<Happening>, trace: seq<Snapshot>, i: nat)
    requires MayAllHappen(history) && Run(k, history, trace)
    requires GoodDisks(history) && Sizes(k, history) <= k.budget
    requires i < |history| && Publishes(history[i]) && Lasting(k, history, i)
    ensures Indexes(trace[|history|], SavedTokens(history[i].job))
  {
    var s, n := trace[|history|], PathOf(k, history[i].job);
    AllHeld(k, history, trace, |history|);
    assert history[..|history|] == history;
    LastingFile(k, history, i);
    hide Run, Complete, Lasting, Sizes, LastFile;
    assert Shown(s.dir, EntryOf(n, s.dir[n]));
  }

  lemma KeptIndexes(k: Setting, j: Job, s: Snapshot)
    requires Sized(j) && Kept(k, j, s)
    ensures Indexes(s, SavedTokens(j))
  {
    var e := NewEntry(k, j);
    assert FileOf(k, j).words[..j.len] == SavedTokens(j);
  }

  // ------------------------------------------------------------------- the cache

  ghost function SettingOf(c: Cache): Setting {
    Setting(c.hash, c.compat, c.budget)
  }

  ghost function View(c: Cache): Snapshot
    reads c
  {
    Snapshot(c.dir, c.index)
  }

  method Happen(c: Cache, h: Happening)
    requires c.Valid() && c.enabled && c.Truthful() && MayHappen(h)
    modifies c
    ensures c.Valid() && c.enabled && c.Truthful() && Step(SettingOf(c), old(View(c)), h, View(c))
  {
    hide Cache.Truthful, Cache.Valid, Trimmed, Complete, Honest, Lists, Without, Started;
    var j := h.job;
    match h {
      case Saves(_, fate, disk) =>
        var done, doomed := c.Write(j.toks, j.len, j.blob, j.gdn, j.kv, fate, disk, j.torn, j.now);
        assert done ==> Evicts(SettingOf(c), j, old(c.index), c.index, doomed);
      case Dies(_, cut, disk) =>
        ghost var rest, doomed := c.CrashAndRestart(j.toks, j.len, j.blob, j.gdn, j.kv, j.torn, j.now, cut, disk);
        assert cut.WhileEvicting? ==> Evicts(SettingOf(c), j, old(c.index), rest, doomed);
        ghost var k, a := SettingOf(c), old(View(c));
        ghost var left := match cut
          case BeforeRename(torn) => a.dir[Temp(StemOf(k, j)) := torn]
          case AfterRename => Landed(k, j, a.dir)
          case WhileEvicting(n) => Landed(k, j, a.dir) - (Paths(Gone(doomed, n)) - disk.stuck);
        assert Leaves(k, a, j, cut, disk, left) && c.dir == Started(left, disk);
    }
  }

  /** The tokens saved by the job are a proper prefix of the prompt, and long enough. */
  predicate Extends(minTokens: int, j: Job, prompt: seq<int>) {
    Sized(j) && minTokens <= j.len < |prompt| && prompt[..j.len] == SavedTokens(j)
  }

  /** The history ends in a completed write, newer than all before, of a file that fits. */
  ghost predicate EndsInFittingWrite(k: Setting, history: seq<Happening>) {
    && history != []
    && var h := history[|history| - 1];
       h.Saves? && Publishes(h) && Size(FileOf(k, h.job)) <= k.budget
       && forall i :: 0 <= i < |history| - 1 ==> history[i].job.now < h.job.now
  }

  /** The `i`-th write has been completed, and its name has not gone to other tokens. */
  ghost predicate Stands(k: Setting, history: seq<Happening>, i: nat) {
    i < |history| && Publishes(history[i]) && Lasting(k, history, i)
  }

  /** Nothing ever had to leave: good disks, and a budget for all files together. */
  ghost predicate RoomForAll(k: Setting, history: seq<Happening>) {
    GoodDisks(history) && Sizes(k, history) <= k.budget
  }

  lemma LastWriteIndexed(k: Setting, history: seq<Happening>, trace: seq<Snapshot>)
    requires MayAllHappen(history) && Run(k, history, trace) && EndsInFittingWrite(k, history)
    requires var n := |history|;
      OncePerPath(trace[n - 1].index) && Indexed(trace[n].dir, k.compat, trace[n].index)
    ensures Indexes(trace[|history|], SavedTokens(history[|history| - 1].job))
  {
    hide Step, Older, Kept, Indexes, Indexed, OncePerPath;
    var n, h := |history|, history[|history| - 1];
    AllOlder(k, history, trace, n - 1, h.job.now);
    NewestIsKept(k, trace[n - 1], h, trace[n]);
    KeptIndexes(k, h.job, trace[n]);
  }

  lemma IndexedFits(c: Cache, j: Job, prompt: seq<int>, now: Disk)
    requires Extends(c.minTokens, j, prompt) && Indexes(View(c), SavedTokens(j)) && now.unreadable == {}
    ensures exists e :: e in c.index && c.FitsHere(e, prompt, now) && e.len == j.len
  {}

  lemma ValidOnce(c: Cache)
    requires c.Valid()
    ensures OncePerPath(c.index) && Indexed(c.dir, c.compat, c.index)
  {}

  /** Over any history of writes, failed writes, evictions, crashes and restarts that began
      with an empty directory, a lookup serves exactly the longest indexed entry whose
      stored tokens are a proper prefix of the prompt.  It serves at least the write that
      has just completed if its file fits the budget and is the newest; and, as long as
      the budget has room for everything and the disks can be read, at least every write
      whose name was not taken by other tokens later. */
  method LookupAfter(hash: seq<int> -> nat, compat: nat, budget: nat, minTokens: int,
                     history: seq<Happening>, first: Disk, prompt: seq<int>, now: Disk)
      returns (c: Cache, found: bool, out: Option<Entry>, ghost trace: seq<Snapshot>)
    requires MayAllHappen(history)
    ensures c.Valid() && c.enabled && c.Truthful() && c.minTokens == minTokens && found == out.Some?
    ensures SettingOf(c) == Setting(hash, compat, budget)
    ensures Run(SettingOf(c), history, trace) && trace[|history|] == View(c)
    ensures found ==> out.value in c.index && c.FitsHere(out.value, prompt, now)
    ensures forall e :: e in c.index && c.FitsHere(e, prompt, now) ==> found && e.len <= out.value.len
    ensures now.unreadable == {} && EndsInFittingWrite(SettingOf(c), history) ==>
      var j := history[|history| - 1].job; Extends(minTokens, j, prompt) ==> found && j.len <= out.value.len
    ensures now.unreadable == {} && RoomForAll(SettingOf(c), history) ==>
      forall i: nat :: Stands(SettingOf(c), history, i) && Extends(minTokens, history[i].job, prompt) ==>
        found && history[i].job.len <= out.value.len
  {
    hide Step, Cache.Truthful, Cache.Valid, Cache.FitsHere, Indexes, Extends, RoomForAll, EndsInFittingWrite, Lasting;
    c := new Cache(hash, compat, budget, minTokens, map[], first);
    EmptyStart(c, first);
    ghost var k := SettingOf(c);
    trace := [NOTHING];
    var i := 0;
    assert history[..0] == [];
    while i < |history|
      invariant i <= |history| && fresh(c) && c.Valid() && c.enabled && c.Truthful() && c.minTokens == minTokens
      invariant MayAllHappen(history[..i]) && Run(k, history[..i], trace) && trace[i] == View(c)
      invariant forall m :: 0 <= m <= i ==> OncePerPath(trace[m].index)
    {
      hide Run, OncePerPath;
      assert history[i] in history && history[..i + 1] == history[..i] + [history[i]];
      Happen(c, history[i]);
      RunMore(k, history[..i], trace, history[i], View(c));
      RunLength(k, history[..i], trace);
      ValidOnce(c);
      trace := trace + [View(c)];
      i := i + 1;
    }
    assert history[..i] == history;
    found, out := c.Find(prompt, now);
    ServesLast(c, history, trace, prompt, now);
    ServesAll(c, history, trace, prompt, now);
  }

  lemma EmptyStart(c: Cache, first: Disk)
    requires c.dir == Started(map[], first)
    requires if first.listable then c.IndexesDirectory(first) else c.index == []
    ensures View(c) == NOTHING && MayAllHappen([]) && Run(SettingOf(c), [], [NOTHING]) && OncePerPath([])
  {
    assert c.dir == map[];
    if c.index != [] { HasMember(c.index); }
  }

  lemma RunLength(k: Setting, history: seq<Happening>, trace: seq<Snapshot>)
    requires MayAllHappen(history) && Run(k, history, trace)
    ensures |trace| == |history| + 1
  {}

  lemma ServesLast(c: Cache, history: seq<Happening>, trace: seq<Snapshot>, prompt: seq<int>, now: Disk)
    requires MayAllHappen(history) && Run(SettingOf(c), history, trace) && trace[|history|] == View(c) && c.Valid()
    requires forall m :: 0 <= m <= |history| ==> OncePerPath(trace[m].index)
    ensures now.unreadable == {} && EndsInFittingWrite(SettingOf(c), history) && Extends(c.minTokens, history[|history| - 1].job, prompt) ==>
      exists e :: e in c.index && c.FitsHere(e, prompt, now) && e.len == history[|history| - 1].job.len
  {
    hide Run, Indexes, OncePerPath, Cache.FitsHere, Indexed;
    if now.unreadable == {} && EndsInFittingWrite(SettingOf(c), history) && Extends(c.minTokens, history[|history| - 1].job, prompt) {
      ValidOnce(c);
      LastWriteIndexed(SettingOf(c), history, trace);
      IndexedFits(c, history[|history| - 1].job, prompt, now);
    }
  }

  lemma ServesAll(c: Cache, history: seq<Happening>, trace: seq<Snapshot>, prompt: seq<int>, now: Disk)
    requires MayAllHappen(history) && Run(SettingOf(c), history, trace) && trace[|history|] == View(c)
    ensures now.unreadable == {} && RoomForAll(SettingOf(c), history) ==>
      forall i: nat :: Stands(SettingOf(c), history, i) && Extends(c.minTokens, history[i].job, prompt) ==>
        exists e :: e in c.index && c.FitsHere(e, prompt, now) && e.len == history[i].job.len
  {
    hide Run, Indexes, Cache.FitsHere, Lasting, Sizes, GoodDisks, Extends;
    if now.unreadable == {} && RoomForAll(SettingOf(c), history) {
      forall i: nat | Stands(SettingOf(c), history, i) && Extends(c.minTokens, history[i].job, prompt)
        ensures exists e :: e in c.index && c.FitsHere(e, prompt, now) && e.len == history[i].job.len
      {
        EverythingIndexed(SettingOf(c), history, trace, i);
        IndexedFits(c, history[i].job, prompt, now);
      }
    }
  }
}
