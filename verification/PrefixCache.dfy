/** The disk tier of cached prompt prefixes: a directory of files and an index of it.
    The hash only picks candidates; the stored tokens decide. */
module PrefixCache {

  const VERSION := 1
  const HEADER_BYTES := 64

  datatype Option<T> = None | Some(value: T)

  datatype Hdr = Hdr(magic: bool, version: int, compat: nat, tokHash: nat, len: int, gdn: nat, kv: nat)

  /** A header if the file is long enough for one, then whole 4-byte words, then up to
      three odd bytes. */
  datatype File = File(hdr: Option<Hdr>, words: seq<int>, odd: nat, mtime: int)

  /** Names this program gives, from hash and length, or any other stem. */
  datatype Stem = Own(key: nat, len: int) | Stray(tag: nat)
  datatype Name = Final(stem: Stem) | Temp(stem: Stem) | Unrelated(tag: nat)

  type Dir = map<Name, File>

  datatype Entry = Entry(path: Name, len: int, key: nat, bytes: nat, mtime: int)

  function Size(f: File): nat {
    (if f.hdr.Some? then HEADER_BYTES else 0) + 4 * |f.words| + f.odd
  }

  /** The header check of a rescan; it includes the exact file size. */
  predicate Complete(f: File, compat: nat) {
    && f.hdr.Some?
    && var h := f.hdr.value;
       h.magic && h.version == VERSION && h.compat == compat && h.len > 0
       && Size(f) == HEADER_BYTES + 4 * h.len + h.gdn + h.kv
  }

  ghost predicate Sound(d: Dir) { forall n :: n in d ==> d[n].odd < 4 }

  /** The file holds all the tokens its header promises. */
  lemma CompleteHasTokens(f: File, compat: nat)
    requires Complete(f, compat) && f.odd < 4
    ensures f.hdr.value.len <= |f.words|
  {}

  /** The entry describes a complete file. */
  predicate Describes(d: Dir, compat: nat, e: Entry) {
    && e.path.Final? && e.path in d && Complete(d[e.path], compat)
    && e.len == d[e.path].hdr.value.len && e.key == d[e.path].hdr.value.tokHash && e.bytes == Size(d[e.path])
  }

  function EntryOf(n: Name, f: File): Entry
    requires f.hdr.Some?
  {
    Entry(n, f.hdr.value.len, f.hdr.value.tokHash, Size(f), f.mtime)
  }

  /** No path is indexed twice. */
  ghost predicate OncePerPath(index: seq<Entry>) {
    forall i, j :: 0 <= i < j < |index| ==> index[i].path != index[j].path
  }

  ghost predicate Indexed(d: Dir, compat: nat, index: seq<Entry>) {
    OncePerPath(index) && forall e :: e in index ==> Describes(d, compat, e)
  }

  // ------------------------------------------------------------------- lookup

  predicate TokensAre(d: Dir, e: Entry, prompt: seq<int>) {
    e.path in d && 0 <= e.len <= |d[e.path].words| && e.len <= |prompt| && d[e.path].words[..e.len] == prompt[..e.len]
  }

  /** An entry the lookup may return. */
  predicate Usable(d: Dir, hash: seq<int> -> nat, minTokens: int, e: Entry, prompt: seq<int>) {
    && minTokens <= e.len && 0 <= e.len < |prompt|
    && hash(prompt[..e.len]) == e.key && TokensAre(d, e, prompt)
  }

  /** Headers tell the truth about their tokens. */
  ghost predicate Honest(d: Dir, hash: seq<int> -> nat, compat: nat) {
    forall n :: n in d && n.Final? && Complete(d[n], compat) && d[n].hdr.value.len <= |d[n].words| ==>
      d[n].hdr.value.tokHash == hash(d[n].words[..d[n].hdr.value.len])
  }

  /** The stored tokens are a proper prefix of the prompt and long enough. */
  predicate Fits(d: Dir, minTokens: int, e: Entry, prompt: seq<int>) {
    minTokens <= e.len < |prompt| && TokensAre(d, e, prompt)
  }

  /** With truthful headers, the hash rules nobody out. */
  lemma HashRulesNobodyOut(d: Dir, hash: seq<int> -> nat, compat: nat, index: seq<Entry>, minTokens: int, e: Entry, prompt: seq<int>)
    requires Indexed(d, compat, index) && e in index && Honest(d, hash, compat) && Sound(d)
    ensures Usable(d, hash, minTokens, e, prompt) <==> Fits(d, minTokens, e, prompt)
  {
    assert Describes(d, compat, e);
    CompleteHasTokens(d[e.path], compat);
  }

  // ----------------------------------------------------------------- eviction

  function Total(index: seq<Entry>): nat {
    if index == [] then 0 else index[0].bytes + Total(index[1..])
  }

  ghost predicate Ascending(s: seq<Entry>, rank: Entry -> int) {
    forall i, j :: 0 <= i < j < |s| ==> rank(s[i]) <= rank(s[j])
  }

  ghost predicate Rearranged(a: seq<Entry>, b: seq<Entry>) { multiset(a) == multiset(b) }

  function Age(e: Entry): int { e.mtime }
  function Shortness(e: Entry): int { -e.len }

  /** `after` is `before`, oldest first, without the shortest run from the front that
      brings it within the budget. */
  ghost predicate Trimmed(before: seq<Entry>, after: seq<Entry>, dropped: seq<Entry>, budget: nat) {
    && Total(after) <= budget
    && Rearranged(dropped + after, before)
    && (Total(before) <= budget ==> dropped == [] && after == before)
    && (Total(before) > budget ==>
          && dropped != [] && Ascending(dropped + after, Age)
          && Total([dropped[|dropped| - 1]] + after) > budget)
  }

  lemma {:induction false} TotalSplit(a: seq<Entry>, b: seq<Entry>)
    ensures Total(a + b) == Total(a) + Total(b)
  {
    if a == [] {
      assert a + b == b;
    } else {
      assert (a + b)[1..] == a[1..] + b;
      TotalSplit(a[1..], b);
    }
  }

  lemma OneMore(s: seq<Entry>, x: Entry)
    ensures Total(s + [x]) == Total(s) + x.bytes
  {
    TotalSplit(s, [x]);
    assert Total([x]) == x.bytes;
  }

  lemma InsertTotal(s: seq<Entry>, i: nat, x: Entry)
    requires i <= |s|
    ensures Total(s[..i] + [x] + s[i..]) == Total(s) + x.bytes
  {
    hide Total;
    OneMore(s[..i], x);
    TotalSplit(s[..i] + [x], s[i..]);
    TotalSplit(s[..i], s[i..]);
    assert s == s[..i] + s[i..];
  }

  lemma InsertMembers(s: seq<Entry>, i: nat, x: Entry)
    requires i <= |s|
    ensures multiset(s[..i] + [x] + s[i..]) == multiset(s) + multiset{x}
    ensures forall e :: e in s[..i] + [x] + s[i..] <==> e in s || e == x
  {
    assert s == s[..i] + s[i..];
    forall e ensures e in s[..i] + [x] + s[i..] <==> e in s || e == x {
      assert e in s <==> e in s[..i] || e in s[i..];
    }
  }

  predicate Novel(s: seq<Entry>, path: Name) {
    forall e :: e in s ==> e.path != path
  }

  lemma InsertOnce(s: seq<Entry>, i: nat, x: Entry)
    requires i <= |s| && OncePerPath(s) && Novel(s, x.path)
    ensures OncePerPath(s[..i] + [x] + s[i..])
  {
    var r := s[..i] + [x] + s[i..];
    forall j, k | 0 <= j < k < |r| ensures r[j].path != r[k].path {
      assert j != i ==> r[j] == s[if j < i then j else j - 1] && r[j] in s;
      assert k != i ==> r[k] == s[if k < i then k else k - 1] && r[k] in s;
    }
  }

  /** Put `x` behind everything that ranks no higher. */
  method Insert(s: seq<Entry>, x: Entry, rank: Entry -> int) returns (r: seq<Entry>)
    requires Ascending(s, rank) && OncePerPath(s) && Novel(s, x.path)
    ensures Ascending(r, rank) && OncePerPath(r) && multiset(r) == multiset(s) + multiset{x}
    ensures Total(r) == Total(s) + x.bytes && forall e :: e in r <==> e in s || e == x
  {
    var i := |s|;
    while i > 0 && rank(s[i - 1]) > rank(x)
      invariant 0 <= i <= |s| && forall j :: i <= j < |s| ==> rank(s[j]) > rank(x)
    { i := i - 1; }
    InsertAscending(s, i, x, rank);
    hide Ascending, OncePerPath, Total;
    InsertTotal(s, i, x);
    InsertMembers(s, i, x);
    InsertOnce(s, i, x);
    r := s[..i] + [x] + s[i..];
  }

  lemma InsertAscending(s: seq<Entry>, i: nat, x: Entry, rank: Entry -> int)
    requires i <= |s| && Ascending(s, rank)
    requires i > 0 ==> rank(s[i - 1]) <= rank(x)
    requires forall j :: i <= j < |s| ==> rank(s[j]) > rank(x)
    ensures Ascending(s[..i] + [x] + s[i..], rank)
  {
    var r := s[..i] + [x] + s[i..];
    forall j, k | 0 <= j < k < |r| ensures rank(r[j]) <= rank(r[k]) {
      assert j != i ==> r[j] == s[if j < i then j else j - 1];
      assert k != i ==> r[k] == s[if k < i then k else k - 1];
    }
  }

  /** Sorting an index. */
  method Sort(index: seq<Entry>, rank: Entry -> int) returns (s: seq<Entry>)
    requires OncePerPath(index)
    ensures Ascending(s, rank) && OncePerPath(s) && Rearranged(s, index) && Total(s) == Total(index)
    ensures forall e :: e in s <==> e in index
  {
    s := [];
    var i := 0;
    while i < |index|
      invariant i <= |index| && Ascending(s, rank) && OncePerPath(s)
      invariant Rearranged(s, index[..i]) && Total(s) == Total(index[..i])
      invariant forall e :: e in s <==> e in index[..i]
    {
      hide Ascending, OncePerPath, Total;
      assert index[..i + 1] == index[..i] + [index[i]];
      assert Total(index[..i + 1]) == Total(index[..i]) + index[i].bytes by { OneMore(index[..i], index[i]); }
      assert Novel(s, index[i].path) by { NovelHere(index, i); }
      s := Insert(s, index[i], rank);
      i := i + 1;
    }
    assert index[..i] == index;
  }

  lemma NovelHere(index: seq<Entry>, i: nat)
    requires OncePerPath(index) && i < |index|
    ensures Novel(index[..i], index[i].path)
  {}
}
