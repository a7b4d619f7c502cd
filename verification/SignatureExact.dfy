/** Exactly which states share a cache key: the registered names count only up to the tool
    name, and in whatever order they were registered. */
module SignatureExact {
  import opened ToolGrammar
  import opened GrammarState
  import opened GrammarLiveness
  import opened Signature

  lemma {:induction false} OrderTotal(a: string, b: string)
    ensures LessEq(a, b) || LessEq(b, a)
    ensures LessEq(a, b) && LessEq(b, a) ==> a == b
  {
    if a != "" && b != "" {
      OrderTotal(a[1..], b[1..]);
      assert a == [a[0]] + a[1..] && b == [b[0]] + b[1..];
    }
  }

  lemma {:induction false} OrderTransitive(a: string, b: string, c: string)
    requires LessEq(a, b) && LessEq(b, c)
    ensures LessEq(a, c)
  {
    if a != "" && a[0] == b[0] == c[0] { OrderTransitive(a[1..], b[1..], c[1..]); }
  }

  ghost predicate Ascending(s: seq<string>) {
    forall i, j :: 0 <= i < j < |s| ==> LessEq(s[i], s[j])
  }

  lemma {:induction false} InsertAscending(x: string, s: seq<string>)
    requires Ascending(s)
    ensures Ascending(Insert(x, s))
  {
    hide LessEq;
    if s == [] {
    } else if LessEq(x, s[0]) {
      forall j | 0 <= j < |s| ensures LessEq(x, s[j]) {
        if j > 0 { OrderTransitive(x, s[0], s[j]); }
      }
    } else {
      OrderTotal(x, s[0]);
      InsertAscending(x, s[1..]);
      var t := Insert(x, s[1..]);
      forall j | 0 <= j < |t| ensures LessEq(s[0], t[j]) {
        InsertMembers(x, s[1..]);
        assert t[j] in multiset(t);
        assert t[j] == x || t[j] in s[1..];
      }
    }
  }

  lemma {:induction false} SortAscending(names: seq<string>)
    ensures Ascending(Sort(names))
  {
    if names != [] {
      SortAscending(names[1..]);
      InsertAscending(names[0], Sort(names[1..]));
    }
  }

  lemma FirstIsLeast(s: seq<string>, x: string)
    requires Ascending(s) && x in multiset(s)
    ensures s != [] && LessEq(s[0], x)
  {
    hide LessEq;
    var i :| 0 <= i < |s| && s[i] == x;
    OrderTotal(x, x);
    assert i > 0 ==> LessEq(s[0], s[i]);
  }

  lemma TailOf(s: seq<string>)
    requires s != []
    ensures multiset(s) == multiset{s[0]} + multiset(s[1..])
    ensures Ascending(s) ==> Ascending(s[1..])
  {
    hide LessEq;
    assert s == [s[0]] + s[1..];
  }

  /** There is only one ascending order of some names. */
  lemma {:induction false} AscendingUnique(a: seq<string>, b: seq<string>)
    requires Ascending(a) && Ascending(b) && multiset(a) == multiset(b)
    ensures a == b
    decreases |a|
  {
    hide LessEq, Ascending;
    assert |a| == |multiset(a)| == |multiset(b)| == |b|;
    if a != [] {
      FirstIsLeast(b, a[0]);
      FirstIsLeast(a, b[0]);
      OrderTotal(a[0], b[0]);
      TailOf(a);
      TailOf(b);
      SameTails(multiset(a[1..]), multiset(b[1..]), a[0]);
      AscendingUnique(a[1..], b[1..]);
      assert a == [a[0]] + a[1..] && b == [b[0]] + b[1..];
    }
  }

  lemma SameTails(a: multiset<string>, b: multiset<string>, x: string)
    requires multiset{x} + a == multiset{x} + b
    ensures a == b
  {
    assert a == (multiset{x} + a) - multiset{x};
  }

  /** Two allowlists share their key exactly if they register the same names as often
      each, in whatever order. */
  lemma NamesKeyExactly(a: seq<string>, b: seq<string>)
    requires SepFree(a) && SepFree(b)
    ensures NamesKey(a) == NamesKey(b) <==> multiset(a) == multiset(b)
  {
    if NamesKey(a) == NamesKey(b) { NamesKeyDecides(a, b); }
    if multiset(a) == multiset(b) {
      SortMembers(a);
      SortMembers(b);
      SortAscending(a);
      SortAscending(b);
      AscendingUnique(Sort(a), Sort(b));
    }
  }

  /** What the cache key of a state stands for. */
  ghost predicate SameKey(a: Config, b: Config) {
    && a.st == b.st && a.dead == b.dead && a.stack == b.stack && a.lit == b.lit && a.litWord == b.litWord
    && (Early(a.st) ==> a.namePref == b.namePref && multiset(a.names) == multiset(b.names))
  }

  /** For names free of both separators, states share their key exactly if they agree on
      all of it: behind the tool name neither the names nor the chosen one is part of it. */
  lemma SignatureExactly(a: Config, b: Config)
    requires SigInv(a) && SigInv(b)
    requires BarFree(a.names) && BarFree(b.names) && SepFree(a.names) && SepFree(b.names)
    ensures SignatureOf(a) == SignatureOf(b) <==> SameKey(a, b)
  {
    hide SigInv, BarFree, SepFree, NamesKey;
    NamesKeyExactly(a.names, b.names);
    if SignatureOf(a) == SignatureOf(b) {
      SignatureParts(a, b);
    }
  }

  lemma SignatureParts(a: Config, b: Config)
    requires SigInv(a) && SigInv(b) && SignatureOf(a) == SignatureOf(b)
    requires BarFree(a.names) && BarFree(b.names) && SepFree(a.names) && SepFree(b.names)
    ensures a.st == b.st && a.dead == b.dead && a.stack == b.stack && a.lit == b.lit && a.litWord == b.litWord
    ensures Early(a.st) ==> a.namePref == b.namePref && NamesKey(a.names) == NamesKey(b.names)
  {
    hide SignatureOf, NamesKey;
    StateAndStackDecide(a, b);
    if Early(a.st) {
      var pa, pb := NamePart(a)[1..], NamePart(b)[1..];
      assert NamePart(a) == "|" + pa && NamePart(b) == "|" + pb;
      SplitAt('|', a.litWord, pa, b.litWord, pb);
      PrefixBarFree(a.namePref, a.names);
      PrefixBarFree(b.namePref, b.names);
      assert pa == a.namePref + ("|" + NamesKey(a.names)) && pb == b.namePref + ("|" + NamesKey(b.names));
      SplitAt('|', a.namePref, NamesKey(a.names), b.namePref, NamesKey(b.names));
    } else {
      assert a.litWord + "" == a.litWord && b.litWord + "" == b.litWord;
    }
  }
}
