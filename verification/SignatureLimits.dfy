/** Which bytes a tool name must avoid for the signature to be sound: the two
    separators, and only those. */
module SignatureLimits {
  import opened Json
  import opened ToolGrammar
  import opened GrammarState
  import opened GrammarLanguage
  import opened GrammarLiveness
  import opened Signature

  ghost predicate Over(allowed: iset<char>, names: seq<string>) {
    forall i, k :: 0 <= i < |names| && 0 <= k < |names[i]| ==> names[i][k] in allowed
  }

  /** Equal signatures mean equal languages, for every pair of reachable states of
      every two allowlists over `allowed`. */
  ghost predicate SignatureSound(allowed: iset<char>) {
    forall a, b | Reachable(a) && Reachable(b) && Over(allowed, a.names) && Over(allowed, b.names)
      && SignatureOf(a) == SignatureOf(b) :: SameLanguage(a, b)
  }

  lemma OverFree(allowed: iset<char>, names: seq<string>)
    requires Over(allowed, names) && '|' !in allowed && UNIT_SEP !in allowed
    ensures BarFree(names) && SepFree(names)
  {
    forall i | 0 <= i < |names| ensures '|' !in names[i] && UNIT_SEP !in names[i] {
      forall k | 0 <= k < |names[i]| ensures names[i][k] in allowed {}
    }
  }

  /** The machine in front of the tool name, `p` of it already read. */
  function InName(names: seq<string>, p: string): Config {
    Config(names, NameVal, 4, "", p, "", false)
  }

  lemma InNameReachable(names: seq<string>, p: string)
    requires '"' !in p && PrefixOfSome(p, names)
    ensures Reachable(InName(names, p))
  {
    hide Run, Advance;
    OpeningRuns(names, "");
    NameRuns(names, p);
    RunConcat(Init(names, ""), OPENING, p);
    assert InName(names, p) == Run(Init(names, ""), OPENING + p);
  }

  lemma {:induction false} NameRuns(names: seq<string>, p: string)
    requires '"' !in p && PrefixOfSome(p, names)
    ensures Run(InName(names, ""), p) == InName(names, p)
    decreases |p|
  {
    hide Advance;
    if p != "" {
      var q, c := p[..|p| - 1], p[|p| - 1];
      assert p == q + [c];
      assert PrefixOfSome(q, names) by {
        var i :| 0 <= i < |names| && p <= names[i];
        assert q <= names[i];
      }
      NameRuns(names, q);
      RunConcat(InName(names, ""), q, [c]);
      NameByte(InName(names, q), c);
      RunCons(InName(names, q), c, "");
      assert [c] + "" == [c];
      RunNil(InName(names, p));
    }
  }

  lemma QuoteAlone(names: seq<string>, p: string)
    ensures TokenOk(InName(names, p), ['"']) <==> p in names
  {
    hide Advance;
    var g := InName(names, p);
    assert ['"'] == ['"'] + "";
    NameByte(g, '"');
    RunCons(g, '"', "");
    RunNil(Advance(g, '"'));
  }

  lemma KeyOfOne(n: string)
    ensures NamesKey([n]) == n + [UNIT_SEP]
  {
    assert [n][1..] == [] && Sort([n]) == [n];
    assert Join([n]) == n + ([UNIT_SEP] + "");
  }

  lemma KeyOfTwoEmpty()
    ensures NamesKey(["", ""]) == [UNIT_SEP] + [UNIT_SEP]
  {
    var two := ["", ""];
    assert two[1..] == [""] && [""][1..] == [] && LessEq("", "");
    assert Sort([""]) == [""];
    assert Sort(two) == Insert("", [""]) == two;
    assert Join([""]) == "" + ([UNIT_SEP] + "");
    assert Join(two) == "" + ([UNIT_SEP] + Join([""]));
  }

  /** Two allowlists, one name that is the separator against two empty names, share one key. */
  lemma SeparatorCollides()
    ensures var a, b := InName([[UNIT_SEP]], ""), InName(["", ""], "");
      Reachable(a) && Reachable(b) && SignatureOf(a) == SignatureOf(b) && !SameLanguage(a, b)
  {
    hide Run, Advance, NamesKey;
    var na, nb := [[UNIT_SEP]], ["", ""];
    var a, b := InName(na, ""), InName(nb, "");
    assert "" <= na[0] && "" <= nb[0];
    InNameReachable(na, "");
    InNameReachable(nb, "");
    KeyOfOne([UNIT_SEP]);
    KeyOfTwoEmpty();
    assert NamePart(a) == NamePart(b);
    QuoteAlone(na, "");
    QuoteAlone(nb, "");
    assert nb[0] == "" && "" !in na;
    assert TokenOk(a, ['"']) != TokenOk(b, ['"']);
  }

  /** A bar at the front of a name passes for the bar in front of the key. */
  lemma BarCollides()
    ensures var a, b := InName(["||"], ""), InName(["|"], "|");
      Reachable(a) && Reachable(b) && SignatureOf(a) == SignatureOf(b) && !SameLanguage(a, b)
  {
    hide Run, Advance, NamesKey;
    var na, nb := ["||"], ["|"];
    var a, b := InName(na, ""), InName(nb, "|");
    assert "" <= na[0] && "|" <= nb[0];
    InNameReachable(na, "");
    InNameReachable(nb, "|");
    KeyOfOne("||");
    KeyOfOne("|");
    assert NamePart(a) == "|" + ("" + ("|" + ("||" + [UNIT_SEP])));
    assert NamePart(b) == "|" + ("|" + ("|" + ("|" + [UNIT_SEP])));
    assert NamePart(a) == NamePart(b);
    QuoteAlone(na, "");
    QuoteAlone(nb, "|");
    assert nb[0] == "|" && "" !in na;
    assert TokenOk(a, ['"']) != TokenOk(b, ['"']);
  }

  /** The cache key is sound exactly for names without the two separator bytes, whatever
      else an alphabet allows or lacks. */
  lemma SignatureSoundExactly(allowed: iset<char>)
    ensures SignatureSound(allowed) <==> '|' !in allowed && UNIT_SEP !in allowed
  {
    hide SignatureOf;
    if '|' !in allowed && UNIT_SEP !in allowed {
      forall a, b | Reachable(a) && Reachable(b) && Over(allowed, a.names) && Over(allowed, b.names)
          && SignatureOf(a) == SignatureOf(b)
        ensures SameLanguage(a, b)
      {
        OverFree(allowed, a.names);
        OverFree(allowed, b.names);
        ReachableSigInv(a);
        ReachableSigInv(b);
        SignatureDecides(a, b);
        SameLiveLanguage(a, b);
      }
    }
    if UNIT_SEP in allowed {
      SeparatorCollides();
      assert Over(allowed, [[UNIT_SEP]]) && Over(allowed, ["", ""]);
    }
    if '|' in allowed {
      BarCollides();
      assert Over(allowed, ["||"]) && Over(allowed, ["|"]);
    }
  }
}
