/** The grammar as the program runs it: one object whose fields every byte updates.

    Every method is tied to the machine as a function; the step is split over the
    states it belongs to. */
module GrammarMachine {
  import opened Json
  import opened ToolGrammar
  import opened GrammarState
  import opened GrammarLiveness
  import opened Signature

  predicate ValueSt(s: St) {
    s == JValue || s == JValueReq || s == JKey || s == JKeyReq || s == JKeyColon || s == JAfterVal
  }

  method JoinNames(sorted: seq<string>) returns (key: string)
    ensures key == Join(sorted)
  {
    key := "";
    var i := 0;
    while i < |sorted|
      invariant 0 <= i <= |sorted|
      invariant key + Join(sorted[i..]) == Join(sorted)
    {
      assert sorted[i..][1..] == sorted[i + 1..];
      key := key + sorted[i];
      key := key + [UNIT_SEP];
      i := i + 1;
    }
  }

  class Machine {
    var names: seq<string>
    var namesKey: string
    var namePref: string
    var litWord: string
    var stack: string
    var lit: nat
    var st: St
    var dead: bool

    ghost function View(): Config
      reads this
    {
      Config(names, st, lit, litWord, namePref, stack, dead)
    }

    ghost predicate Valid()
      reads this
    {
      namesKey == NamesKey(names) && SigInv(View())
    }

    constructor ()
      ensures Valid() && View() == Init([], "")
    {
      names, namesKey, namePref, litWord, stack := [], "", "", "", "";
      lit, st, dead := 0, WsObjOpen, false;
    }

    /** A copy: token legality is tried out on one. */
    constructor Copy(g: Machine)
      requires g.Valid()
      ensures Valid() && View() == g.View()
    {
      names, namesKey, namePref, litWord, stack := g.names, g.namesKey, g.namePref, g.litWord, g.stack;
      lit, st, dead := g.lit, g.st, g.dead;
    }

    method Reset(toolNames: seq<string>)
      requires Valid()
      modifies this
      ensures Valid() && View() == Init(toolNames, old(litWord))
    {
      names := toolNames;
      var sorted := Sort(toolNames);
      namesKey := JoinNames(sorted);
      st := WsObjOpen;
      lit := 0;
      namePref := "";
      stack := "";
      dead := false;
    }

    method AdvanceByte(c: char) returns (ok: bool)
      requires Valid()
      modifies this
      ensures Valid() && View() == Advance(old(View()), c)
      ensures ok == !View().dead
    {
      SigInvAdvance(View(), c);
      if dead { return false; }
      ok := Step(c);
      if !ok { dead := true; }
    }

    method AdvanceStr(s: string) returns (ok: bool)
      requires Valid()
      modifies this
      ensures Valid() && View() == Run(old(View()), s)
      ensures ok == ToolGrammar.TokenOk(old(View()), s)
    {
      var i := 0;
      assert s[0..] == s;
      while i < |s|
        invariant 0 <= i <= |s| && Valid()
        invariant Run(View(), s[i..]) == Run(old(View()), s)
        invariant i > 0 ==> !dead
      {
        assert s[i..][1..] == s[i + 1..];
        var legal := AdvanceByte(s[i]);
        if !legal {
          DeadStays(View(), s[i + 1..]);
          return false;
        }
        i := i + 1;
      }
      ok := true;
    }

    method IsDone() returns (d: bool)
      ensures d == View().IsDone()
    {
      d := !dead && (st == Done || st == Closer || st == Closed);
    }

    method IsClosed() returns (d: bool)
      ensures d == View().IsClosed()
    {
      d := !dead && st == Closed;
    }

    /** Would every byte of `s` be legal from here?  Nothing changes. */
    method TokenOk(s: string) returns (ok: bool)
      requires Valid()
      ensures ok == ToolGrammar.TokenOk(View(), s)
    {
      var copy := new Machine.Copy(this);
      ok := copy.AdvanceStr(s);
    }

    method SignatureString() returns (s: string)
      requires Valid()
      ensures s == SignatureOf(View())
    {
      s := [];
      s := s + [('A' as int + StIndex(st)) as char];
      s := s + [if dead then '!' else '.'];
      var tail := stack;
      tail := tail + "|";
      tail := tail + Decimal(lit);
      tail := tail + "|";
      tail := tail + litWord;
      if StIndex(st) <= StIndex(NameVal) {
        tail := tail + "|";
        tail := tail + namePref;
        tail := tail + "|";
        tail := tail + namesKey;
        assert tail == stack + ("|" + (Decimal(lit) + ("|" + (litWord + NamePart(View())))));
      } else {
        assert tail == stack + ("|" + (Decimal(lit) + ("|" + (litWord + NamePart(View())))));
      }
      s := s + tail;
    }

    // ------------------------------------------------------------- one byte

    /** What one byte leaves behind, the dead flag aside. */
    ghost predicate After(g: Config, a: Act, ok: bool)
      reads this
    {
      ok == !a.Refuse? && View() == Apply(g, a).(dead := g.dead)
    }

    method Step(c: char) returns (ok: bool)
      requires !dead && Valid()
      modifies this`st, this`lit, this`litWord, this`namePref, this`stack
      ensures After(old(View()), Decide(old(View()), c), ok)
    {
      if st.NameVal? {
        ok := StepName(c);
      } else if FrameState(st) {
        ok := StepFrame(c);
      } else if NumberSt(st) {
        ok := StepNumber(c);
      } else if ValueSt(st) {
        ok := StepValue(c);
      } else {
        ok := StepText(c);
      }
    }

    method PopOrFinish(c: char) returns (ok: bool)
      requires stack != ""
      modifies this`st, this`stack
      ensures ok && View() == Apply(old(View()), Shut)
    {
      stack := stack[..|stack| - 1];
      if stack == "" { st := ObjClose; return true; }
      st := JAfterVal;
      return true;
    }

    method StartValue(c: char, allowClose: bool) returns (ok: bool)
      requires SigInv(View())
      modifies this`st, this`lit, this`litWord, this`stack
      ensures After(old(View()), ValueStart(old(st), old(View()).Top(), c, allowClose), ok)
    {
      if c == '{' { stack := stack + ['{']; st := JKey; return true; }
      if c == '[' { stack := stack + ['[']; st := JValue; return true; }
      if c == '"' { st := JStr; return true; }
      if c == '-' { st := JNumMinus; return true; }
      if c == '0' { st := JNumZero; return true; }
      if '1' <= c <= '9' { st := JNumInt; return true; }
      if c == 't' { litWord := "true"; lit := 1; st := JLit; return true; }
      if c == 'f' { litWord := "false"; lit := 1; st := JLit; return true; }
      if c == 'n' { litWord := "null"; lit := 1; st := JLit; return true; }
      if allowClose && c == ']' && stack != "" && stack[|stack| - 1] == '[' {
        ok := PopOrFinish(c);
        return;
      }
      return false;
    }

    /** A number ended by a structural byte: that byte is read again. */
    method NumEndRedispatch(c: char) returns (ok: bool)
      requires NumberEnds(c) && SigInv(View())
      modifies this`st, this`stack
      ensures After(old(View()), AfterVal(old(View()).Top(), c), ok)
    {
      st := JAfterVal;
      ok := StepAfterVal(c);
    }

    method StepAfterVal(c: char) returns (ok: bool)
      requires st == JAfterVal && SigInv(View())
      modifies this`st, this`stack
      ensures After(old(View()), AfterVal(old(View()).Top(), c), ok)
    {
      if IsWs(c) { return true; }
      if c == ',' {
        st := if stack != "" && stack[|stack| - 1] == '{' then JKeyReq else JValueReq;
        return true;
      }
      if c == '}' && stack != "" && stack[|stack| - 1] == '{' { ok := PopOrFinish(c); return; }
      if c == ']' && stack != "" && stack[|stack| - 1] == '[' { ok := PopOrFinish(c); return; }
      return false;
    }

    method StepNumber(c: char) returns (ok: bool)
      requires SigInv(View())
      requires NumberSt(st)
      modifies this`st, this`stack
      ensures After(old(View()), JsonAct(old(st), old(View()).Top(), c), ok)
    {
      if st == JNumMinus {
        if c == '0' { st := JNumZero; return true; }
        if '1' <= c <= '9' { st := JNumInt; return true; }
        return false;
      } else if st == JNumZero {
        if c == '.' { st := JNumDot; return true; }
        if c == 'e' || c == 'E' { st := JNumE; return true; }
        if NumberEnds(c) { ok := NumEndRedispatch(c); return; }
        return false;
      } else if st == JNumInt {
        if IsDigit(c) { return true; }
        if c == '.' { st := JNumDot; return true; }
        if c == 'e' || c == 'E' { st := JNumE; return true; }
        if NumberEnds(c) { ok := NumEndRedispatch(c); return; }
        return false;
      } else if st == JNumDot {
        if IsDigit(c) { st := JNumFrac; return true; }
        return false;
      } else if st == JNumFrac {
        if IsDigit(c) { return true; }
        if c == 'e' || c == 'E' { st := JNumE; return true; }
        if NumberEnds(c) { ok := NumEndRedispatch(c); return; }
        return false;
      } else if st == JNumE {
        if c == '+' || c == '-' { st := JNumESign; return true; }
        if IsDigit(c) { st := JNumExp; return true; }
        return false;
      } else if st == JNumESign {
        if IsDigit(c) { st := JNumExp; return true; }
        return false;
      } else {
        if IsDigit(c) { return true; }
        if NumberEnds(c) { ok := NumEndRedispatch(c); return; }
        return false;
      }
    }

    method StepValue(c: char) returns (ok: bool)
      requires SigInv(View())
      requires ValueSt(st)
      modifies this`st, this`lit, this`litWord, this`stack
      ensures After(old(View()), JsonAct(old(st), old(View()).Top(), c), ok)
    {
      if st == JValue {
        if IsWs(c) { return true; }
        if stack == "" {
          if c == '{' { stack := stack + ['{']; st := JKey; return true; }
          return false;
        }
        ok := StartValue(c, true);
      } else if st == JValueReq {
        if IsWs(c) { return true; }
        ok := StartValue(c, false);
      } else if st == JKey {
        if IsWs(c) { return true; }
        if c == '"' { st := JKeyStr; return true; }
        if c == '}' && stack != "" && stack[|stack| - 1] == '{' { ok := PopOrFinish(c); return; }
        return false;
      } else if st == JKeyReq {
        if IsWs(c) { return true; }
        if c == '"' { st := JKeyStr; return true; }
        return false;
      } else if st == JKeyColon {
        if IsWs(c) { return true; }
        if c == ':' { st := JValue; return true; }
        return false;
      } else {
        ok := StepAfterVal(c);
      }
    }

    method StepText(c: char) returns (ok: bool)
      requires !FrameState(st) && !NumberSt(st) && !ValueSt(st)
      modifies this`st
      ensures After(old(View()), JsonAct(old(st), old(View()).Top(), c), ok)
    {
      hide JsonAct, After;
      if st == JStr || st == JKeyStr {
        ok := StepBody(c);
      } else if st == JStrEsc || st == JKeyEsc {
        ok := StepEscape(c);
      } else {
        ok := StepHex(c);
      }
    }

    method StepBody(c: char) returns (ok: bool)
      requires st == JStr || st == JKeyStr
      modifies this`st
      ensures After(old(View()), JsonAct(old(st), old(View()).Top(), c), ok)
    {
      if c == '"' { st := if st == JStr then JAfterVal else JKeyColon; return true; }
      if c == '\\' { st := if st == JStr then JStrEsc else JKeyEsc; return true; }
      return c >= ' ';
    }

    method StepEscape(c: char) returns (ok: bool)
      requires st == JStrEsc || st == JKeyEsc
      modifies this`st
      ensures After(old(View()), JsonAct(old(st), old(View()).Top(), c), ok)
    {
      if c == 'u' { st := if st == JStrEsc then JStrU1 else JKeyU1; return true; }
      if IsEscape(c) { st := if st == JStrEsc then JStr else JKeyStr; return true; }
      return false;
    }

    /** The digits of a unicode escape. */
    method StepHex(c: char) returns (ok: bool)
      requires st == JStrU1 || st == JStrU2 || st == JStrU3 || st == JStrU4
            || st == JKeyU1 || st == JKeyU2 || st == JKeyU3 || st == JKeyU4
      modifies this`st
      ensures After(old(View()), JsonAct(old(st), old(View()).Top(), c), ok)
    {
      if !IsHex(c) { return false; }
      st := match st
        case JStrU1 => JStrU2
        case JStrU2 => JStrU3
        case JStrU3 => JStrU4
        case JStrU4 => JStr
        case JKeyU1 => JKeyU2
        case JKeyU2 => JKeyU3
        case JKeyU3 => JKeyU4
        case _ => JKeyStr;
      return true;
    }

    method StepName(c: char) returns (ok: bool)
      requires st == NameVal
      modifies this`st, this`namePref
      ensures After(old(View()), NameAct(names, old(namePref), c), ok)
    {
      var i := 0;
      if c == '"' {
        while i < |names|
          invariant 0 <= i <= |names| && unchanged(this) && namePref !in names[..i]
        {
          if names[i] == namePref { st := ArgComma; return true; }
          i := i + 1;
        }
        return false;
      }
      var next := namePref + [c];
      while i < |names|
        invariant 0 <= i <= |names| && unchanged(this) && forall k :: 0 <= k < i ==> !(next <= names[k])
      {
        if next <= names[i] { namePref := next; return true; }
        i := i + 1;
      }
      return false;
    }

    method StepFrame(c: char) returns (ok: bool)
      requires FrameState(st) && st != NameVal
      modifies this`st, this`lit, this`litWord, this`namePref
      ensures After(old(View()), FrameAct(old(View()), c), ok)
    {
      if st == WsObjOpen {
        if IsWs(c) { return true; }
        if c == '{' { st := KeyOpenQ; return true; }
        return false;
      } else if st == KeyOpenQ {
        if IsWs(c) { return true; }
        if c == '"' { lit := 0; st := KeyName; return true; }
        return false;
      } else if st == KeyName {
        if lit < 4 {
          if c != "name"[lit] { return false; }
          lit := lit + 1;
          return true;
        }
        if c == '"' { st := KeyColon; return true; }
        return false;
      } else if st == KeyColon {
        if IsWs(c) { return true; }
        if c == ':' { st := NameOpenQ; return true; }
        return false;
      } else if st == NameOpenQ {
        if IsWs(c) { return true; }
        if c == '"' { namePref := ""; st := NameVal; return true; }
        return false;
      } else if st == ArgComma {
        if IsWs(c) { return true; }
        if c == ',' { st := ArgKeyOpenQ; return true; }
        return false;
      } else if st == ArgKeyOpenQ {
        if IsWs(c) { return true; }
        if c == '"' { lit := 0; st := ArgKey; return true; }
        return false;
      } else if st == ArgKey {
        if lit < 9 {
          if c != "arguments"[lit] { return false; }
          lit := lit + 1;
          return true;
        }
        if c == '"' { st := ArgsColon; return true; }
        return false;
      } else if st == ArgsColon {
        if IsWs(c) { return true; }
        if c == ':' { st := JValue; return true; }
        return false;
      } else if st == JLit {
        if lit < |litWord| {
          if c != litWord[lit] { return false; }
          lit := lit + 1;
          if lit == |litWord| { st := JAfterVal; }
          return true;
        }
        return false;
      } else if st == ObjClose {
        if IsWs(c) { return true; }
        if c == '}' { st := Done; return true; }
        return false;
      } else if st == Done {
        if IsWs(c) { return true; }
        if c == '<' { litWord := CLOSER; lit := 1; st := Closer; return true; }
        return false;
      } else if st == Closer {
        if lit < |litWord| {
          if c != litWord[lit] { return false; }
          lit := lit + 1;
          if lit == |litWord| { st := Closed; }
          return true;
        }
        return false;
      } else {
        return true;
      }
    }
  }
}
