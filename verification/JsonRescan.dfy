/** The buffered repair with its switches, and when its second scan runs and differs. */
module JsonRescan {
  import opened Json
  import opened JsonRepair
  import opened JsonTagged

  /** A step with its marks: a control byte escaped, a quote escaped. */
  datatype Marked = Marked(st: Core, out: string, control: bool, quote: bool)

  /** One byte under the two switches, the look-ahead behind quotes and the escaping of
      control bytes. */
  function ModeStep(look: bool, escape: bool, b: Core, c: char, rest: string): Marked {
    if b.esc then Marked(b.(esc := false), [c], false, false)
    else if b.inStr then
      if c == '\\' then Marked(b.(esc := true), [c], false, false)
      else if c == '"' then
        if !look || QuoteTerminates(rest, b.isKey) then Marked(b.(inStr := false), [c], false, false)
        else Marked(b, "\\\"", false, true)
      else if escape then Marked(b, EscapeControl(c), EscapeControl(c) != [c], false)
      else Marked(b, [c], false, false)
    else Marked(Outside(b, c), [c], false, false)
  }

  /** With both switches on it is the repairing step. */
  lemma BothOn(b: Core, c: char, rest: string)
    ensures var m := ModeStep(true, true, b, c, rest); Out(m.st, m.out) == BufferedStep(b, c, rest)
  {}

  datatype Segment = Segment(scan: Scanned, control: bool, quote: bool)

  function SegmentScan(look: bool, b: Core, src: string): (r: Segment)
    ensures r.scan.used <= |src| && (r.scan.closed ==> r.scan.used >= 1)
    decreases |src|
  {
    if src == "" then Segment(Scanned(false, "", 0), false, false)
    else
      var m := ModeStep(look, true, b, src[0], src[1..]);
      if Balanced(m.st, src[0]) then Segment(Scanned(true, m.out, 1), m.control, m.quote)
      else
        var r := SegmentScan(look, m.st, src[1..]);
        Segment(Scanned(r.scan.closed, m.out + r.scan.out, r.scan.used + 1), m.control || r.control, m.quote || r.quote)
  }

  lemma SegmentUnfolds(look: bool, b: Core, src: string)
    ensures src == "" ==> SegmentScan(look, b, src) == Segment(Scanned(false, "", 0), false, false)
    ensures src != "" ==>
      var m := ModeStep(look, true, b, src[0], src[1..]); var r := SegmentScan(look, m.st, src[1..]);
      SegmentScan(look, b, src) ==
        if Balanced(m.st, src[0]) then Segment(Scanned(true, m.out, 1), m.control, m.quote)
        else Segment(Scanned(r.scan.closed, m.out + r.scan.out, r.scan.used + 1), m.control || r.control, m.quote || r.quote)
  {
    hide ModeStep, Balanced;
  }

  /** The segment as the recovery takes it: an unbalanced one in which a quote was escaped
      is scanned again, every quote then ending its string. */
  function Recovered(src: string): Segment {
    var first := SegmentScan(true, START, src);
    if !first.scan.closed && first.quote then SegmentScan(false, START, src) else first
  }

  lemma {:induction false} FirstScanIsBuffered(b: Core, src: string)
    ensures SegmentScan(true, b, src).scan == BufferedScan(b, src)
    decreases |src|
  {
    hide ModeStep, BufferedStep, Balanced;
    if src != "" {
      BothOn(b, src[0], src[1..]);
      FirstScanIsBuffered(ModeStep(true, true, b, src[0], src[1..]).st, src[1..]);
    }
  }

  lemma {:induction false} SecondScanEscapesNoQuote(b: Core, src: string)
    ensures !SegmentScan(false, b, src).quote
    decreases |src|
  {
    if src != "" { SecondScanEscapesNoQuote(ModeStep(false, true, b, src[0], src[1..]).st, src[1..]); }
  }

  /** Where the first scan escapes a quote the second writes it as it is. */
  lemma {:induction false} ScansDiffer(b: Core, src: string)
    requires SegmentScan(true, b, src).quote
    ensures SegmentScan(true, b, src).scan.out != SegmentScan(false, b, src).scan.out
    decreases |src|
  {
    var one, two := ModeStep(true, true, b, src[0], src[1..]), ModeStep(false, true, b, src[0], src[1..]);
    var r1, r2 := SegmentScan(true, b, src).scan.out, SegmentScan(false, b, src).scan.out;
    if one.quote {
      assert one.out[0] == '\\' && two.out[0] == '"';
      assert r1[0] == '\\' && r2[0] == '"';
    } else {
      StepsAlike(b, src[0], src[1..]);
      hide ModeStep, Balanced;
      ScansDiffer(one.st, src[1..]);
      SameFrontDiffers(one.out, SegmentScan(true, one.st, src[1..]).scan.out, SegmentScan(false, one.st, src[1..]).scan.out);
    }
  }

  /** Where it escapes none the two scans are the same. */
  lemma {:induction false} ScansAlike(b: Core, src: string)
    requires !SegmentScan(true, b, src).quote
    ensures SegmentScan(false, b, src) == SegmentScan(true, b, src)
    decreases |src|
  {
    if src != "" {
      StepsAlike(b, src[0], src[1..]);
      var m := ModeStep(true, true, b, src[0], src[1..]);
      hide ModeStep;
      if !Balanced(m.st, src[0]) { ScansAlike(m.st, src[1..]); }
    }
  }

  lemma StepsAlike(b: Core, c: char, rest: string)
    requires !ModeStep(true, true, b, c, rest).quote
    ensures ModeStep(false, true, b, c, rest) == ModeStep(true, true, b, c, rest)
  {}

  lemma SameFrontDiffers(a: string, x: string, y: string)
    requires x != y
    ensures a + x != a + y
  {
    assert x == (a + x)[|a|..] && y == (a + y)[|a|..];
  }

  /** What the stream writes in all, its final tail included. */
  function Streamed(src: string): string {
    var r := StreamRun(STREAM_START, src);
    r.out + if r.st.done then "" else FinalTail(r.st)
  }

  /** For a body without content tags that is what a scan with look-ahead writes. */
  lemma StreamIsFirstScan(src: string)
    requires TagFree(src)
    ensures Streamed(src) == SegmentScan(true, START, src).scan.out
  {
    hide StreamRun, BufferedScan, TagFree, SegmentScan;
    StreamMatchesBuffered(src);
    FirstScanIsBuffered(START, src);
    assert StreamRun(STREAM_START, src).out + "" == StreamRun(STREAM_START, src).out;
  }

  /** The quote mark survives only on segments that close. */
  lemma MarkedMeansClosed(src: string)
    ensures Recovered(src).quote ==> Recovered(src).scan.closed
  {
    hide SegmentScan;
    SecondScanEscapesNoQuote(START, src);
  }
}
