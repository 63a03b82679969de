/** RGBW::savePaths: the text format the tools write, one line per entry.

    The colour names White, Red, Green and Blue head the four sections, in
    that order, and each step of the section's path follows on its own line
    as the two decimal integers "x y" (what `o << s.x << " " << s.y << endl`
    prints). The stream is modelled as its sequence of lines, without the
    line terminators. ParseSaved reads the format back. */
module PathText {
  import opened Geometry
  import opened Paths
  import opened Bundles

  datatype Option<T> = None | Some(value: T)

  function Digit(d: int): char
    requires 0 <= d < 10
  {
    "0123456789"[d]
  }

  predicate IsDigit(ch: char) {
    '0' <= ch <= '9'
  }

  function DigitValue(ch: char): (v: int)
    requires IsDigit(ch)
    ensures 0 <= v < 10
  {
    ch as int - '0' as int
  }

  /** Decimal digits of n, most significant first, without leading zeros. */
  function NatToString(n: nat): (s: string)
    ensures |s| >= 1 && forall i :: 0 <= i < |s| ==> IsDigit(s[i])
    decreases n
  {
    if n < 10 then [Digit(n)] else NatToString(n / 10) + [Digit(n % 10)]
  }

  /** How `ostream << int` prints: an optional minus sign, then the digits. */
  function IntToString(n: int): (s: string)
    ensures |s| >= 1 && forall i :: 0 <= i < |s| ==> s[i] != ' '
  {
    if n < 0 then "-" + NatToString(-n) else NatToString(n)
  }

  /** One step line, "x y". */
  function StepLine(s: Step): string {
    IntToString(s.x) + " " + IntToString(s.y)
  }

  function StepLines(steps: seq<Step>): (lines: seq<string>)
    ensures |lines| == |steps|
  {
    if steps == [] then [] else [StepLine(steps[0])] + StepLines(steps[1..])
  }

  /** Line i of a section's body is the line of step i. */
  lemma {:induction false} StepLinesAt(steps: seq<Step>, i: nat)
    requires i < |steps|
    ensures StepLines(steps)[i] == StepLine(steps[i])
    decreases i
  {
    if i > 0 {
      StepLinesAt(steps[1..], i - 1);
    }
  }

  /** savePaths, in the order white, red, green, blue. */
  function SavePaths(x: RGBW): (lines: seq<string>)
    ensures |lines| == 4 + StitchCount(x)
    ensures lines[0] == "White" && lines[1 + |x.w.steps|] == "Red"
    ensures lines[2 + |x.w.steps| + |x.r.steps|] == "Green"
    ensures lines[3 + |x.w.steps| + |x.r.steps| + |x.g.steps|] == "Blue"
  {
    ["White"] + (StepLines(x.w.steps) + (["Red"] + (StepLines(x.r.steps)
      + (["Green"] + (StepLines(x.g.steps) + (["Blue"] + StepLines(x.b.steps)))))))
  }

  // ----- reading the format back

  predicate AllDigits(s: string) {
    forall i :: 0 <= i < |s| ==> IsDigit(s[i])
  }

  /** The value of a run of decimal digits. */
  function ParseNat(s: string): nat
    requires AllDigits(s)
    decreases |s|
  {
    if s == [] then 0 else ParseNat(s[..|s| - 1]) * 10 + DigitValue(s[|s| - 1])
  }

  function ParseInt(s: string): Option<int> {
    if |s| >= 2 && s[0] == '-' && AllDigits(s[1..]) then Some(-(ParseNat(s[1..]) as int))
    else if |s| >= 1 && AllDigits(s) then Some(ParseNat(s))
    else None
  }

  /** Index of the first space of s, or |s| when there is none. */
  function SpaceAt(s: string): (i: nat)
    ensures i <= |s| && (i < |s| ==> s[i] == ' ')
    ensures forall j :: 0 <= j < i ==> s[j] != ' '
  {
    if s == [] then 0 else if s[0] == ' ' then 0 else 1 + SpaceAt(s[1..])
  }

  function ParseLine(line: string): Option<Step> {
    var i := SpaceAt(line);
    if i == |line| then None
    else match (ParseInt(line[..i]), ParseInt(line[i + 1..]))
      case (Some(x), Some(y)) => Some(Step(x, y))
      case _ => None
  }

  /** The step lines at the front of `lines`, and what follows them. */
  function ReadSteps(lines: seq<string>): (r: (seq<Step>, seq<string>))
    ensures |r.1| <= |lines|
  {
    if lines == [] then ([], [])
    else match ParseLine(lines[0])
      case None => ([], lines)
      case Some(s) => var (t, rest) := ReadSteps(lines[1..]); ([s] + t, rest)
  }

  /** One section: its header line, then its steps. */
  function ReadSection(name: string, lines: seq<string>): Option<(seq<Step>, seq<string>)> {
    if |lines| >= 1 && lines[0] == name then Some(ReadSteps(lines[1..])) else None
  }

  /** The four step sequences of a saved file, white, red, green, blue. */
  function ParseSaved(lines: seq<string>): Option<seq<seq<Step>>> {
    match ReadSection("White", lines)
    case None => None
    case Some((w, rest)) =>
      match ReadSection("Red", rest)
      case None => None
      case Some((r, rest')) =>
        match ReadSection("Green", rest')
        case None => None
        case Some((g, rest'')) =>
          match ReadSection("Blue", rest'')
          case None => None
          case Some((b, rest''')) => if rest''' == [] then Some([w, r, g, b]) else None
  }

  // ----- the round trip

  lemma {:induction false} ParseNatToString(n: nat)
    ensures ParseNat(NatToString(n)) == n
    decreases n
  {
    if n >= 10 {
      ParseNatToString(n / 10);
      ParseLastDigit(NatToString(n / 10), n % 10);
    }
  }

  /** Appending a digit multiplies the value by ten and adds the digit. */
  lemma ParseLastDigit(s: string, d: int)
    requires AllDigits(s) && 0 <= d < 10
    ensures AllDigits(s + [Digit(d)]) && ParseNat(s + [Digit(d)]) == ParseNat(s) * 10 + d
  {
    var t := s + [Digit(d)];
    assert t[..|t| - 1] == s;
  }

  lemma ParseIntToString(n: int)
    ensures ParseInt(IntToString(n)) == Some(n)
  {
    if n < 0 {
      ParseNegative(-n);
    } else {
      ParseNatToString(n);
    }
  }

  lemma ParseNegative(m: nat)
    requires m > 0
    ensures ParseInt("-" + NatToString(m)) == Some(-(m as int))
  {
    var s := "-" + NatToString(m);
    assert s[1..] == NatToString(m);
    ParseNatToString(m);
  }

  lemma {:induction false} SpaceAtJoin(a: string, b: string)
    requires forall i :: 0 <= i < |a| ==> a[i] != ' '
    ensures SpaceAt(a + " " + b) == |a|
    decreases |a|
  {
    if a != [] {
      assert (a + " " + b)[1..] == a[1..] + " " + b;
      SpaceAtJoin(a[1..], b);
    }
  }

  /** Every step line reads back as its step. */
  lemma ParseStepLine(s: Step)
    ensures ParseLine(StepLine(s)) == Some(s)
  {
    var a, b := IntToString(s.x), IntToString(s.y);
    var line := StepLine(s);
    SpaceAtJoin(a, b);
    assert line[..|a|] == a;
    assert line[|a| + 1..] == b;
    ParseIntToString(s.x);
    ParseIntToString(s.y);
  }

  /** A colour name is not a step line. */
  lemma HeaderIsNotStep(name: string)
    requires name in {"White", "Red", "Green", "Blue"}
    ensures ParseLine(name) == None
  {
    assert SpaceAt(name) == |name|;
  }

  /** Lines whose first |steps| entries parse as the steps, followed by the
      end or by a line that is not a step line, read back as the steps. */
  lemma {:induction false} ReadParsed(lines: seq<string>, steps: seq<Step>)
    requires |steps| <= |lines|
    requires forall i :: 0 <= i < |steps| ==> ParseLine(lines[i]) == Some(steps[i])
    requires |steps| == |lines| || ParseLine(lines[|steps|]) == None
    ensures ReadSteps(lines) == (steps, lines[|steps|..])
    decreases |steps|
  {
    if steps != [] {
      assert ParseLine(lines[0]) == Some(steps[0]);
      ReadParsed(lines[1..], steps[1..]);
      assert lines[1..][|steps| - 1..] == lines[|steps|..];
      assert [steps[0]] + steps[1..] == steps;
    }
  }

  /** The step lines read back as their steps, up to a line that is not a step line. */
  lemma ReadStepLines(steps: seq<Step>, tail: seq<string>)
    requires tail == [] || ParseLine(tail[0]) == None
    ensures ReadSteps(StepLines(steps) + tail) == (steps, tail)
  {
    var lines := StepLines(steps) + tail;
    forall i | 0 <= i < |steps|
      ensures ParseLine(lines[i]) == Some(steps[i])
    {
      StepLinesAt(steps, i);
      ParseStepLine(steps[i]);
    }
    ReadParsed(lines, steps);
    assert lines[|steps|..] == tail;
  }

  lemma ReadSectionLines(name: string, steps: seq<Step>, tail: seq<string>)
    requires tail == [] || ParseLine(tail[0]) == None
    ensures ReadSection(name, [name] + (StepLines(steps) + tail)) == Some((steps, tail))
  {
    assert ([name] + (StepLines(steps) + tail))[1..] == StepLines(steps) + tail;
    ReadStepLines(steps, tail);
  }

  /** Reading a saved bundle back gives its four step sequences. */
  lemma SavedRoundTrip(x: RGBW)
    ensures ParseSaved(SavePaths(x)) == Some([x.w.steps, x.r.steps, x.g.steps, x.b.steps])
  {
    var blue := ["Blue"] + StepLines(x.b.steps);
    var green := ["Green"] + (StepLines(x.g.steps) + blue);
    var red := ["Red"] + (StepLines(x.r.steps) + green);
    HeaderIsNotStep("Red");
    HeaderIsNotStep("Green");
    HeaderIsNotStep("Blue");
    ReadSectionLines("White", x.w.steps, red);
    ReadSectionLines("Red", x.r.steps, green);
    ReadSectionLines("Green", x.g.steps, blue);
    ReadSectionLines("Blue", x.b.steps, []);
    assert StepLines(x.b.steps) + [] == StepLines(x.b.steps);
  }
}
