/** iter_vcd as a fold over the lines of the file, and what a whole file makes it return. */
module Vcd {
  import opened Text
  import Seqs
  import Toggles

  /** The value of one Signal object. */
  datatype Record = Record(path: string, width: int, count: Toggles.Count)

  /** The variables of iter_vcd. The dictionary `signals` remembers the order in which its keys were inserted. */
  datatype Parsed = Parsed(
    inHeader: bool,
    scopes: seq<string>,
    order: seq<string>,
    signals: map<string, Record>,
    timeSteps: nat,
    lastTime: int)

  /** Raised: ValueError from the width of a $var line. */
  datatype Outcome = Going(state: Parsed) | Raised

  const Initial := Parsed(true, [], [], map[], 0, 0)

  function CleanName(name: string): string {
    Remove(' ', name)
  }

  /** signals.setdefault(code, Signal(path, width)) */
  function Declare(p: Parsed, code: string, path: string, width: int): Parsed {
    if code in p.signals then p
    else p.(order := p.order + [code],
            signals := p.signals[code := Record(path, width, Toggles.Count(Toggles.Unset, 0, 0))])
  }

  function VarStep(p: Parsed, parts: seq<string>): Outcome {
    if |parts| < 6 then Going(p)
    else
      match ParseInt(parts[2])
      case None => Raised
      case Some(width) =>
        Going(Declare(p, parts[3], Join(".", p.scopes + [CleanName(Concat(parts[4..|parts| - 1]))]), width))
  }

  function HeaderStep(p: Parsed, line: string): Outcome {
    if "$scope" <= line then
      var parts := Split(line);
      Going(if |parts| >= 3 then p.(scopes := p.scopes + [CleanName(parts[2])]) else p)
    else if "$upscope" <= line then
      Going(if p.scopes != [] then p.(scopes := p.scopes[..|p.scopes| - 1]) else p)
    else if "$var" <= line then VarStep(p, Split(line))
    else if "$enddefinitions" <= line then Going(p.(inHeader := false))
    else Going(p)
  }

  /** What a line after the header says. */
  datatype Event = Time(at: Option<int>) | Change(code: string, value: string) | Other

  function EventOf(raw: string): Event {
    var line := Strip(raw);
    if line == "" then Other
    else if line[0] == '#' then Time(ParseInt(line[1..]))
    else if line[0] in "01xzXZ" then Change(line[1..], Lower(line[..1]))
    else if line[0] in "bBrR" then
      var parts := Split(line);
      if |parts| == 2 then Change(parts[1], Lower(parts[0][1..])) else Other
    else Other
  }

  function BodyStep(p: Parsed, e: Event): Parsed {
    match e
    case Time(at) => p.(timeSteps := p.timeSteps + 1, lastTime := if at.Some? then at.value else p.lastTime)
    case Change(code, value) =>
      if code in p.signals then p.(signals := p.signals[code := Assign(p.signals[code], value)]) else p
    case Other => p
  }

  function Assign(s: Record, value: string): Record {
    s.(count := Toggles.Next(s.count, value, s.width))
  }

  /** One turn of the loop. */
  function Step(p: Parsed, raw: string): Outcome {
    var line := Strip(raw);
    if line == "" then Going(p)
    else if p.inHeader then HeaderStep(p, line)
    else Going(BodyStep(p, EventOf(raw)))
  }

  function Run(p: Parsed, lines: seq<string>): Outcome
    decreases |lines|
  {
    if lines == [] then Going(p)
    else
      var n := |lines| - 1;
      match Run(p, lines[..n])
      case Going(q) => Step(q, lines[n])
      case Raised => Raised
  }

  lemma {:induction false} RunSnoc(p: Parsed, lines: seq<string>, x: string)
    ensures Run(p, lines + [x]) == if Run(p, lines).Going? then Step(Run(p, lines).state, x) else Raised
  {
    assert (lines + [x])[..|lines|] == lines;
  }

  lemma {:induction false} RunAppend(p: Parsed, a: seq<string>, b: seq<string>)
    ensures Run(p, a + b) == if Run(p, a).Going? then Run(Run(p, a).state, b) else Raised
  {
    if b == [] {
      assert a + b == a;
    } else {
      var n := |b| - 1;
      assert a + b == (a + b[..n]) + [b[n]];
      RunSnoc(p, a + b[..n], b[n]);
      RunAppend(p, a, b[..n]);
    }
  }

  /** The state after the first i lines. */
  function Upto(lines: seq<string>, i: nat): Outcome
    requires i <= |lines|
  {
    Run(Initial, lines[..i])
  }

  lemma UptoNone(lines: seq<string>)
    ensures Upto(lines, 0) == Going(Initial)
  {}

  lemma {:induction false} UptoAll(lines: seq<string>)
    ensures Upto(lines, |lines|) == Run(Initial, lines)
  {
    assert lines[..|lines|] == lines;
  }

  lemma RunTake(lines: seq<string>, i: nat)
    requires i < |lines|
    ensures Upto(lines, i + 1) == if Upto(lines, i).Going? then Step(Upto(lines, i).state, lines[i]) else Raised
  {
    assert lines[..i + 1] == lines[..i] + [lines[i]];
    RunSnoc(Initial, lines[..i], lines[i]);
  }

  lemma {:induction false} RaisedStays(lines: seq<string>, i: nat)
    requires i <= |lines| && Upto(lines, i).Raised?
    ensures Run(Initial, lines).Raised?
  {
    assert lines == lines[..i] + lines[i..];
    RunAppend(Initial, lines[..i], lines[i..]);
  }

  // What a whole file means, with no reference to the state of the parser.

  predicate EndsHeader(raw: string) {
    "$enddefinitions" <= Strip(raw)
  }

  /** What the lines after the first $enddefinitions line say. */
  function Events(lines: seq<string>): seq<Event> {
    var h := Seqs.FirstIndex(lines, EndsHeader);
    if h == |lines| then [] else Seqs.Map(lines[h + 1..], EventOf)
  }

  function ValuesOf(es: seq<Event>, code: string): seq<string> {
    if es == [] then []
    else
      var e := es[|es| - 1];
      ValuesOf(es[..|es| - 1], code) + if e.Change? && e.code == code then [e.value] else []
  }

  function Times(es: seq<Event>): nat {
    if es == [] then 0 else Times(es[..|es| - 1]) + if es[|es| - 1].Time? then 1 else 0
  }

  function LastTime(es: seq<Event>): int {
    if es == [] then 0
    else
      var e := es[|es| - 1];
      if e.Time? && e.at.Some? then e.at.value else LastTime(es[..|es| - 1])
  }

  /** The dictionary's keys and their insertion order agree. */
  ghost predicate Kept(p: Parsed) {
    && (forall k :: k in p.signals <==> k in p.order)
    && forall i, j :: 0 <= i < j < |p.order| ==> p.order[i] != p.order[j]
  }

  ghost predicate CountMeans(s: Record, es: seq<Event>, code: string) {
    s.count == Toggles.Counted(ValuesOf(es, code), s.width)
  }

  ghost predicate Means(p: Parsed, es: seq<Event>) {
    && p.timeSteps == Times(es)
    && p.lastTime == LastTime(es)
    && forall k :: k in p.signals ==> CountMeans(p.signals[k], es, k)
  }

  lemma {:induction false} FirstIndexSnoc(lines: seq<string>, x: string)
    ensures Seqs.FirstIndex(lines + [x], EndsHeader) ==
            if Seqs.FirstIndex(lines, EndsHeader) < |lines| || EndsHeader(x) then Seqs.FirstIndex(lines, EndsHeader)
            else |lines| + 1
  {
    if lines == [] {
      assert lines + [x] == [x];
    } else {
      assert (lines + [x])[1..] == lines[1..] + [x];
      FirstIndexSnoc(lines[1..], x);
    }
  }

  predicate HeaderOnly(lines: seq<string>) {
    Seqs.FirstIndex(lines, EndsHeader) == |lines|
  }

  lemma EventsSnoc(lines: seq<string>, x: string)
    ensures HeaderOnly(lines + [x]) <==> HeaderOnly(lines) && !EndsHeader(x)
    ensures HeaderOnly(lines) ==> Events(lines + [x]) == [] && Events(lines) == []
    ensures !HeaderOnly(lines) ==> Events(lines + [x]) == Events(lines) + [EventOf(x)]
  {
    FirstIndexSnoc(lines, x);
    var h := Seqs.FirstIndex(lines, EndsHeader);
    if h < |lines| {
      assert (lines + [x])[h + 1..] == lines[h + 1..] + [x];
      Seqs.MapSnoc(lines[h + 1..], x, EventOf);
    }
  }

  lemma {:induction false} ValuesOfSnoc(es: seq<Event>, e: Event, code: string)
    ensures ValuesOf(es + [e], code) ==
            if e.Change? && e.code == code then ValuesOf(es, code) + [e.value] else ValuesOf(es, code)
  {
    assert (es + [e])[..|es|] == es;
  }

  lemma AssignMeans(s: Record, es: seq<Event>, e: Event)
    requires e.Change? && CountMeans(s, es, e.code)
    ensures CountMeans(Assign(s, e.value), es + [e], e.code)
  {
    ValuesOfSnoc(es, e, e.code);
    var vs := ValuesOf(es, e.code);
    assert (vs + [e.value])[..|vs|] == vs;
  }

  lemma BodyMeans(p: Parsed, es: seq<Event>, e: Event)
    requires Kept(p) && Means(p, es)
    ensures Kept(BodyStep(p, e)) && Means(BodyStep(p, e), es + [e])
  {
    assert (es + [e])[..|es|] == es;
    var q := BodyStep(p, e);
    forall k | k in q.signals
      ensures k in p.signals && CountMeans(q.signals[k], es + [e], k)
    {
      if e.Change? && e.code == k {
        AssignMeans(p.signals[k], es, e);
      } else {
        ValuesOfSnoc(es, e, k);
      }
    }
  }

  lemma DeclareMeans(p: Parsed, code: string, path: string, width: int)
    requires Kept(p) && Means(p, [])
    ensures var q := Declare(p, code, path, width); Kept(q) && Means(q, []) && q.inHeader == p.inHeader
  {
    if code !in p.signals {
      var q := Declare(p, code, path, width);
      assert forall k :: k in q.order <==> k == code || k in p.order;
    }
  }

  lemma VarMeans(p: Parsed, parts: seq<string>)
    requires Kept(p) && Means(p, []) && VarStep(p, parts).Going?
    ensures var q := VarStep(p, parts).state; Kept(q) && Means(q, []) && q.inHeader == p.inHeader
  {
    if |parts| >= 6 {
      DeclareMeans(p, parts[3], Join(".", p.scopes + [CleanName(Concat(parts[4..|parts| - 1]))]),
                   ParseInt(parts[2]).value);
    }
  }

  lemma HeaderMeans(p: Parsed, line: string)
    requires Kept(p) && Means(p, []) && p.inHeader && HeaderStep(p, line).Going?
    ensures var q := HeaderStep(p, line).state;
            Kept(q) && Means(q, []) && (q.inHeader <==> !("$enddefinitions" <= line))
  {
    Keywords(line);
    if "$var" <= line {
      VarMeans(p, Split(line));
    }
  }

  /** A line starts with at most one of the keywords. */
  lemma Keywords(line: string)
    ensures "$scope" <= line ==> line[1] == 's'
    ensures "$upscope" <= line ==> line[1] == 'u'
    ensures "$var" <= line ==> line[1] == 'v'
    ensures "$enddefinitions" <= line ==> line[1] == 'e'
  {}

  /** The state after some lines is what those lines mean. */
  ghost predicate MeansLines(p: Parsed, lines: seq<string>) {
    Kept(p) && Means(p, Events(lines)) && (p.inHeader <==> HeaderOnly(lines))
  }

  lemma StepMeans(p: Parsed, lines: seq<string>, x: string)
    requires MeansLines(p, lines) && Step(p, x).Going?
    ensures MeansLines(Step(p, x).state, lines + [x])
  {
    EventsSnoc(lines, x);
    if !p.inHeader {
      BodyMeans(p, Events(lines), EventOf(x));
    } else if Strip(x) != "" {
      HeaderMeans(p, Strip(x));
    }
  }

  /** A file that is read without ValueError yields, for every signal, the toggle count of the values that the lines
      after the header give its code, and the number and last readable value of the '#' lines. */
  lemma {:induction false} FileMeans(lines: seq<string>)
    requires Run(Initial, lines).Going?
    ensures MeansLines(Run(Initial, lines).state, lines)
  {
    if lines != [] {
      var front, x := lines[..|lines| - 1], lines[|lines| - 1];
      assert lines == front + [x];
      FileMeans(front);
      StepMeans(Run(Initial, front).state, front, x);
    }
  }

  /** A $var line whose width int() refuses. */
  predicate BadVar(raw: string) {
    var parts := Split(Strip(raw));
    "$var" <= Strip(raw) && |parts| >= 6 && ParseInt(parts[2]).None?
  }

  lemma StepRaises(p: Parsed, raw: string)
    ensures Step(p, raw).Raised? <==> p.inHeader && BadVar(raw)
  {
    Keywords(Strip(raw));
  }

  ghost predicate BadHeader(lines: seq<string>) {
    exists i :: 0 <= i < Seqs.FirstIndex(lines, EndsHeader) && BadVar(lines[i])
  }

  lemma BadHeaderSnoc(lines: seq<string>, x: string)
    ensures BadHeader(lines + [x]) <==> BadHeader(lines) || (HeaderOnly(lines) && BadVar(x))
  {
    FirstIndexSnoc(lines, x);
    Keywords(Strip(x));
    var h := Seqs.FirstIndex(lines, EndsHeader);
    if HeaderOnly(lines) && BadVar(x) {
      assert BadVar((lines + [x])[h]);
    }
    if BadHeader(lines) {
      var i :| 0 <= i < h && BadVar(lines[i]);
      assert BadVar((lines + [x])[i]);
    }
  }

  /** Reading fails exactly on a file that declares a malformed width before its header ends. */
  lemma {:induction false} RaisedExactly(lines: seq<string>)
    ensures Run(Initial, lines).Raised? <==> BadHeader(lines)
  {
    if lines != [] {
      var n := |lines| - 1;
      RaisedExactly(lines[..n]);
      assert lines == lines[..n] + [lines[n]];
      BadHeaderSnoc(lines[..n], lines[n]);
      if Run(Initial, lines[..n]).Going? {
        FileMeans(lines[..n]);
        StepRaises(Run(Initial, lines[..n]).state, lines[n]);
      }
    }
  }
}
