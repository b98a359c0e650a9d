/** Any writing of a scope tree and a trace as a VCD file, and reading it back. */
module VcdRoundTrip {
  import opened Layout
  import opened Text
  import opened Strings
  import Seqs
  import Toggles
  import opened Vcd
  import opened VcdLines

  /** The declarations of a file: a list whose scopes hold lists. `number` writes the width; `more`, `closing` and
      `last` are tokens the reader does not look at. */
  datatype Tree =
    | Done
    | Var(kind: string, number: string, width: int, code: string, name: seq<string>, last: string, rest: Tree)
    | Scope(kind: string, scope: string, more: seq<string>, inside: Tree, closing: seq<string>, rest: Tree)
    | Note(tokens: seq<string>, rest: Tree)

  /** A header line that declares nothing: a blank one, a comment, $date, $timescale, or a broken $scope or $var. */
  predicate IsNote(ts: seq<string>) {
    ts == [] || NoKeyword(ts[0]) || ("$scope" <= ts[0] && |ts| < 3) || ("$var" <= ts[0] && |ts| < 6)
  }

  ghost predicate WellFormed(t: Tree) {
    match t
    case Done => true
    case Var(_, number, width, _, _, _, rest) => Spells(number, width) && WellFormed(rest)
    case Scope(_, _, _, inside, _, rest) => WellFormed(inside) && WellFormed(rest)
    case Note(ts, rest) => IsNote(ts) && WellFormed(rest)
  }

  /** The lines of a tree, as their tokens. */
  function Print(t: Tree): seq<seq<string>> {
    match t
    case Done => []
    case Var(kind, number, _, code, name, last, rest) =>
      [["$var", kind, number, code] + name + [last]] + Print(rest)
    case Scope(kind, scope, more, inside, closing, rest) =>
      [["$scope", kind, scope] + more] + (Print(inside) + ([["$upscope"] + closing] + Print(rest)))
    case Note(ts, rest) => [ts] + Print(rest)
  }

  /** Every line of a file consists of the given tokens, with blanks and line ends of any kind. */
  ghost predicate RendersAll(lines: seq<string>, tss: seq<seq<string>>) {
    |lines| == |tss| && forall i :: 0 <= i < |lines| ==> Renders(lines[i], tss[i])
  }

  datatype Declaration = Declaration(code: string, path: string, width: int)

  /** What a tree declares, in file order, with full dotted paths. */
  function Declarations(t: Tree, scopes: seq<string>): seq<Declaration> {
    match t
    case Done => []
    case Var(_, _, width, code, name, _, rest) =>
      (if name == [] then [] else [Declaration(code, Dotted(scopes, Glue(name)), width)]) + Declarations(rest, scopes)
    case Scope(_, scope, _, inside, _, rest) => Declarations(inside, scopes + [scope]) + Declarations(rest, scopes)
    case Note(_, rest) => Declarations(rest, scopes)
  }

  function DeclareAll(p: Parsed, ds: seq<Declaration>): (q: Parsed)
    ensures q == p.(order := q.order, signals := q.signals)
    decreases |ds|
  {
    if ds == [] then p
    else var d := ds[|ds| - 1]; Declare(DeclareAll(p, ds[..|ds| - 1]), d.code, d.path, d.width)
  }

  lemma {:induction false} DeclareAppend(p: Parsed, a: seq<Declaration>, b: seq<Declaration>)
    ensures DeclareAll(p, a + b) == DeclareAll(DeclareAll(p, a), b)
  {
    if b == [] {
      assert a + b == a;
    } else {
      var n := |b| - 1;
      assert (a + b)[..|a| + n] == a + b[..n];
      DeclareAppend(p, a, b[..n]);
    }
  }

  // The header.

  lemma {:induction false} RunOne(p: Parsed, line: string)
    ensures Run(p, [line]) == Step(p, line)
  {
    assert [line][..0] == [];
  }

  lemma {:induction false} RunFirst(p: Parsed, lines: seq<string>, q: Parsed)
    requires lines != [] && Step(p, lines[0]) == Going(q)
    ensures Run(p, lines) == Run(q, lines[1..])
  {
    RunAppend(p, [lines[0]], lines[1..]);
    RunOne(p, lines[0]);
    assert lines == [lines[0]] + lines[1..];
  }

  lemma {:induction false} RunPart(p: Parsed, lines: seq<string>, n: nat, q: Parsed)
    requires n <= |lines| && Run(p, lines[..n]) == Going(q)
    ensures Run(p, lines) == Run(q, lines[n..])
  {
    RunAppend(p, lines[..n], lines[n..]);
    assert lines == lines[..n] + lines[n..];
  }

  lemma RendersRest(lines: seq<string>, first: seq<string>, tss: seq<seq<string>>)
    requires RendersAll(lines, [first] + tss)
    ensures lines != [] && Renders(lines[0], first) && RendersAll(lines[1..], tss)
  {
    assert ([first] + tss)[0] == first;
    forall i | 0 <= i < |tss| ensures Renders(lines[1..][i], tss[i]) {
      assert ([first] + tss)[i + 1] == tss[i];
      assert Renders(lines[i + 1], ([first] + tss)[i + 1]);
    }
  }

  lemma RendersSplit(lines: seq<string>, a: seq<seq<string>>, b: seq<seq<string>>)
    requires RendersAll(lines, a + b)
    ensures RendersAll(lines[..|a|], a) && RendersAll(lines[|a|..], b)
  {
    forall i | 0 <= i < |a| ensures Renders(lines[..|a|][i], a[i]) {
      assert Renders(lines[i], (a + b)[i]);
    }
    forall i | 0 <= i < |b| ensures Renders(lines[|a|..][i], b[i]) {
      assert Renders(lines[|a| + i], (a + b)[|a| + i]);
    }
  }

  lemma {:induction false} DeclareOne(p: Parsed, d: Declaration)
    ensures DeclareAll(p, [d]) == Declare(p, d.code, d.path, d.width)
  {
    assert [d][..0] == [];
  }

  /** One printed var line. */
  lemma {:induction false} VarRead(
    p: Parsed, line: string, kind: string, number: string, width: int, code: string, name: seq<string>,
    last: string)
    requires p.inHeader && Spells(number, width) && Renders(line, ["$var", kind, number, code] + name + [last])
    ensures name == [] ==> Step(p, line) == Going(p)
    ensures name != [] ==> Step(p, line) == Going(Declare(p, code, Dotted(p.scopes, Glue(name)), width))
  {
    var ts := ["$var", kind, number, code] + name + [last];
    assert ts[0] == "$var" && ts[2] == number && ts[3] == code && |ts| == |name| + 5;
    assert ts[4..|ts| - 1] == name;
    VarLine(p, line, ts);
  }

  lemma NoteRead(p: Parsed, line: string, ts: seq<string>)
    requires p.inHeader && Renders(line, ts) && IsNote(ts)
    ensures Step(p, line) == Going(p)
  {
    if ts == [] || NoKeyword(ts[0]) {
      OtherHeaderLine(p, line, ts);
    } else if "$scope" <= ts[0] {
      ScopeLine(p, line, ts);
    } else {
      VarLine(p, line, ts);
    }
  }

  /** Reading any writing of a tree declares exactly its declarations, in order, and restores the scope stack. */
  lemma {:induction false} HeaderRoundTrip(t: Tree, p: Parsed, lines: seq<string>)
    requires WellFormed(t) && p.inHeader && RendersAll(lines, Print(t))
    ensures Run(p, lines) == Going(DeclareAll(p, Declarations(t, p.scopes)))
    decreases t, 1
  {
    match t
    case Done =>
    case Var(kind, number, width, code, name, last, rest) =>
      var ds := if name == [] then [] else [Declaration(code, Dotted(p.scopes, Glue(name)), width)];
      RendersRest(lines, ["$var", kind, number, code] + name + [last], Print(rest));
      VarRead(p, lines[0], kind, number, width, code, name, last);
      if name != [] {
        DeclareOne(p, ds[0]);
      }
      var q := DeclareAll(p, ds);
      RunFirst(p, lines, q);
      HeaderRoundTrip(rest, q, lines[1..]);
      DeclareAppend(p, ds, Declarations(rest, p.scopes));
    case Scope(_, _, _, _, _, _) => ScopeRoundTrip(t, p, lines);
    case Note(ts, rest) =>
      RendersRest(lines, ts, Print(rest));
      NoteRead(p, lines[0], ts);
      RunFirst(p, lines, p);
      HeaderRoundTrip(rest, p, lines[1..]);
  }

  lemma {:induction false} ScopeRoundTrip(t: Tree, p: Parsed, lines: seq<string>)
    requires t.Scope? && WellFormed(t) && p.inHeader && RendersAll(lines, Print(t))
    ensures Run(p, lines) == Going(DeclareAll(p, Declarations(t, p.scopes)))
    decreases t, 0
  {
    var Scope(kind, scope, more, inside, closing, rest) := t;
    var tail := [["$upscope"] + closing] + Print(rest);
    var p1 := p.(scopes := p.scopes + [scope]);
    RendersRest(lines, ["$scope", kind, scope] + more, Print(inside) + tail);
    ScopeLine(p, lines[0], ["$scope", kind, scope] + more);
    RunFirst(p, lines, p1);
    var l1, n := lines[1..], |Print(inside)|;
    RendersSplit(l1, Print(inside), tail);
    HeaderRoundTrip(inside, p1, l1[..n]);
    var ds := Declarations(inside, p1.scopes);
    var p2, p3 := DeclareAll(p1, ds), DeclareAll(p, ds);
    RunPart(p1, l1, n, p2);
    RendersRest(l1[n..], ["$upscope"] + closing, Print(rest));
    UpscopeLine(p2, l1[n..][0], ["$upscope"] + closing);
    DeclareKeepsScopes(p, ds, p1.scopes);
    assert p2.(scopes := p2.scopes[..|p2.scopes| - 1]) == p3;
    RunFirst(p2, l1[n..], p3);
    HeaderRoundTrip(rest, p3, l1[n..][1..]);
    DeclareAppend(p, ds, Declarations(rest, p.scopes));
  }

  /** Declaring does not look at the scope stack. */
  lemma {:induction false} DeclareKeepsScopes(p: Parsed, ds: seq<Declaration>, scopes: seq<string>)
    ensures DeclareAll(p.(scopes := scopes), ds) == DeclareAll(p, ds).(scopes := scopes)
    decreases |ds|
  {
    if ds != [] {
      DeclareKeepsScopes(p, ds[..|ds| - 1], scopes);
    }
  }

  /** Position of the first declaration of a code. */
  function First(ds: seq<Declaration>, code: string): (i: nat)
    ensures i <= |ds|
    ensures i < |ds| ==> ds[i].code == code
    ensures forall j :: 0 <= j < i ==> ds[j].code != code
  {
    Seqs.FirstIndex(ds, (d: Declaration) => d.code == code)
  }

  /** Exactly the declared codes are signals, each with the path and width of its first declaration. */
  lemma {:induction false} FirstDeclaration(ds: seq<Declaration>, code: string)
    ensures var m := DeclareAll(Initial, ds).signals; var i := First(ds, code);
            && (code in m <==> i < |ds|)
            && (i < |ds| ==> m[code] == Record(ds[i].path, ds[i].width, Toggles.Count(Toggles.Unset, 0, 0)))
    decreases |ds|
  {
    if ds != [] {
      var n := |ds| - 1;
      FirstDeclaration(ds[..n], code);
      var i, j := First(ds, code), First(ds[..n], code);
      assert j < n ==> ds[j].code == code;
      assert i < n ==> ds[..n][i].code == code;
    }
  }

  // The trace.

  /** The line says that the time is what x spells, if it spells a number. */
  ghost predicate WritesTime(line: string, at: Option<int>, a: string, x: string, b: string) {
    && Padded(line, a, "#" + x, b)
    && (at.Some? ==> Spells(x, at.value)) && (at.None? ==> forall n: int :: !Spells(x, n))
  }

  ghost predicate WritesScalar(line: string, code: string, value: string, a: string, c: char, b: string) {
    Padded(line, a, [c] + code, b) && IsScalar(c) && |value| == 1 && LowersTo(c, value[0])
  }

  ghost predicate WritesVector(line: string, code: string, value: string, c: char, v: string) {
    Renders(line, [[c] + v, code]) && IsVector(c) && LowersAll(v, value)
  }

  ghost predicate WritesNothing(line: string, ts: seq<string>) {
    Renders(line, ts) && (ts == [] || !Speaks(ts[0][0]) || (IsVector(ts[0][0]) && |ts| != 2))
  }

  /** The line is a writing of the event. */
  ghost predicate Writes(line: string, e: Event) {
    match e
    case Time(at) => exists a, x, b :: WritesTime(line, at, a, x, b)
    case Change(code, value) =>
      || (exists a, c, b :: WritesScalar(line, code, value, a, c, b))
      || (exists c, v :: WritesVector(line, code, value, c, v))
    case Other => exists ts :: WritesNothing(line, ts)
  }

  lemma TimeRead(line: string, at: Option<int>, a: string, x: string, b: string)
    requires WritesTime(line, at, a, x, b)
    ensures EventOf(line) == Time(at)
  {
    TimeLine(line, a, "#" + x, b);
    assert ("#" + x)[1..] == x;
    var e := EventOf(line);
    assert e.at.Some? ==> Spells(x, e.at.value);
  }

  lemma ScalarRead(line: string, code: string, value: string, a: string, c: char, b: string)
    requires WritesScalar(line, code, value, a, c, b)
    ensures EventOf(line) == Change(code, value)
  {
    ScalarLine(line, a, [c] + code, b, value);
    assert ([c] + code)[1..] == code;
  }

  lemma VectorRead(line: string, code: string, value: string, c: char, v: string)
    requires WritesVector(line, code, value, c, v)
    ensures EventOf(line) == Change(code, value)
  {
    assert ([c] + v)[1..] == v;
    VectorLine(line, [[c] + v, code], value);
  }

  lemma NothingRead(line: string, ts: seq<string>)
    requires WritesNothing(line, ts)
    ensures EventOf(line) == Other
  {
    RenderedLine(line, ts);
    if ts != [] && IsVector(ts[0][0]) {
      BrokenVectorLine(line, ts);
    }
  }

  /** Any writing of an event is read back as that event. */
  lemma EventRoundTrip(line: string, e: Event)
    requires Writes(line, e)
    ensures EventOf(line) == e
  {
    match e
    case Time(at) =>
      var a, x, b :| WritesTime(line, at, a, x, b);
      TimeRead(line, at, a, x, b);
    case Change(code, value) =>
      if a, c, b :| WritesScalar(line, code, value, a, c, b) {
        ScalarRead(line, code, value, a, c, b);
      } else {
        var c, v :| WritesVector(line, code, value, c, v);
        VectorRead(line, code, value, c, v);
      }
    case Other =>
      var ts :| WritesNothing(line, ts);
      NothingRead(line, ts);
  }

  // The file.

  ghost predicate WritesAll(lines: seq<string>, es: seq<Event>) {
    |lines| == |es| && forall i :: 0 <= i < |lines| ==> Writes(lines[i], es[i])
  }

  predicate NoEnd(lines: seq<string>) {
    forall i :: 0 <= i < |lines| ==> !EndsHeader(lines[i])
  }

  lemma NotEnd(line: string, ts: seq<string>)
    requires Renders(line, ts) && (ts == [] || !("$enddefinitions" <= ts[0]))
    ensures !EndsHeader(line)
  {
    RenderedLine(line, ts);
    if ts != [] {
      Starts(line, ts);
    }
  }

  lemma {:induction false} HeaderHasNoEnd(t: Tree)
    requires WellFormed(t)
    ensures forall i :: 0 <= i < |Print(t)| ==> Print(t)[i] == [] || !("$enddefinitions" <= Print(t)[i][0])
  {
    match t
    case Done =>
    case Var(_, _, _, _, _, _, rest) => HeaderHasNoEnd(rest);
    case Scope(_, _, _, inside, _, rest) =>
      HeaderHasNoEnd(inside);
      HeaderHasNoEnd(rest);
    case Note(ts, rest) =>
      if ts != [] {
        Keywords(ts[0]);
      }
      HeaderHasNoEnd(rest);
  }

  lemma {:induction false} HeaderLinesNoEnd(t: Tree, lines: seq<string>)
    requires WellFormed(t) && RendersAll(lines, Print(t))
    ensures NoEnd(lines)
  {
    HeaderHasNoEnd(t);
    forall i | 0 <= i < |lines| ensures !EndsHeader(lines[i]) {
      NotEnd(lines[i], Print(t)[i]);
    }
  }

  lemma {:induction false} FirstIndexAt(lines: seq<string>, n: nat)
    requires n < |lines| && EndsHeader(lines[n]) && forall i :: 0 <= i < n ==> !EndsHeader(lines[i])
    ensures Seqs.FirstIndex(lines, EndsHeader) == n
  {}

  lemma EventsAfter(header: seq<string>, end: string, body: seq<string>)
    requires NoEnd(header) && EndsHeader(end)
    ensures Events(header + [end] + body) == Seqs.Map(body, EventOf)
  {
    var lines, n := header + [end] + body, |header|;
    assert lines[n] == end;
    assert forall i :: 0 <= i < n ==> lines[i] == header[i];
    FirstIndexAt(lines, n);
    assert lines[n + 1..] == body;
  }

  lemma TraceRoundTrip(body: seq<string>, es: seq<Event>)
    requires WritesAll(body, es)
    ensures Seqs.Map(body, EventOf) == es
  {
    forall i | 0 <= i < |es| ensures EventOf(body[i]) == es[i] {
      EventRoundTrip(body[i], es[i]);
    }
  }

  /** A file that writes a tree, ends its header and writes a trace. */
  ghost predicate WritesFile(
    header: seq<string>, end: string, ts: seq<string>, body: seq<string>, t: Tree, es: seq<Event>) {
    && RendersAll(header, Print(t)) && WritesAll(body, es)
    && Renders(end, ts) && ts != [] && "$enddefinitions" <= ts[0]
  }

  lemma {:induction false} FileEvents(
    header: seq<string>, end: string, ts: seq<string>, body: seq<string>, t: Tree, es: seq<Event>)
    requires WellFormed(t) && WritesFile(header, end, ts, body, t, es)
    ensures Events(header + [end] + body) == es
  {
    HeaderLinesNoEnd(t, header);
    EndLine(Initial, end, ts);
    EventsAfter(header, end, body);
    TraceRoundTrip(body, es);
  }

  /** The body changes no path, width or key, and leaves the scope stack alone. */
  ghost predicate SameDeclarations(p: Parsed, q: Parsed) {
    && q.scopes == p.scopes && q.order == p.order && q.signals.Keys == p.signals.Keys && !q.inHeader
    && forall k :: k in p.signals ==>
         q.signals[k].path == p.signals[k].path && q.signals[k].width == p.signals[k].width
  }

  lemma {:induction false} BodyRuns(p: Parsed, lines: seq<string>)
    requires !p.inHeader
    ensures Run(p, lines).Going? && SameDeclarations(p, Run(p, lines).state)
    decreases |lines|
  {
    if lines != [] {
      BodyRuns(p, lines[..|lines| - 1]);
    }
  }

  lemma {:induction false} FileRuns(
    header: seq<string>, end: string, ts: seq<string>, body: seq<string>, t: Tree, es: seq<Event>)
    requires WellFormed(t) && WritesFile(header, end, ts, body, t, es)
    ensures var p := DeclareAll(Initial, Declarations(t, [])).(inHeader := false);
            Run(Initial, header + [end] + body) == Run(p, body)
  {
    HeaderRoundTrip(t, Initial, header);
    EndLine(DeclareAll(Initial, Declarations(t, [])), end, ts);
    RunSnoc(Initial, header, end);
    RunAppend(Initial, header + [end], body);
  }

  /** Reading any file that writes a tree and a trace gives back its declarations and counts its trace: every code has
      the dotted path and width of its first declaration and the toggle count of the values the trace gives it; time
      steps and last time are those of the trace; and the scope stack is empty. */
  lemma {:induction false} FileRoundTrip(
    header: seq<string>, end: string, ts: seq<string>, body: seq<string>, t: Tree, es: seq<Event>, code: string)
    requires WellFormed(t) && WritesFile(header, end, ts, body, t, es)
    ensures var r, ds := Run(Initial, header + [end] + body), Declarations(t, []);
            && r.Going? && r.state.scopes == [] && r.state.timeSteps == Times(es) && r.state.lastTime == LastTime(es)
            && (code in r.state.signals <==> First(ds, code) < |ds|)
            && (code in r.state.signals ==>
                  var d := ds[First(ds, code)];
                  r.state.signals[code] == Record(d.path, d.width, Toggles.Counted(ValuesOf(es, code), d.width)))
  {
    var ds := Declarations(t, []);
    var p := DeclareAll(Initial, ds).(inHeader := false);
    FileRuns(header, end, ts, body, t, es);
    BodyRuns(p, body);
    FirstDeclaration(ds, code);
    FileMeans(header + [end] + body);
    FileEvents(header, end, ts, body, t, es);
    var q := Run(p, body).state;
    if code in q.signals {
      assert CountMeans(q.signals[code], es, code);
    }
  }
}
