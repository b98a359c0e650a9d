/** iter_vcd as it runs: a dictionary of Signal objects updated in place, line by line. */
module VcdReader {
  import opened Text
  import Toggles
  import Vcd

  class Signal {
    const path: string
    const width: int
    var last: Toggles.Last
    var toggles: nat
    var changes: nat

    constructor (path: string, width: int)
      ensures Value() == Vcd.Record(path, width, Toggles.Count(Toggles.Unset, 0, 0))
    {
      this.path, this.width := path, width;
      last, toggles, changes := Toggles.Unset, 0, 0;
    }

    function Value(): Vcd.Record
      reads this
    {
      Vcd.Record(path, width, Toggles.Count(last, toggles, changes))
    }

    method Assign(value: string)
      modifies this
      ensures Value() == Vcd.Assign(old(Value()), value)
    {
      if last.Seen? {
        var delta := Toggles.Delta(last.value, value, width);
        if delta != 0 {
          toggles := toggles + delta;
          changes := changes + 1;
        }
      }
      last := Toggles.Seen(value);
    }
  }

  /** The dictionary holds one object per code, and the objects hold the records of the specification. */
  ghost predicate Holds(signals: map<string, Signal>, m: map<string, Vcd.Record>)
    reads signals.Values
  {
    && signals.Keys == m.Keys
    && (forall k :: k in signals ==> signals[k].Value() == m[k])
    && forall j, k :: j in signals && k in signals && j != k ==> signals[j] != signals[k]
  }

  /** Every object counts the toggles of the values its code takes. */
  ghost predicate Counts(signals: map<string, Signal>, es: seq<Vcd.Event>)
    reads signals.Values
  {
    forall k :: k in signals ==> Vcd.CountMeans(signals[k].Value(), es, k)
  }

  /** `signals.get(code)` and the update of the object found. */
  method AssignTo(signals: map<string, Signal>, code: string, value: string, ghost p: Vcd.Parsed)
    requires Holds(signals, p.signals)
    modifies signals.Values
    ensures Holds(signals, Vcd.BodyStep(p, Vcd.Change(code, value)).signals)
  {
    if code in signals {
      assert forall k :: k in signals && k != code ==> signals[k] != signals[code];
      signals[code].Assign(value);
    }
  }

  method SetDefault(signals: map<string, Signal>, code: string, path: string, width: int, ghost p: Vcd.Parsed)
    returns (r: map<string, Signal>)
    requires Holds(signals, p.signals)
    ensures Holds(r, Vcd.Declare(p, code, path, width).signals)
    ensures code in signals ==> r == signals
    ensures code !in signals ==> r == signals[code := r[code]] && fresh(r[code])
  {
    var s := new Signal(path, width);
    r := if code in signals then signals else signals[code := s];
    if code !in signals {
      assert forall k :: k in signals ==> signals[k].Value() == p.signals[k] && signals[k] != s;
    }
  }

  /** The $var branch; raised: int() refused the width. */
  method VarLine(signals: map<string, Signal>, order: seq<string>, scopes: seq<string>, parts: seq<string>,
                 ghost p: Vcd.Parsed)
    returns (raised: bool, r: map<string, Signal>, rOrder: seq<string>)
    requires Holds(signals, p.signals) && order == p.order && scopes == p.scopes
    ensures raised <==> Vcd.VarStep(p, parts).Raised?
    ensures !raised ==>
              var q := Vcd.VarStep(p, parts).state;
              Holds(r, q.signals) && rOrder == q.order && q == p.(order := q.order, signals := q.signals)
    ensures fresh(r.Values - signals.Values)
  {
    raised, r, rOrder := false, signals, order;
    if |parts| >= 6 {
      var width := ParseInt(parts[2]);
      if width.None? {
        raised := true;
        return;
      }
      var path := Join(".", scopes + [Vcd.CleanName(Concat(parts[4..|parts| - 1]))]);
      if parts[3] !in signals {
        rOrder := rOrder + [parts[3]];
      }
      r := SetDefault(signals, parts[3], path, width.value, p);
    }
  }

  /** A header line. */
  method HeaderLine(signals: map<string, Signal>, order: seq<string>, scopes: seq<string>, line: string,
                    ghost p: Vcd.Parsed)
    returns (raised: bool, r: map<string, Signal>, rOrder: seq<string>, rScopes: seq<string>, inHeader: bool)
    requires Holds(signals, p.signals) && order == p.order && scopes == p.scopes && p.inHeader
    ensures raised <==> Vcd.HeaderStep(p, line).Raised?
    ensures !raised ==>
              var q := Vcd.HeaderStep(p, line).state;
              Holds(r, q.signals) && q == Vcd.Parsed(inHeader, rScopes, rOrder, q.signals, p.timeSteps, p.lastTime)
    ensures fresh(r.Values - signals.Values)
  {
    raised, r, rOrder, rScopes, inHeader := false, signals, order, scopes, true;
    if "$scope" <= line {
      var parts := Split(line);
      if |parts| >= 3 {
        rScopes := rScopes + [Vcd.CleanName(parts[2])];
      }
    } else if "$upscope" <= line {
      if rScopes != [] {
        rScopes := rScopes[..|rScopes| - 1];
      }
    } else if "$var" <= line {
      raised, r, rOrder := VarLine(signals, order, scopes, Split(line), p);
    } else if "$enddefinitions" <= line {
      inHeader := false;
    }
  }

  /** A line after the header. */
  method BodyLine(signals: map<string, Signal>, e: Vcd.Event, timeSteps: nat, lastTime: int, ghost p: Vcd.Parsed)
    returns (steps: nat, last: int)
    requires Holds(signals, p.signals) && timeSteps == p.timeSteps && lastTime == p.lastTime
    modifies signals.Values
    ensures var q := Vcd.BodyStep(p, e);
            Holds(signals, q.signals) && q == p.(timeSteps := steps, lastTime := last, signals := q.signals)
  {
    steps, last := timeSteps, lastTime;
    match e
    case Time(at) =>
      steps := timeSteps + 1;
      if at.Some? {
        last := at.value;
      }
    case Change(code, value) => AssignTo(signals, code, value, p);
    case Other =>
  }

  /** One turn of the loop. */
  method Turn(raw: string, signals: map<string, Signal>, order: seq<string>, scopes: seq<string>, inHeader: bool,
              timeSteps: nat, lastTime: int, ghost p: Vcd.Parsed)
    returns (raised: bool, r: map<string, Signal>, rOrder: seq<string>, rScopes: seq<string>, rHeader: bool,
             steps: nat, last: int)
    requires Holds(signals, p.signals) && p == Vcd.Parsed(inHeader, scopes, order, p.signals, timeSteps, lastTime)
    modifies signals.Values
    ensures raised <==> Vcd.Step(p, raw).Raised?
    ensures !raised ==>
              var q := Vcd.Step(p, raw).state;
              Holds(r, q.signals) && q == Vcd.Parsed(rHeader, rScopes, rOrder, q.signals, steps, last)
    ensures fresh(r.Values - signals.Values)
  {
    raised, r, rOrder, rScopes, rHeader, steps, last := false, signals, order, scopes, inHeader, timeSteps, lastTime;
    var line := Strip(raw);
    if line == "" {
      return;
    }
    if inHeader {
      raised, r, rOrder, rScopes, rHeader := HeaderLine(signals, order, scopes, line, p);
      return;
    }
    steps, last := BodyLine(signals, Vcd.EventOf(raw), timeSteps, lastTime, p);
  }

  lemma {:induction false} Meaning(lines: seq<string>, signals: map<string, Signal>)
    requires Vcd.Run(Vcd.Initial, lines).Going?
    requires Holds(signals, Vcd.Run(Vcd.Initial, lines).state.signals)
    ensures Vcd.Means(Vcd.Run(Vcd.Initial, lines).state, Vcd.Events(lines)) && Counts(signals, Vcd.Events(lines))
  {
    Vcd.FileMeans(lines);
  }

  /** The local variables of the loop after i lines, with the state of the specification. */
  ghost predicate Reading(
    lines: seq<string>, i: nat, signals: map<string, Signal>, order: seq<string>, scopes: seq<string>,
    inHeader: bool, timeSteps: nat, lastTime: int, p: Vcd.Parsed)
    reads signals.Values
  {
    && i <= |lines| && Vcd.Upto(lines, i) == Vcd.Going(p)
    && p == Vcd.Parsed(inHeader, scopes, order, p.signals, timeSteps, lastTime)
    && Holds(signals, p.signals)
  }

  /** The loop over the lines of the file. */
  method ReadLines(lines: seq<string>)
    returns (raised: bool, signals: map<string, Signal>, order: seq<string>, timeSteps: nat, lastTime: int)
    ensures raised <==> Vcd.Run(Vcd.Initial, lines).Raised?
    ensures !raised ==>
              var q := Vcd.Run(Vcd.Initial, lines).state;
              Holds(signals, q.signals) && order == q.order && timeSteps == q.timeSteps && lastTime == q.lastTime
    ensures fresh(signals.Values)
  {
    raised, signals, order, timeSteps, lastTime := false, map[], [], 0, 0;
    var scopes: seq<string>, inHeader := [], true;
    ghost var p := Vcd.Initial;
    var i := 0;
    Vcd.UptoNone(lines);
    while i < |lines|
      invariant Reading(lines, i, signals, order, scopes, inHeader, timeSteps, lastTime, p)
      invariant !raised && fresh(signals.Values)
    {
      Vcd.RunTake(lines, i);
      raised, signals, order, scopes, inHeader, timeSteps, lastTime :=
        Turn(lines[i], signals, order, scopes, inHeader, timeSteps, lastTime, p);
      i := i + 1;
      if raised {
        Vcd.RaisedStays(lines, i);
        return;
      }
      p := Vcd.Upto(lines, i).state;
    }
    Vcd.UptoAll(lines);
  }

  method IterVcd(lines: seq<string>)
    returns (raised: bool, signals: map<string, Signal>, order: seq<string>, timeSteps: nat, lastTime: int)
    ensures raised <==> Vcd.Run(Vcd.Initial, lines).Raised?
    ensures !raised ==>
              var q := Vcd.Run(Vcd.Initial, lines).state;
              Holds(signals, q.signals) && order == q.order && timeSteps == q.timeSteps && lastTime == q.lastTime
    ensures raised <==> Vcd.BadHeader(lines)
    ensures !raised ==> Counts(signals, Vcd.Events(lines))
    ensures !raised ==>
              timeSteps == Vcd.Times(Vcd.Events(lines)) && lastTime == Vcd.LastTime(Vcd.Events(lines))
    ensures fresh(signals.Values)
  {
    raised, signals, order, timeSteps, lastTime := ReadLines(lines);
    Vcd.RaisedExactly(lines);
    if !raised {
      Meaning(lines, signals);
    }
  }
}
