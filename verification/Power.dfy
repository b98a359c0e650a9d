/** The bound that runs from the trace through the activities to the exported power. */
module Power {
  import opened Seqs
  import Toggles
  import opened Vcd
  import opened Activity
  import opened ActivityBound
  import VcdReader

  /** avg_normalized_activity */
  function Average(r: Region): real {
    r.activitySum / Toggles.Max(1, r.signals) as real
  }

  /** A region's average times the number of its signals, or 1 if it has none, is the sum of its activities. */
  lemma AverageMeans(r: Region)
    ensures Average(r) * (if r.signals == 0 then 1.0 else r.signals as real) == r.activitySum
  {}

  lemma {:induction false} TotalInUnit(ss: seq<Record>, timeSteps: nat)
    requires forall s :: s in ss ==> InUnit(ActivityOf(s, timeSteps))
    ensures var r := Total(ss, timeSteps); 0.0 <= r.activitySum <= r.signals as real
  {
    if ss != [] {
      var n := |ss| - 1;
      TotalInUnit(ss[..n], timeSteps);
      assert ss[n] in ss;
    }
  }

  lemma Quotient(x: real, n: nat)
    requires 0.0 <= x <= n as real
    ensures InUnit(x / Toggles.Max(1, n) as real)
  {
    var d := Toggles.Max(1, n) as real;
    var q := x / d;
    assert q * d == x;
    Cancel(q, d);
  }

  lemma Cancel(q: real, d: real)
    requires d > 0.0 && 0.0 <= q * d <= d
    ensures InUnit(q)
  {
    if q < 0.0 {
      NegativeProduct(q, d);
    } else if q > 1.0 {
      NegativeProduct(1.0 - q, d);
    }
  }

  lemma NegativeProduct(x: real, d: real)
    requires x < 0.0 && d > 0.0
    ensures x * d < 0.0
  {}

  lemma AverageInUnit(kept: seq<Record>, timeSteps: nat, cats: seq<Category>, c: string)
    requires forall s :: s in kept ==> InUnit(ActivityOf(s, timeSteps))
    ensures InUnit(Average(RegionTotal(kept, timeSteps, cats, c)))
  {
    var ss := Filter(kept, InRegion(cats, c));
    forall s | s in ss ensures InUnit(ActivityOf(s, timeSteps)) {
      FilterIn(kept, InRegion(cats, c), s);
    }
    TotalInUnit(ss, timeSteps);
    Quotient(Total(ss, timeSteps).activitySum, Total(ss, timeSteps).signals);
  }

  /** The values of the signal dictionary, in insertion order. */
  function Records(p: Parsed): (r: seq<Record>)
    requires forall i :: 0 <= i < |p.order| ==> p.order[i] in p.signals
    ensures |r| == |p.order|
    ensures forall i :: 0 <= i < |r| ==> r[i] == p.signals[p.order[i]]
  {
    seq(|p.order|, i requires 0 <= i < |p.order| => p.signals[p.order[i]])
  }

  /** The rows of the region file. */
  datatype Row = Row(region: string, average: real)

  method RegionRows(order: seq<string>, region: map<string, Region>) returns (rows: seq<Row>)
    requires forall i :: 0 <= i < |order| ==> order[i] in region
    ensures |rows| == |order|
    ensures forall i :: 0 <= i < |rows| ==> rows[i] == Row(order[i], Average(region[order[i]]))
  {
    rows := [];
    for i := 0 to |order|
      invariant |rows| == i
      invariant forall j :: 0 <= j < i ==> rows[j] == Row(order[j], Average(region[order[j]]))
    {
      rows := rows + [Row(order[i], Average(region[order[i]]))];
    }
  }

  function PowerOf(base: real, scale: real, activity: real): real {
    base + scale * activity
  }

  /** The power loop of the HotSpot export; None: there are no rows. */
  method Powers(rows: seq<Row>, base: real, scale: real) returns (ok: bool, powers: seq<real>)
    ensures ok <==> rows != []
    ensures |powers| == |rows|
    ensures forall i :: 0 <= i < |rows| ==> powers[i] == PowerOf(base, scale, rows[i].average)
  {
    ok, powers := rows != [], [];
    for i := 0 to |rows|
      invariant |powers| == i
      invariant forall j :: 0 <= j < i ==> powers[j] == PowerOf(base, scale, rows[j].average)
    {
      powers := powers + [base + scale * rows[i].average];
    }
  }

  lemma Scaled(base: real, scale: real, activity: real)
    requires InUnit(activity) && scale >= 0.0
    ensures base <= PowerOf(base, scale, activity) <= base + scale
  {}

  /** Every kept signal has few value lines, and values that fit. */
  ghost predicate FewFile(lines: seq<string>, p: Parsed, wanted: Record -> bool) {
    forall code :: code in p.signals && wanted(p.signals[code]) ==>
                     Few(Events(lines), code) && Fits(Events(lines), code, p.signals[code].width)
  }

  /** In such a file every kept activity is in [0, 1]. */
  lemma {:induction false} FewFileActivities(lines: seq<string>, wanted: Record -> bool)
    requires Run(Initial, lines).Going? && FewFile(lines, Run(Initial, lines).state, wanted)
    ensures var p := Run(Initial, lines).state;
            && Kept(p)
            && forall s :: s in Filter(Records(p), wanted) ==> InUnit(ActivityOf(s, p.timeSteps))
  {
    FileMeans(lines);
    var p := Run(Initial, lines).state;
    forall s | s in Filter(Records(p), wanted) ensures InUnit(ActivityOf(s, p.timeSteps)) {
      FilterIn(Records(p), wanted, s);
      var i :| 0 <= i < |p.order| && s == p.signals[p.order[i]];
      FewActivity(s, Events(lines), p.order[i]);
    }
  }

  /** And so is every region average. */
  lemma {:induction false} FewFileAverages(lines: seq<string>, cats: seq<Category>, wanted: Record -> bool, c: string)
    requires Run(Initial, lines).Going? && FewFile(lines, Run(Initial, lines).state, wanted)
    ensures var p := Run(Initial, lines).state;
            Kept(p) && InUnit(Average(RegionTotal(Filter(Records(p), wanted), p.timeSteps, cats, c)))
  {
    FewFileActivities(lines, wanted);
    var p := Run(Initial, lines).state;
    AverageInUnit(Filter(Records(p), wanted), p.timeSteps, cats, c);
  }

  /** The values of the objects, in insertion order. */
  method Values(signals: map<string, VcdReader.Signal>, order: seq<string>, ghost p: Parsed) returns (r: seq<Record>)
    requires Kept(p) && order == p.order && VcdReader.Holds(signals, p.signals)
    ensures r == Records(p)
  {
    r := [];
    for i := 0 to |order|
      invariant r == Records(p)[..i]
    {
      r := r + [signals[order[i]].Value()];
    }
  }

  /** From VCD lines to powers: with few value lines per kept signal, all powers lie between base and base + scale. */
  method SmokePower(lines: seq<string>, cats: seq<Category>, excludeClocks: bool, isClock: string -> bool,
                    base: real, scale: real)
    returns (raised: bool, ok: bool, regions: seq<string>, powers: seq<real>)
    ensures raised <==> BadHeader(lines)
    ensures !raised ==> (ok <==> regions != [])
    ensures !raised ==> Run(Initial, lines).Going? && |powers| == |regions|
    ensures !raised ==>
              var p := Run(Initial, lines).state;
              && Kept(p)
              && var kept := Filter(Records(p), Wanted(excludeClocks, isClock));
                 forall i :: 0 <= i < |powers| ==>
                   powers[i] == PowerOf(base, scale, Average(RegionTotal(kept, p.timeSteps, cats, regions[i])))
    ensures !raised ==> forall i :: 0 <= i < |cats| ==> cats[i].name in regions
    ensures !raised && scale >= 0.0 && FewFile(lines, Run(Initial, lines).state, Wanted(excludeClocks, isClock)) ==>
              forall i :: 0 <= i < |powers| ==> base <= powers[i] <= base + scale
  {
    var signals, keys, timeSteps, lastTime;
    raised, signals, keys, timeSteps, lastTime := VcdReader.IterVcd(lines);
    ok, regions, powers := false, [], [];
    if raised {
      return;
    }
    FileMeans(lines);
    ghost var p := Run(Initial, lines).state;
    var records := Values(signals, keys, p);
    var kept, order, region := Aggregate(records, timeSteps, cats, excludeClocks, isClock);
    regions := order;
    var rows := RegionRows(order, region);
    ok, powers := Powers(rows, base, scale);
    forall i | 0 <= i < |powers|
      ensures powers[i] == PowerOf(base, scale, Average(RegionTotal(kept, timeSteps, cats, regions[i])))
    {
      assert order[i] in region;
    }
    if scale >= 0.0 && FewFile(lines, p, Wanted(excludeClocks, isClock)) {
      forall i | 0 <= i < |powers| ensures base <= powers[i] <= base + scale {
        FewFileAverages(lines, cats, Wanted(excludeClocks, isClock), order[i]);
        assert order[i] in region;
        Scaled(base, scale, rows[i].average);
      }
    }
  }
}
