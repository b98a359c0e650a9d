/** write_outputs: normalised activities summed by region. */
module Activity {
  import opened Text
  import opened Strings
  import opened Seqs
  import Toggles
  import opened Vcd

  /** One entry of the term map. */
  datatype Category = Category(name: string, terms: seq<string>)

  predicate ContainsAt(text: string, term: string, i: nat) {
    i + |term| <= |text| && text[i..i + |term|] == term
  }

  /** term in text */
  predicate Contains(text: string, term: string) {
    exists i :: 0 <= i <= |text| && ContainsAt(text, term, i)
  }

  /** Some non-empty term occurs in the path, ignoring case. */
  predicate Matches(path: string, terms: seq<string>) {
    exists i :: 0 <= i < |terms| && terms[i] != "" && Contains(Lower(path), Lower(terms[i]))
  }

  /** classify: the first category in map order with a matching term. */
  function Classify(path: string, cats: seq<Category>): string {
    if cats == [] then "other"
    else if Matches(path, cats[0].terms) then cats[0].name
    else Classify(path, cats[1..])
  }

  function Bits(s: Record): (n: nat)
    ensures n >= 1
  {
    Toggles.Max(1, s.width)
  }

  function Denominator(timeSteps: nat): (n: nat)
    ensures n >= 1
  {
    Toggles.Max(1, timeSteps)
  }

  function ActivityOf(s: Record, timeSteps: nat): real {
    s.count.toggles as real / (Denominator(timeSteps) * Bits(s)) as real
  }

  /** The accumulators of one region. */
  datatype Region = Region(signals: nat, toggles: nat, activitySum: real)

  const Empty := Region(0, 0, 0.0)

  function Add(a: Region, b: Region): Region {
    Region(a.signals + b.signals, a.toggles + b.toggles, a.activitySum + b.activitySum)
  }

  function Single(s: Record, timeSteps: nat): Region {
    Region(1, s.count.toggles, ActivityOf(s, timeSteps))
  }

  function Total(ss: seq<Record>, timeSteps: nat): Region {
    if ss == [] then Empty else Add(Total(ss[..|ss| - 1], timeSteps), Single(ss[|ss| - 1], timeSteps))
  }

  function InRegion(cats: seq<Category>, region: string): Record -> bool {
    (s: Record) => Classify(s.path, cats) == region
  }

  /** What a region must accumulate: the total over the kept signals classified to it. */
  function RegionTotal(kept: seq<Record>, timeSteps: nat, cats: seq<Category>, region: string): Region {
    Total(Filter(kept, InRegion(cats, region)), timeSteps)
  }

  function Wanted(excludeClocks: bool, isClock: string -> bool): Record -> bool {
    (s: Record) => !(excludeClocks && isClock(s.path))
  }

  ghost predicate Distinct(cs: seq<string>) {
    forall i, j :: 0 <= i < j < |cs| ==> cs[i] != cs[j]
  }

  /** The keys of the region dictionary, in insertion order. */
  ghost predicate Listed(order: seq<string>, region: map<string, Region>) {
    Distinct(order) && forall c :: c in region <==> c in order
  }

  ghost predicate Summed(region: map<string, Region>, kept: seq<Record>, timeSteps: nat, cats: seq<Category>) {
    forall c :: c in region ==> region[c] == RegionTotal(kept, timeSteps, cats, c)
  }

  /** The keys are the categories of the map and the classes met, and nothing else. */
  ghost predicate Covered(region: map<string, Region>, kept: seq<Record>, cats: seq<Category>) {
    && (forall i :: 0 <= i < |cats| ==> cats[i].name in region)
    && (forall i :: 0 <= i < |kept| ==> Classify(kept[i].path, cats) in region)
    && (forall c :: c in region ==> IsCategory(c, cats) || IsClass(c, kept, cats))
  }

  /** The region dictionary after some signals. */
  ghost predicate Accumulated(order: seq<string>, region: map<string, Region>,
                              kept: seq<Record>, timeSteps: nat, cats: seq<Category>) {
    Listed(order, region) && Summed(region, kept, timeSteps, cats) && Covered(region, kept, cats)
  }

  ghost predicate IsCategory(c: string, cats: seq<Category>) {
    exists i :: 0 <= i < |cats| && cats[i].name == c
  }

  ghost predicate IsClass(c: string, kept: seq<Record>, cats: seq<Category>) {
    exists i :: 0 <= i < |kept| && Classify(kept[i].path, cats) == c
  }

  lemma {:induction false} RegionSnoc(kept: seq<Record>, s: Record, timeSteps: nat, cats: seq<Category>, c: string)
    ensures RegionTotal(kept + [s], timeSteps, cats, c) ==
            if Classify(s.path, cats) == c then Add(RegionTotal(kept, timeSteps, cats, c), Single(s, timeSteps))
            else RegionTotal(kept, timeSteps, cats, c)
  {
    var f := Filter(kept, InRegion(cats, c));
    FilterSnoc(kept, s, InRegion(cats, c));
    assert (f + [s])[..|f|] == f;
  }

  lemma {:induction false} RegionNone(kept: seq<Record>, timeSteps: nat, cats: seq<Category>, c: string)
    requires forall i :: 0 <= i < |kept| ==> Classify(kept[i].path, cats) != c
    ensures RegionTotal(kept, timeSteps, cats, c) == Empty
  {
    FilterNone(kept, InRegion(cats, c));
  }

  lemma InsertKey(order: seq<string>, c: string)
    requires Distinct(order) && c !in order
    ensures Distinct(order + [c]) && forall d :: d in order + [c] <==> d == c || d in order
  {}

  /** region[c] of the default dictionary creates the key. */
  function Touched(region: map<string, Region>, c: string): map<string, Region> {
    if c in region then region else region[c := Empty]
  }

  lemma TouchListed(order: seq<string>, region: map<string, Region>, c: string)
    requires Listed(order, region)
    ensures Listed(if c in region then order else order + [c], Touched(region, c))
  {
    if c !in region {
      InsertKey(order, c);
    }
  }

  lemma {:induction false} TouchSummed(
    region: map<string, Region>, kept: seq<Record>, timeSteps: nat, cats: seq<Category>, c: string)
    requires Summed(region, kept, timeSteps, cats)
    requires forall i :: 0 <= i < |kept| ==> Classify(kept[i].path, cats) in region
    ensures Summed(Touched(region, c), kept, timeSteps, cats)
  {
    if c !in region {
      RegionNone(kept, timeSteps, cats, c);
    }
  }

  ghost predicate Started(region: map<string, Region>, cats: seq<Category>, n: nat) {
    && n <= |cats|
    && (forall c :: c in region ==> region[c] == Empty && IsCategory(c, cats))
    && (forall j :: 0 <= j < n ==> cats[j].name in region)
  }

  lemma TouchStarted(region: map<string, Region>, cats: seq<Category>, n: nat)
    requires Started(region, cats, n) && n < |cats|
    ensures Started(Touched(region, cats[n].name), cats, n + 1)
  {
    assert IsCategory(cats[n].name, cats);
  }

  /** Every category of the map gets an empty region. */
  method Start(cats: seq<Category>) returns (order: seq<string>, region: map<string, Region>)
    ensures Listed(order, region) && Started(region, cats, |cats|)
  {
    order, region := [], map[];
    for i := 0 to |cats|
      invariant Listed(order, region) && Started(region, cats, i)
    {
      var c := cats[i].name;
      TouchListed(order, region, c);
      TouchStarted(region, cats, i);
      order := if c in region then order else order + [c];
      region := Touched(region, c);
    }
  }

  lemma StartedAccumulated(order: seq<string>, region: map<string, Region>, timeSteps: nat, cats: seq<Category>)
    requires Listed(order, region) && Started(region, cats, |cats|)
    ensures Accumulated(order, region, [], timeSteps, cats)
  {
    forall c ensures RegionTotal([], timeSteps, cats, c) == Empty {
      RegionNone([], timeSteps, cats, c);
    }
  }

  lemma FilterTake<T>(s: seq<T>, i: nat, p: T -> bool)
    requires i < |s|
    ensures Filter(s[..i + 1], p) == if p(s[i]) then Filter(s[..i], p) + [s[i]] else Filter(s[..i], p)
  {
    assert s[..i + 1] == s[..i] + [s[i]];
    FilterSnoc(s[..i], s[i], p);
  }

  /** The aggregation loop of write_outputs: the rows before sorting, and the region dictionary. */
  method Aggregate(
    signals: seq<Record>, timeSteps: nat, cats: seq<Category>, excludeClocks: bool, isClock: string -> bool)
    returns (rows: seq<Record>, order: seq<string>, region: map<string, Region>)
    ensures rows == Filter(signals, Wanted(excludeClocks, isClock))
    ensures Accumulated(order, region, rows, timeSteps, cats)
  {
    rows := [];
    order, region := Start(cats);
    StartedAccumulated(order, region, timeSteps, cats);
    for i := 0 to |signals|
      invariant rows == Filter(signals[..i], Wanted(excludeClocks, isClock))
      invariant Accumulated(order, region, rows, timeSteps, cats)
    {
      var s := signals[i];
      FilterTake(signals, i, Wanted(excludeClocks, isClock));
      if excludeClocks && isClock(s.path) {
        continue;
      }
      order, region := Count(order, region, s, rows, timeSteps, cats);
      rows := rows + [s];
    }
    assert signals[..|signals|] == signals;
  }

  /** The three updates of the signal's region. */
  method Count(order: seq<string>, region: map<string, Region>, s: Record, ghost kept: seq<Record>, timeSteps: nat,
               cats: seq<Category>)
    returns (order': seq<string>, region': map<string, Region>)
    requires Accumulated(order, region, kept, timeSteps, cats)
    ensures Accumulated(order', region', kept + [s], timeSteps, cats)
  {
    var c := Classify(s.path, cats);
    order' := if c in region then order else order + [c];
    var touched := Touched(region, c);
    region' := touched[c := Add(touched[c], Single(s, timeSteps))];
    CountKeeps(order, region, s, kept, timeSteps, cats);
  }

  lemma {:induction false} CountKeeps(
    order: seq<string>, region: map<string, Region>, s: Record, kept: seq<Record>, timeSteps: nat,
                   cats: seq<Category>)
    requires Accumulated(order, region, kept, timeSteps, cats)
    ensures var c := Classify(s.path, cats);
            var touched := Touched(region, c);
            Accumulated(if c in region then order else order + [c], touched[c := Add(touched[c], Single(s, timeSteps))],
                        kept + [s], timeSteps, cats)
  {
    var c := Classify(s.path, cats);
    var touched := Touched(region, c);
    var r := Add(touched[c], Single(s, timeSteps));
    TouchListed(order, region, c);
    ListedUpdate(if c in region then order else order + [c], touched, c, r);
    TouchSummed(region, kept, timeSteps, cats, c);
    SummedSnoc(touched, kept, s, timeSteps, cats);
    CoveredSnoc(region, kept, s, cats, r);
    TouchUpdate(region, c, r);
  }

  lemma ListedUpdate(order: seq<string>, region: map<string, Region>, c: string, r: Region)
    requires Listed(order, region) && c in region
    ensures Listed(order, region[c := r])
  {}

  lemma TouchUpdate(region: map<string, Region>, c: string, r: Region)
    ensures Touched(region, c)[c := r] == region[c := r]
  {}

  lemma {:induction false} SummedSnoc(
    region: map<string, Region>, kept: seq<Record>, s: Record, timeSteps: nat, cats: seq<Category>)
    requires Summed(region, kept, timeSteps, cats) && Classify(s.path, cats) in region
    ensures var c := Classify(s.path, cats);
            Summed(region[c := Add(region[c], Single(s, timeSteps))], kept + [s], timeSteps, cats)
  {
    forall d | d in region
      ensures RegionTotal(kept + [s], timeSteps, cats, d) ==
              if Classify(s.path, cats) == d then Add(region[d], Single(s, timeSteps)) else region[d]
    {
      RegionSnoc(kept, s, timeSteps, cats, d);
    }
  }

  lemma {:induction false} CoveredSnoc(
    region: map<string, Region>, kept: seq<Record>, s: Record, cats: seq<Category>, r: Region)
    requires Covered(region, kept, cats)
    ensures Covered(region[Classify(s.path, cats) := r], kept + [s], cats)
  {
    var c := Classify(s.path, cats);
    assert (kept + [s])[|kept|] == s;
    assert IsClass(c, kept + [s], cats);
    forall d | IsClass(d, kept, cats) ensures IsClass(d, kept + [s], cats) {
      var i :| 0 <= i < |kept| && Classify(kept[i].path, cats) == d;
      assert (kept + [s])[i] == kept[i];
    }
  }

  // Conservation.

  function SumRegions(cs: seq<string>, f: string -> Region): Region {
    if cs == [] then Empty else Add(SumRegions(cs[..|cs| - 1], f), f(cs[|cs| - 1]))
  }

  /** Adding to one key of a listing adds once to its sum. */
  lemma {:induction false} SumBump(cs: seq<string>, f: string -> Region, g: string -> Region, x: string, d: Region)
    requires Distinct(cs)
    requires forall c :: c in cs ==> g(c) == if c == x then Add(f(c), d) else f(c)
    ensures SumRegions(cs, g) == if x in cs then Add(SumRegions(cs, f), d) else SumRegions(cs, f)
    decreases |cs|
  {
    if cs != [] {
      var n := |cs| - 1;
      SumBump(cs[..n], f, g, x, d);
      assert cs[n] in cs;
      assert x in cs <==> x in cs[..n] || x == cs[n];
    }
  }

  lemma {:induction false} SumEmpty(cs: seq<string>, f: string -> Region)
    requires forall c :: c in cs ==> f(c) == Empty
    ensures SumRegions(cs, f) == Empty
    decreases |cs|
  {
    if cs != [] {
      SumEmpty(cs[..|cs| - 1], f);
      assert cs[|cs| - 1] in cs;
    }
  }

  function Totals(kept: seq<Record>, timeSteps: nat, cats: seq<Category>): string -> Region {
    (c: string) => RegionTotal(kept, timeSteps, cats, c)
  }

  lemma {:induction false} TotalsSnoc(kept: seq<Record>, s: Record, timeSteps: nat, cats: seq<Category>)
    ensures forall c :: Totals(kept + [s], timeSteps, cats)(c) ==
                        if c == Classify(s.path, cats) then Add(Totals(kept, timeSteps, cats)(c), Single(s, timeSteps))
                        else Totals(kept, timeSteps, cats)(c)
  {
    forall c ensures Totals(kept + [s], timeSteps, cats)(c) ==
                     if c == Classify(s.path, cats) then Add(Totals(kept, timeSteps, cats)(c), Single(s, timeSteps))
                     else Totals(kept, timeSteps, cats)(c)
    {
      RegionSnoc(kept, s, timeSteps, cats, c);
    }
  }

  lemma {:induction false} OneMoreKept(
    cs: seq<string>, kept: seq<Record>, s: Record, timeSteps: nat, cats: seq<Category>)
    requires Distinct(cs) && Classify(s.path, cats) in cs
    requires SumRegions(cs, Totals(kept, timeSteps, cats)) == Total(kept, timeSteps)
    ensures SumRegions(cs, Totals(kept + [s], timeSteps, cats)) == Total(kept + [s], timeSteps)
  {
    TotalsSnoc(kept, s, timeSteps, cats);
    SumBump(cs, Totals(kept, timeSteps, cats), Totals(kept + [s], timeSteps, cats), Classify(s.path, cats),
            Single(s, timeSteps));
    assert (kept + [s])[..|kept|] == kept;
  }

  /** Each kept signal is in exactly one region: the region counts, toggles and activities add up to those of all kept
      signals. */
  lemma {:induction false} Conservation(cs: seq<string>, kept: seq<Record>, timeSteps: nat, cats: seq<Category>)
    requires Distinct(cs)
    requires forall i :: 0 <= i < |kept| ==> Classify(kept[i].path, cats) in cs
    ensures SumRegions(cs, Totals(kept, timeSteps, cats)) == Total(kept, timeSteps)
    decreases |kept|
  {
    if kept == [] {
      SumEmpty(cs, Totals(kept, timeSteps, cats));
    } else {
      var n := |kept| - 1;
      Conservation(cs, kept[..n], timeSteps, cats);
      OneMoreKept(cs, kept[..n], kept[n], timeSteps, cats);
      assert kept == kept[..n] + [kept[n]];
    }
  }

  /** The activities of some signals, added up: toggles over max(1, time steps) times max(1, width). */
  function ActivitySum(ss: seq<Record>, timeSteps: nat): real {
    if ss == [] then 0.0
    else
      var s := ss[|ss| - 1];
      var steps: int := if timeSteps == 0 then 1 else timeSteps;
      var bits := if s.width < 1 then 1 else s.width;
      ActivitySum(ss[..|ss| - 1], timeSteps) + s.count.toggles as real / (steps * bits) as real
  }

  lemma {:induction false} TotalCounts(ss: seq<Record>, timeSteps: nat)
    ensures Total(ss, timeSteps).signals == |ss|
    ensures Total(ss, timeSteps).toggles == Sum(ss, (s: Record) => s.count.toggles)
    ensures Total(ss, timeSteps).activitySum == ActivitySum(ss, timeSteps)
  {
    if ss != [] {
      TotalCounts(ss[..|ss| - 1], timeSteps);
    }
  }

  function Entries(region: map<string, Region>): string -> Region {
    (c: string) => if c in region then region[c] else Empty
  }

  lemma {:induction false} SumEqual(cs: seq<string>, f: string -> Region, g: string -> Region)
    requires forall c :: c in cs ==> f(c) == g(c)
    ensures SumRegions(cs, f) == SumRegions(cs, g)
    decreases |cs|
  {
    if cs != [] {
      SumEqual(cs[..|cs| - 1], f, g);
      assert cs[|cs| - 1] in cs;
    }
  }

  /** The dictionary the loop leaves adds up to the totals over the kept signals. */
  lemma {:induction false} RegionsConserve(
    order: seq<string>, region: map<string, Region>, kept: seq<Record>, timeSteps: nat,
    cats: seq<Category>)
    requires Accumulated(order, region, kept, timeSteps, cats)
    ensures SumRegions(order, Entries(region)) == Total(kept, timeSteps)
    ensures Total(kept, timeSteps).signals == |kept|
    ensures Total(kept, timeSteps).toggles == Sum(kept, (s: Record) => s.count.toggles)
    ensures Total(kept, timeSteps).activitySum == ActivitySum(kept, timeSteps)
  {
    Conservation(order, kept, timeSteps, cats);
    TotalCounts(kept, timeSteps);
    SumEqual(order, Entries(region), Totals(kept, timeSteps, cats));
  }

  lemma {:induction false} FirstMatch(path: string, cats: seq<Category>, i: nat)
    requires i < |cats| && Matches(path, cats[i].terms)
    requires forall j :: 0 <= j < i ==> !Matches(path, cats[j].terms)
    ensures Classify(path, cats) == cats[i].name
    decreases i
  {
    if i > 0 {
      assert cats[1..][i - 1] == cats[i];
      assert forall j :: 0 <= j < i - 1 ==> cats[1..][j] == cats[j + 1];
      FirstMatch(path, cats[1..], i - 1);
    }
  }

  lemma {:induction false} NoMatch(path: string, cats: seq<Category>)
    requires forall j :: 0 <= j < |cats| ==> !Matches(path, cats[j].terms)
    ensures Classify(path, cats) == "other"
    decreases |cats|
  {
    if cats != [] {
      NoMatch(path, cats[1..]);
    }
  }

  // What a match is.

  /** Equal but for the case of ASCII letters. */
  predicate SameLetter(x: char, y: char) {
    || x == y
    || (65 <= x as int <= 90 && y as int == x as int + 32)
    || (65 <= y as int <= 90 && x as int == y as int + 32)
  }

  /** The term occurs in the path at position j, whatever the case. */
  predicate Occurs(path: string, term: string, j: nat) {
    j + |term| <= |path| && forall o :: 0 <= o < |term| ==> SameLetter(path[j + o], term[o])
  }

  lemma LowerSame(x: char, y: char, dx: char, dy: char)
    requires LowersTo(x, dx) && LowersTo(y, dy)
    ensures dx == dy <==> SameLetter(x, y)
  {}

  lemma OccursMeans(path: string, term: string, j: nat)
    ensures ContainsAt(Lower(path), Lower(term), j) <==> Occurs(path, term, j)
  {
    if j + |term| <= |path| {
      var p, t := Lower(path), Lower(term);
      forall o | 0 <= o < |term| ensures p[j..j + |t|][o] == t[o] <==> SameLetter(path[j + o], term[o]) {
        LowerMeans(path, j + o);
        LowerMeans(term, o);
        LowerSame(path[j + o], term[o], p[j + o], t[o]);
      }
      assert p[j..j + |t|] == t <==> forall o :: 0 <= o < |term| ==> p[j..j + |t|][o] == t[o];
    }
  }

  /** A path matches a category exactly when one of its non-empty terms occurs in it, whatever the case. */
  lemma MatchesMeans(path: string, terms: seq<string>)
    ensures Matches(path, terms) <==>
            exists i, j: nat :: 0 <= i < |terms| && terms[i] != "" && Occurs(path, terms[i], j)
  {
    forall i, j: nat | 0 <= i < |terms|
      ensures ContainsAt(Lower(path), Lower(terms[i]), j) <==> Occurs(path, terms[i], j)
    {
      OccursMeans(path, terms[i], j);
    }
    if i, j: nat :| 0 <= i < |terms| && terms[i] != "" && Occurs(path, terms[i], j) {
      assert ContainsAt(Lower(path), Lower(terms[i]), j);
      assert Contains(Lower(path), Lower(terms[i]));
    }
  }
}
