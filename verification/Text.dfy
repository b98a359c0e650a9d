/** The Python string operations the VCD reader uses, on ASCII text. */
module Text {
  import opened Layout

  /** str.isspace() on ASCII. */
  predicate IsSpace(c: char) {
    var n := c as int;
    9 <= n <= 13 || 28 <= n <= 32
  }

  function Skip(s: string): (r: string)
    ensures |r| <= |s|
    ensures r != "" ==> !IsSpace(r[0])
  {
    if s != "" && IsSpace(s[0]) then Skip(s[1..]) else s
  }

  function SkipBack(s: string): (r: string)
    ensures |r| <= |s|
  {
    if s != "" && IsSpace(s[|s| - 1]) then SkipBack(s[..|s| - 1]) else s
  }

  /** str.strip() */
  function Strip(s: string): string {
    SkipBack(Skip(s))
  }

  /** The length of the first run of non-space characters. */
  function Word(s: string): (n: nat)
    ensures n <= |s|
    ensures s != "" && !IsSpace(s[0]) ==> n > 0
  {
    if s == "" || IsSpace(s[0]) then 0 else 1 + Word(s[1..])
  }

  /** str.split() */
  function Split(s: string): (r: seq<string>)
    ensures forall i :: 0 <= i < |r| ==> r[i] != ""
    decreases |s|
  {
    var t := Skip(s);
    if t == "" then [] else [t[..Word(t)]] + Split(t[Word(t)..])
  }

  function LowerChar(c: char): char {
    if 'A' <= c <= 'Z' then (c as int + 32) as char else c
  }

  /** str.lower() */
  function Lower(s: string): (r: string)
    ensures |r| == |s|
  {
    seq(|s|, i requires 0 <= i < |s| => LowerChar(s[i]))
  }

  function Concat(ts: seq<string>): string {
    if ts == [] then "" else ts[0] + Concat(ts[1..])
  }

  /** sep.join(ts) */
  function Join(sep: string, ts: seq<string>): string {
    if ts == [] then "" else if |ts| == 1 then ts[0] else ts[0] + sep + Join(sep, ts[1..])
  }

  function Remove(c: char, s: string): string {
    if s == "" then "" else (if s[0] == c then "" else [s[0]]) + Remove(c, s[1..])
  }

  datatype Option<T> = None | Some(value: T)

  predicate IsDigit(c: char) {
    48 <= c as int <= 57
  }

  function DigitOf(n: nat): (c: char)
    requires n < 10
    ensures IsDigit(c)
  {
    (48 + n) as char
  }

  function DigitsValue(s: string): nat {
    if s == "" then 0
    else if IsDigit(s[|s| - 1]) then 10 * DigitsValue(s[..|s| - 1]) + (s[|s| - 1] as int - 48)
    else DigitsValue(s[..|s| - 1])
  }

  /** Decimal digits with single underscores between them. */
  predicate IsNumeral(s: string) {
    && s != "" && IsDigit(s[0]) && IsDigit(s[|s| - 1])
    && forall i :: 0 <= i < |s| ==> NumeralAt(s, i)
  }

  /** A digit, or an underscore after one. */
  predicate NumeralAt(s: string, i: nat)
    requires i < |s|
  {
    IsDigit(s[i]) || (s[i] == '_' && i > 0 && IsDigit(s[i - 1]))
  }

  /** int(): optional surrounding spaces and sign; None is ValueError. */
  function ParseInt(raw: string): Option<int> {
    var s := Strip(raw);
    var digits := if s != "" && (s[0] == '+' || s[0] == '-') then s[1..] else s;
    if !IsNumeral(digits) then None
    else
      var n: int := DigitsValue(digits);
      Some(if s[0] == '-' then -n else n)
  }

  // Printing, for round trips.

  function Show(n: nat): (s: string)
    ensures s != "" && forall i :: 0 <= i < |s| ==> IsDigit(s[i])
  {
    (if n < 10 then "" else Show(n / 10)) + [DigitOf(n % 10)]
  }

  lemma SpaceIsBlank(c: char)
    ensures IsSpace(c) <==> BlankChar(c)
  {}

  lemma {:induction false} SkipBlank(a: string, s: string)
    requires Blank(a)
    ensures Skip(a + s) == Skip(s)
    decreases |a|
  {
    if a == "" {
      assert a + s == s;
    } else {
      SpaceIsBlank(a[0]);
      assert (a + s)[1..] == a[1..] + s;
      SkipBlank(a[1..], s);
    }
  }

  lemma {:induction false} SkipBackBlank(t: string, b: string)
    requires Blank(b) && (t == "" || !BlankChar(t[|t| - 1]))
    ensures SkipBack(t + b) == t
    decreases |b|
  {
    if b == "" {
      assert t + b == t;
    } else {
      var n := |b| - 1;
      SpaceIsBlank(b[n]);
      assert (t + b)[..|t + b| - 1] == t + b[..n];
      SkipBackBlank(t, b[..n]);
    }
  }

  /** str.strip() removes exactly the blanks around. */
  lemma StripPadded(a: string, t: string, b: string)
    requires Blank(a) && Blank(b) && Trimmed(t)
    ensures Strip(a + t + b) == t
  {
    if t == "" {
      SkipBlank(a + b, "");
      assert a + t + b == a + b + "";
    } else {
      SkipBlank(a, t + b);
      assert a + t + b == a + (t + b);
      SkipBackBlank(t, b);
    }
  }

  lemma {:induction false} WordOfToken(t: string, rest: string)
    requires forall i :: 0 <= i < |t| ==> !IsSpace(t[i])
    requires rest == "" || BlankChar(rest[0])
    ensures Word(t + rest) == |t|
    decreases |t|
  {
    if t == "" {
      assert t + rest == rest;
    } else {
      assert (t + rest)[1..] == t[1..] + rest;
      WordOfToken(t[1..], rest);
    }
  }

  lemma {:induction false} SplitOne(t: string, rest: string)
    requires IsToken(t) && (rest == "" || BlankChar(rest[0]))
    ensures Split(t + rest) == [t] + Split(rest)
  {
    WordOfToken(t, rest);
    assert (t + rest)[..|t|] == t && (t + rest)[|t|..] == rest;
    assert Skip(t + rest) == t + rest;
  }

  lemma {:induction false} SplitBlank(a: string, s: string)
    requires Blank(a)
    ensures Split(a + s) == Split(s)
  {
    SkipBlank(a, s);
  }

  /** str.split() finds the tokens of any layout. */
  lemma {:induction false} SplitLay(ts: seq<string>, gaps: seq<string>)
    requires Tokens(ts) && Spaced(ts, gaps)
    ensures Split(Lay(ts, gaps)) == ts
    decreases |ts|
  {
    if ts == [] {
      SplitBlank(gaps[0], "");
      assert gaps[0] + "" == gaps[0];
    } else {
      var rest := Lay(ts[1..], gaps[1..]);
      SpacedTail(ts, gaps);
      LayHead(ts[1..], gaps[1..]);
      SplitLay(ts[1..], gaps[1..]);
      SplitBlank(gaps[0], ts[0] + rest);
      assert Lay(ts, gaps) == gaps[0] + (ts[0] + rest);
      SplitOne(ts[0], rest);
      assert ts == [ts[0]] + ts[1..];
    }
  }

  /** What the reader sees of a line that consists of some tokens. */
  lemma RenderedLine(line: string, ts: seq<string>)
    requires Renders(line, ts)
    ensures ts == [] ==> Strip(line) == ""
    ensures ts != [] ==> var s := Strip(line);
      && s != "" && ts[0] <= s && Split(s) == ts
      && (|ts| == 1 ==> s == ts[0]) && (|s| > |ts[0]| ==> BlankChar(s[|ts[0]|]))
  {
    var gaps :| Spaced(ts, gaps) && line == Lay(ts, gaps);
    if ts == [] {
      StripPadded(gaps[0], "", "");
      assert gaps[0] + "" + "" == gaps[0];
    } else {
      CoreIs(ts, gaps);
      StripPadded(gaps[0], Core(ts, gaps), gaps[|ts|]);
      SplitLay(ts, gaps[0 := ""][|ts| := ""]);
    }
  }

  // Every line has tokens.

  lemma {:induction false} SkipParts(s: string) returns (a: string)
    ensures Blank(a) && s == a + Skip(s)
    decreases |s|
  {
    if s != "" && IsSpace(s[0]) {
      SpaceIsBlank(s[0]);
      var a' := SkipParts(s[1..]);
      a := [s[0]] + a';
    } else {
      a := "";
    }
  }

  lemma {:induction false} WordParts(s: string)
    ensures forall i :: 0 <= i < Word(s) ==> !BlankChar(s[i])
    ensures Word(s) < |s| ==> BlankChar(s[Word(s)])
  {
    if s != "" && !IsSpace(s[0]) {
      WordParts(s[1..]);
    }
  }

  lemma BlankRenders(line: string)
    requires Blank(line)
    ensures Renders(line, [])
  {
    assert Spaced([], [line]) && Lay([], [line]) == line;
  }

  lemma {:induction false} SplitFirst(line: string)
    requires Skip(line) != ""
    ensures var t := Skip(line); Split(line) == [t[..Word(t)]] + Split(t[Word(t)..])
  {}

  /** The first token of a line. */
  lemma LineParts(line: string) returns (a: string, w: string, rest: string)
    requires Skip(line) != ""
    ensures line == a + (w + rest) && Blank(a) && IsToken(w) && (rest == "" || BlankChar(rest[0]))
    ensures Split(line) == [w] + Split(rest)
  {
    var t := Skip(line);
    a := SkipParts(line);
    w, rest := t[..Word(t)], t[Word(t)..];
    WordParts(t);
    SplitFirst(line);
    assert t == w + rest;
  }

  /** str.split() of any line are its tokens. */
  lemma {:induction false} EveryLineRenders(line: string)
    ensures Renders(line, Split(line))
    decreases |line|
  {
    if Skip(line) == "" {
      var a := SkipParts(line);
      assert a + "" == a;
      BlankRenders(line);
    } else {
      var a, w, rest := LineParts(line);
      EveryLineRenders(rest);
      RendersMore(a, w, rest, Split(rest));
    }
  }

  lemma RendersMore(a: string, w: string, rest: string, ts: seq<string>)
    requires Blank(a) && IsToken(w) && Renders(rest, ts) && (rest == "" || BlankChar(rest[0]))
    ensures Renders(a + (w + rest), [w] + ts)
  {
    var gaps :| Spaced(ts, gaps) && rest == Lay(ts, gaps);
    if ts != [] && gaps[0] == "" {
      StartsWithToken(ts, gaps);
      assert false;
    }
    assert ([w] + ts)[1..] == ts && ([a] + gaps)[1..] == gaps;
    assert Spaced([w] + ts, [a] + gaps);
  }

  lemma {:induction false} StartsWithToken(ts: seq<string>, gaps: seq<string>)
    requires Tokens(ts) && ts != [] && Spaced(ts, gaps) && gaps[0] == ""
    ensures Lay(ts, gaps) != "" && !BlankChar(Lay(ts, gaps)[0])
  {}

  lemma {:induction false} ShowValue(n: nat)
    ensures DigitsValue(Show(n)) == n
  {
    var s := Show(n);
    if n >= 10 {
      ShowValue(n / 10);
      assert s[..|s| - 1] == Show(n / 10);
    } else {
      assert s[..|s| - 1] == "";
    }
  }

  lemma StripToken(t: string)
    requires IsToken(t)
    ensures Strip(t) == t
  {
    StripPadded("", t, "");
    assert "" + t + "" == t;
  }

  lemma DigitsAreToken(s: string)
    requires s != "" && forall i :: 0 <= i < |s| ==> IsDigit(s[i])
    ensures IsToken(s) && IsNumeral(s)
  {}

  lemma {:induction false} ParseDigits(s: string)
    requires s != "" && forall i :: 0 <= i < |s| ==> IsDigit(s[i])
    ensures ParseInt(s) == Some(DigitsValue(s)) && IsToken(s)
  {
    DigitsAreToken(s);
    StripToken(s);
    assert s[0] != '+' && s[0] != '-';
  }

  /** int(str(n)) == n */
  lemma {:induction false} ParseShow(n: nat)
    ensures ParseInt(Show(n)) == Some(n) && IsToken(Show(n))
  {
    ShowValue(n);
    ParseDigits(Show(n));
  }

  lemma {:induction false} RemoveSpaceFromToken(t: string)
    requires forall i :: 0 <= i < |t| ==> !IsSpace(t[i])
    ensures Remove(' ', t) == t
  {
    if t != "" {
      RemoveSpaceFromToken(t[1..]);
    }
  }

  lemma {:induction false} ConcatHasNoSpace(ts: seq<string>)
    requires Tokens(ts)
    ensures forall i :: 0 <= i < |Concat(ts)| ==> !IsSpace(Concat(ts)[i])
  {
    if ts != [] {
      ConcatHasNoSpace(ts[1..]);
    }
  }
}
