/** Lines of text as tokens with blanks between, before and after them. */
module Layout {

  /** The blanks of ASCII: tab to carriage return, the four separators, and the space. */
  predicate BlankChar(c: char) {
    9 <= c as int <= 13 || 28 <= c as int <= 32
  }

  predicate Blank(s: string) {
    forall i :: 0 <= i < |s| ==> BlankChar(s[i])
  }

  /** A non-empty run of other characters. */
  predicate IsToken(t: string) {
    t != "" && forall i :: 0 <= i < |t| ==> !BlankChar(t[i])
  }

  predicate Tokens(ts: seq<string>) {
    forall i :: 0 <= i < |ts| ==> IsToken(ts[i])
  }

  /** No blanks at either end. */
  predicate Trimmed(t: string) {
    t != "" ==> !BlankChar(t[0]) && !BlankChar(t[|t| - 1])
  }

  /** gaps[0] ts[0] gaps[1] ts[1] ... gaps[|ts|] */
  function Lay(ts: seq<string>, gaps: seq<string>): string
    requires |gaps| == |ts| + 1
    decreases |ts|
  {
    if ts == [] then gaps[0] else gaps[0] + ts[0] + Lay(ts[1..], gaps[1..])
  }

  /** Blanks everywhere, and at least one between two tokens. */
  predicate Spaced(ts: seq<string>, gaps: seq<string>) {
    && |gaps| == |ts| + 1
    && (forall i :: 0 <= i < |gaps| ==> Blank(gaps[i]))
    && forall i :: 0 < i < |ts| ==> gaps[i] != ""
  }

  /** The line consists of these tokens, however indented, spaced and ended. */
  ghost predicate Renders(line: string, ts: seq<string>) {
    Tokens(ts) && exists gaps :: Spaced(ts, gaps) && line == Lay(ts, gaps)
  }

  lemma SpacedTail(ts: seq<string>, gaps: seq<string>)
    requires Spaced(ts, gaps) && ts != []
    ensures Spaced(ts[1..], gaps[1..])
  {}

  /** After a token comes the end or a blank. */
  lemma {:induction false} LayHead(ts: seq<string>, gaps: seq<string>)
    requires Spaced(ts, gaps) && (ts != [] ==> gaps[0] != "")
    ensures Lay(ts, gaps) == "" || BlankChar(Lay(ts, gaps)[0])
  {}

  lemma LayFirst(ts: seq<string>, gaps: seq<string>)
    requires |gaps| == |ts| + 1
    ensures Lay(ts, gaps) == gaps[0] + Lay(ts, gaps[0 := ""])
  {
    if ts != [] {
      assert gaps[0 := ""][1..] == gaps[1..];
    }
  }

  lemma {:induction false} LayLast(ts: seq<string>, gaps: seq<string>)
    requires |gaps| == |ts| + 1
    ensures Lay(ts, gaps) == Lay(ts, gaps[|ts| := ""]) + gaps[|ts|]
    decreases |ts|
  {
    if ts != [] {
      LayLast(ts[1..], gaps[1..]);
      assert gaps[|ts| := ""][1..] == gaps[1..][|ts| - 1 := ""];
    }
  }

  lemma {:induction false} LayEnds(ts: seq<string>, gaps: seq<string>)
    requires Tokens(ts) && ts != [] && |gaps| == |ts| + 1 && gaps[|ts|] == ""
    ensures Lay(ts, gaps) != "" && !BlankChar(Lay(ts, gaps)[|Lay(ts, gaps)| - 1])
    decreases |ts|
  {
    if |ts| > 1 {
      LayEnds(ts[1..], gaps[1..]);
    }
  }

  /** What is left of a laid out line without its outer blanks. */
  function Core(ts: seq<string>, gaps: seq<string>): string
    requires Spaced(ts, gaps) && ts != []
  {
    Lay(ts, gaps[0 := ""][|ts| := ""])
  }

  lemma CoreIs(ts: seq<string>, gaps: seq<string>)
    requires Tokens(ts) && ts != [] && Spaced(ts, gaps)
    ensures Lay(ts, gaps) == gaps[0] + Core(ts, gaps) + gaps[|ts|]
    ensures Core(ts, gaps) != "" && Trimmed(Core(ts, gaps)) && ts[0] <= Core(ts, gaps)
    ensures |ts| == 1 ==> Core(ts, gaps) == ts[0]
    ensures |ts| > 1 ==> |Core(ts, gaps)| > |ts[0]| && BlankChar(Core(ts, gaps)[|ts[0]|])
    ensures Spaced(ts, gaps[0 := ""][|ts| := ""])
  {
    var inner := gaps[0 := ""][|ts| := ""];
    LayFirst(ts, gaps);
    LayLast(ts, gaps[0 := ""]);
    LayEnds(ts, inner);
    assert inner[1..][0] == inner[1];
    if |ts| > 1 {
      SpacedTail(ts, inner);
      LayHead(ts[1..], inner[1..]);
      LayEnds(ts[1..], inner[1..]);
    }
  }

  /** A keyword starts the line exactly when it starts its first token. */
  lemma KeywordStarts(k: string, t: string, line: string)
    requires IsToken(k) && t <= line && (|line| > |t| ==> BlankChar(line[|t|]))
    ensures k <= line <==> k <= t
  {
    assert |t| < |k| ==> !BlankChar(k[|t|]);
  }
}
