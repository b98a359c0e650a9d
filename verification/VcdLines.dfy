/** What the reader makes of one line, whatever its layout. */
module VcdLines {
  import opened Layout
  import opened Text
  import opened Strings
  import opened Vcd

  // Header lines.

  /** The four keywords of the reader start a line exactly when they start its first token. */
  lemma Starts(line: string, ts: seq<string>)
    requires Renders(line, ts) && ts != []
    ensures "$scope" <= Strip(line) <==> "$scope" <= ts[0]
    ensures "$upscope" <= Strip(line) <==> "$upscope" <= ts[0]
    ensures "$var" <= Strip(line) <==> "$var" <= ts[0]
    ensures "$enddefinitions" <= Strip(line) <==> "$enddefinitions" <= ts[0]
  {
    StartsWith("$scope", line, ts);
    StartsWith("$upscope", line, ts);
    StartsWith("$var", line, ts);
    StartsWith("$enddefinitions", line, ts);
  }

  lemma StartsWith(k: string, line: string, ts: seq<string>)
    requires Renders(line, ts) && ts != [] && IsToken(k)
    ensures k <= Strip(line) <==> k <= ts[0]
  {
    RenderedLine(line, ts);
    KeywordStarts(k, ts[0], Strip(line));
  }

  /** A scope line pushes its third token, if it has one. */
  lemma ScopeLine(p: Parsed, line: string, ts: seq<string>)
    requires p.inHeader && Renders(line, ts) && ts != [] && "$scope" <= ts[0]
    ensures Step(p, line) == Going(if |ts| >= 3 then p.(scopes := p.scopes + [ts[2]]) else p)
  {
    Starts(line, ts);
    RenderedLine(line, ts);
    if |ts| >= 3 {
      TokenClean(ts[2]);
    }
  }

  lemma TokenClean(t: string)
    requires IsToken(t)
    ensures CleanName(t) == t
  {
    RemoveSpaceFromToken(t);
  }

  /** An upscope line pops one scope, if there is one. */
  lemma UpscopeLine(p: Parsed, line: string, ts: seq<string>)
    requires p.inHeader && Renders(line, ts) && ts != [] && "$upscope" <= ts[0]
    ensures Step(p, line) == Going(if p.scopes == [] then p else p.(scopes := p.scopes[..|p.scopes| - 1]))
  {
    Starts(line, ts);
    RenderedLine(line, ts);
    Keywords(ts[0]);
  }

  /** The name of a declaration: its tokens from the fifth to the last but one, glued. */
  lemma NameOf(p: Parsed, ts: seq<string>)
    requires Tokens(ts) && |ts| >= 6
    ensures Join(".", p.scopes + [CleanName(Concat(ts[4..|ts| - 1]))]) == Dotted(p.scopes, Glue(ts[4..|ts| - 1]))
  {
    var name := ts[4..|ts| - 1];
    ConcatHasNoSpace(name);
    RemoveSpaceFromToken(Concat(name));
    ConcatMeans(name);
    JoinMeans(p.scopes, Glue(name));
  }

  /** A var line of six tokens or more declares its fourth with the width its third spells, or raises ValueError if
      that spells no number; a shorter one does nothing. */
  lemma VarLine(p: Parsed, line: string, ts: seq<string>)
    requires p.inHeader && Renders(line, ts) && ts != [] && "$var" <= ts[0]
    ensures |ts| < 6 ==> Step(p, line) == Going(p)
    ensures |ts| >= 6 ==> forall width: int :: Spells(ts[2], width) ==>
      Step(p, line) == Going(Declare(p, ts[3], Dotted(p.scopes, Glue(ts[4..|ts| - 1])), width))
    ensures |ts| >= 6 && (forall width: int :: !Spells(ts[2], width)) ==> Step(p, line) == Raised
  {
    Starts(line, ts);
    RenderedLine(line, ts);
    Keywords(ts[0]);
    if |ts| >= 6 {
      NameOf(p, ts);
      forall width: int ensures Spells(ts[2], width) <==> ParseInt(ts[2]) == Some(width) {
        ParseIntExactly(ts[2], width);
      }
      assert ParseInt(ts[2]).Some? ==> Spells(ts[2], ParseInt(ts[2]).value);
    }
  }

  /** The lines on which reading raises. */
  lemma BadVarLine(line: string, ts: seq<string>)
    requires Renders(line, ts)
    ensures BadVar(line) <==>
            ts != [] && "$var" <= ts[0] && |ts| >= 6 && forall width: int :: !Spells(ts[2], width)
  {
    RenderedLine(line, ts);
    if ts != [] {
      Starts(line, ts);
      if |ts| >= 6 {
        forall width: int ensures Spells(ts[2], width) <==> ParseInt(ts[2]) == Some(width) {
          ParseIntExactly(ts[2], width);
        }
        assert ParseInt(ts[2]).Some? ==> Spells(ts[2], ParseInt(ts[2]).value);
      }
    }
  }

  /** The header ends at $enddefinitions. */
  lemma EndLine(p: Parsed, line: string, ts: seq<string>)
    requires p.inHeader && Renders(line, ts) && ts != [] && "$enddefinitions" <= ts[0]
    ensures Step(p, line) == Going(p.(inHeader := false)) && EndsHeader(line)
  {
    Starts(line, ts);
    RenderedLine(line, ts);
    Keywords(ts[0]);
  }

  predicate NoKeyword(t: string) {
    !("$scope" <= t) && !("$upscope" <= t) && !("$var" <= t) && !("$enddefinitions" <= t)
  }

  /** Any other header line does nothing. */
  lemma OtherHeaderLine(p: Parsed, line: string, ts: seq<string>)
    requires p.inHeader && Renders(line, ts) && (ts == [] || NoKeyword(ts[0]))
    ensures Step(p, line) == Going(p)
  {
    RenderedLine(line, ts);
    if ts != [] {
      Starts(line, ts);
    }
  }

  // Body lines.

  /** The line is this text between blanks. */
  predicate Padded(line: string, a: string, t: string, b: string) {
    Blank(a) && Blank(b) && Trimmed(t) && line == a + t + b
  }

  /** A time line counts, and its time is the number its rest spells, if any. */
  lemma TimeLine(line: string, a: string, t: string, b: string)
    requires Padded(line, a, t, b) && t != "" && t[0] == '#'
    ensures EventOf(line).Time? && forall n: int :: EventOf(line).at == Some(n) <==> Spells(t[1..], n)
  {
    StripPadded(a, t, b);
    forall n: int ensures ParseInt(t[1..]) == Some(n) <==> Spells(t[1..], n) {
      ParseIntExactly(t[1..], n);
    }
  }

  predicate IsScalar(c: char) {
    c == '0' || c == '1' || c == 'x' || c == 'z' || c == 'X' || c == 'Z'
  }

  predicate IsVector(c: char) {
    c == 'b' || c == 'B' || c == 'r' || c == 'R'
  }

  predicate LowersAll(s: string, v: string) {
    |s| == |v| && forall i :: 0 <= i < |s| ==> LowersTo(s[i], v[i])
  }

  lemma LowerIs(s: string, v: string)
    requires LowersAll(s, v)
    ensures Lower(s) == v
  {
    forall i | 0 <= i < |s| ensures Lower(s)[i] == v[i] {
      LowerMeans(s, i);
    }
  }

  /** A scalar line gives the rest of the line its first character, in lower case. */
  lemma ScalarLine(line: string, a: string, t: string, b: string, value: string)
    requires Padded(line, a, t, b) && t != "" && IsScalar(t[0]) && |value| == 1 && LowersTo(t[0], value[0])
    ensures EventOf(line) == Change(t[1..], value)
  {
    StripPadded(a, t, b);
    LowerIs(t[..1], value);
  }

  /** A vector or real line of two tokens gives the second the rest of the first, in lower case. */
  lemma VectorLine(line: string, ts: seq<string>, value: string)
    requires Renders(line, ts) && |ts| == 2 && IsVector(ts[0][0]) && LowersAll(ts[0][1..], value)
    ensures EventOf(line) == Change(ts[1], value)
  {
    RenderedLine(line, ts);
    LowerIs(ts[0][1..], value);
  }

  /** With any other number of tokens it says nothing. */
  lemma BrokenVectorLine(line: string, ts: seq<string>)
    requires Renders(line, ts) && ts != [] && |ts| != 2 && IsVector(ts[0][0])
    ensures EventOf(line) == Other
  {
    RenderedLine(line, ts);
  }

  predicate Speaks(c: char) {
    c == '#' || IsScalar(c) || IsVector(c)
  }

  /** Every other line, $dumpvars and $end among them, says nothing. */
  lemma OtherLine(line: string, a: string, t: string, b: string)
    requires Padded(line, a, t, b) && (t == "" || !Speaks(t[0]))
    ensures EventOf(line) == Other
  {
    StripPadded(a, t, b);
  }
}
