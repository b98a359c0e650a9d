/** What the string operations of the VCD reader mean, character by character. */
module Strings {
  import opened Layout
  import opened Text
  import Seqs

  // Case.

  /** The lower-case form of an ASCII character. */
  predicate LowersTo(c: char, d: char) {
    if 65 <= c as int <= 90 then d as int == c as int + 32 else d == c
  }

  lemma LowerMeans(s: string, i: nat)
    requires i < |s|
    ensures LowersTo(s[i], Lower(s)[i])
  {}

  // Gluing, joining, removing.

  /** All the characters of the pieces, in order. */
  function Glue(ts: seq<string>): string {
    if ts == [] then "" else Glue(ts[..|ts| - 1]) + ts[|ts| - 1]
  }

  lemma {:induction false} GlueFirst(t: string, ts: seq<string>)
    ensures Glue([t] + ts) == t + Glue(ts)
    decreases |ts|
  {
    if ts == [] {
      assert [t][..0] == [];
    } else {
      assert ([t] + ts)[..|ts|] == [t] + ts[..|ts| - 1];
      GlueFirst(t, ts[..|ts| - 1]);
    }
  }

  lemma {:induction false} ConcatMeans(ts: seq<string>)
    ensures Concat(ts) == Glue(ts)
    decreases |ts|
  {
    if ts != [] {
      ConcatMeans(ts[1..]);
      GlueFirst(ts[0], ts[1..]);
      assert ts == [ts[0]] + ts[1..];
    }
  }

  /** scope.scope.name */
  function Dotted(scopes: seq<string>, name: string): string {
    if scopes == [] then name else scopes[0] + "." + Dotted(scopes[1..], name)
  }

  lemma {:induction false} JoinMeans(scopes: seq<string>, name: string)
    ensures Join(".", scopes + [name]) == Dotted(scopes, name)
    decreases |scopes|
  {
    if scopes != [] {
      assert (scopes + [name])[1..] == scopes[1..] + [name];
      JoinMeans(scopes[1..], name);
    }
  }

  lemma {:induction false} RemoveAppend(c: char, s: string, t: string)
    ensures Remove(c, s + t) == Remove(c, s) + Remove(c, t)
    decreases |s|
  {
    if s == "" {
      assert s + t == t;
    } else {
      assert (s + t)[1..] == s[1..] + t;
      RemoveAppend(c, s[1..], t);
    }
  }

  lemma {:induction false} RemoveMeans(c: char, s: string)
    ensures Remove(c, s) == Seqs.Filter(s, (x: char) => x != c)
    decreases |s|
  {
    if s != "" {
      var n := |s| - 1;
      RemoveMeans(c, s[..n]);
      RemoveAppend(c, s[..n], [s[n]]);
      assert s == s[..n] + [s[n]];
      assert Remove(c, [s[n]]) == if s[n] == c then "" else [s[n]];
    }
  }

  // Numbers.

  predicate DigitsOnly(s: string) {
    s != "" && forall i :: 0 <= i < |s| ==> 48 <= s[i] as int <= 57
  }

  function Digit(c: char): nat {
    if 48 <= c as int <= 57 then c as int - 48 else 0
  }

  /** The decimal number that digits write. */
  function Number(s: string): nat {
    if s == "" then 0 else 10 * Number(s[..|s| - 1]) + Digit(s[|s| - 1])
  }

  function Signed(sign: string, n: nat): int {
    if sign == ['-'] then 0 - (n as int) else n
  }

  predicate Groups(gs: seq<string>) {
    gs != [] && forall i :: 0 <= i < |gs| ==> DigitsOnly(gs[i])
  }

  /** Groups of digits with one underscore between them. */
  function Underscored(gs: seq<string>): string
    requires gs != []
  {
    if |gs| == 1 then gs[0] else Underscored(gs[..|gs| - 1]) + "_" + gs[|gs| - 1]
  }

  predicate IsSign(s: string) {
    s == [] || s == ['+'] || s == ['-']
  }

  /** The text writes the number: blanks, a sign, groups of digits, blanks. */
  ghost predicate Spells(raw: string, n: int) {
    exists a, sign, gs, b :: SpelledBy(raw, n, a, sign, gs, b)
  }

  ghost predicate SpelledBy(raw: string, n: int, a: string, sign: string, gs: seq<string>, b: string) {
    && Blank(a) && Blank(b) && IsSign(sign) && Groups(gs)
    && raw == a + (sign + Underscored(gs)) + b
    && n == Signed(sign, Number(Glue(gs)))
  }

  lemma {:induction false} ValueMore(u: string, x: string, g: string)
    requires (g == "" || DigitsOnly(g)) && DigitsValue(u) == Number(x)
    ensures DigitsValue(u + g) == Number(x + g)
    decreases |g|
  {
    if g == "" {
      assert u + g == u && x + g == x;
    } else {
      var n := |g| - 1;
      ValueMore(u, x, g[..n]);
      OneMoreDigit(u + g[..n], x + g[..n], g[n]);
      LastApart(u, g);
      LastApart(x, g);
    }
  }

  lemma LastApart(u: string, g: string)
    requires g != ""
    ensures u + g == u + g[..|g| - 1] + [g[|g| - 1]]
  {}

  lemma {:induction false} OneMoreDigit(u: string, x: string, c: char)
    requires DigitsValue(u) == Number(x) && 48 <= c as int <= 57
    ensures DigitsValue(u + [c]) == Number(x + [c])
  {
    assert (u + [c])[..|u|] == u && (x + [c])[..|x|] == x;
  }

  lemma {:induction false} GroupsValue(gs: seq<string>)
    requires Groups(gs)
    ensures DigitsValue(Underscored(gs)) == Number(Glue(gs))
  {
    var n := |gs| - 1;
    if n == 0 {
      assert Glue(gs[..0]) == "";
      ValueMore("", "", gs[0]);
      assert "" + gs[0] == gs[0];
    } else {
      var u := Underscored(gs[..n]);
      GroupsValue(gs[..n]);
      assert (u + "_")[..|u|] == u;
      ValueMore(u + "_", Glue(gs[..n]), gs[n]);
    }
  }

  lemma {:induction false} GroupsNumeral(gs: seq<string>)
    requires Groups(gs)
    ensures IsNumeral(Underscored(gs))
  {
    if |gs| > 1 {
      GroupsNumeral(gs[..|gs| - 1]);
      NumeralMore(Underscored(gs[..|gs| - 1]), gs[|gs| - 1]);
    }
  }

  lemma NumeralMore(u: string, g: string)
    requires IsNumeral(u) && DigitsOnly(g)
    ensures IsNumeral(u + "_" + g)
  {
    var s, n := u + "_" + g, |u|;
    forall i | 0 <= i < |s| ensures NumeralAt(s, i) {
      if i < n {
        assert NumeralAt(u, i);
      } else if i == n {
        assert s[i] == '_' && s[i - 1] == u[n - 1];
      } else {
        assert s[i] == g[i - n - 1];
      }
    }
  }

  /** A trimmed text with a sign and a numeral. */
  lemma {:induction false} ParseCore(raw: string, sign: string, u: string)
    requires Strip(raw) == sign + u && IsSign(sign) && IsNumeral(u)
    ensures ParseInt(raw) == Some(Signed(sign, DigitsValue(u)))
  {
    if sign == [] {
      assert sign + u == u;
    } else {
      assert (sign + u)[1..] == u && (sign + u)[0] == sign[0];
    }
  }

  lemma SignedTrimmed(sign: string, u: string)
    requires IsSign(sign) && IsNumeral(u)
    ensures Trimmed(sign + u)
  {}

  /** int() reads what spells a number. */
  lemma Reads(raw: string, n: int)
    requires Spells(raw, n)
    ensures ParseInt(raw) == Some(n)
  {
    var a, sign, gs, b :| SpelledBy(raw, n, a, sign, gs, b);
    var u := Underscored(gs);
    GroupsNumeral(gs);
    GroupsValue(gs);
    SignedTrimmed(sign, u);
    StripPadded(a, sign + u, b);
    ParseCore(raw, sign, u);
  }

  lemma {:induction false} SkipBackParts(s: string) returns (b: string)
    ensures Blank(b) && s == SkipBack(s) + b
    decreases |s|
  {
    if s != "" && IsSpace(s[|s| - 1]) {
      SpaceIsBlank(s[|s| - 1]);
      var b' := SkipBackParts(s[..|s| - 1]);
      b := b' + [s[|s| - 1]];
    } else {
      b := "";
    }
  }

  lemma StripParts(s: string) returns (a: string, b: string)
    ensures Blank(a) && Blank(b) && s == a + Strip(s) + b
  {
    a := SkipParts(s);
    b := SkipBackParts(Skip(s));
    assert s == a + (Strip(s) + b);
  }

  lemma {:induction false} NumeralGroups(s: string) returns (gs: seq<string>)
    requires IsNumeral(s)
    ensures Groups(gs) && Underscored(gs) == s
    decreases |s|
  {
    var n := |s| - 1;
    if n == 0 {
      gs := [s];
    } else if s[n - 1] == '_' {
      NumeralPrefix(s, n - 1);
      var f := NumeralGroups(s[..n - 1]);
      gs := f + [[s[n]]];
      assert gs[..|gs| - 1] == f;
      assert s == s[..n - 1] + "_" + [s[n]];
    } else {
      NumeralPrefix(s, n);
      var f := NumeralGroups(s[..n]);
      gs := LongerGroup(f, s[n]);
      assert s == s[..n] + [s[n]];
    }
  }

  lemma NumeralPrefix(s: string, n: nat)
    requires IsNumeral(s) && 0 < n < |s| && (s[n] == '_' || s[n - 1] != '_')
    ensures IsNumeral(s[..n])
  {
    assert NumeralAt(s, n) && NumeralAt(s, n - 1);
    forall i | 0 <= i < n ensures NumeralAt(s[..n], i) {
      assert NumeralAt(s, i);
    }
  }

  lemma LongerGroup(f: seq<string>, c: char) returns (gs: seq<string>)
    requires Groups(f) && 48 <= c as int <= 57
    ensures Groups(gs) && Underscored(gs) == Underscored(f) + [c]
  {
    var m := |f| - 1;
    gs := f[..m] + [f[m] + [c]];
    assert gs[..m] == f[..m];
  }

  /** The sign and the digits that int() reads. */
  lemma ParseParts(raw: string) returns (sign: string, digits: string)
    requires ParseInt(raw).Some?
    ensures Strip(raw) == sign + digits && IsSign(sign) && IsNumeral(digits)
    ensures ParseInt(raw) == Some(Signed(sign, DigitsValue(digits)))
  {
    var s := Strip(raw);
    if s[0] == '+' || s[0] == '-' {
      sign, digits := [s[0]], s[1..];
    } else {
      sign, digits := [], s;
    }
    assert s == sign + digits;
  }

  /** int() returns a number exactly when the text spells it, and raises ValueError exactly when it spells none. */
  lemma ParseIntExactly(raw: string, n: int)
    ensures ParseInt(raw) == Some(n) <==> Spells(raw, n)
  {
    if Spells(raw, n) {
      Reads(raw, n);
    }
    if ParseInt(raw) == Some(n) {
      var a, b := StripParts(raw);
      var sign, digits := ParseParts(raw);
      var gs := NumeralGroups(digits);
      GroupsValue(gs);
      assert SpelledBy(raw, n, a, sign, gs, b);
    }
  }
}
