/** Splitting migration text into SQL statements at semicolons outside quoted strings. */
module SqlSplitter {
  import opened Lexical

  const QUOTE: char := '\''
  const SEMICOLON: char := ';'

  /** White space in the sense of `unicode.IsSpace`. */
  predicate IsSpace(c: char) {
    c in "\t\n\U{000B}\U{000C}\r \U{0085}\U{00A0}\U{1680}\U{2028}\U{2029}\U{202F}\U{205F}\U{3000}"
    || '\U{2000}' <= c <= '\U{200A}'
  }

  function TrimLeft(s: string): string {
    if s != "" && IsSpace(s[0]) then TrimLeft(s[1..]) else s
  }

  function TrimRight(s: string): string {
    if s != "" && IsSpace(s[|s| - 1]) then TrimRight(s[..|s| - 1]) else s
  }

  function TrimSpace(s: string): string {
    TrimRight(TrimLeft(s))
  }

  /** A finished statement; blank ones are dropped. */
  function Flush(current: string): seq<string> {
    if TrimSpace(current) == "" then [] else [TrimSpace(current)]
  }

  /** The scanner: inside a string a doubled quote is consumed in one step. */
  function Scan(rest: string, inString: bool, current: string): seq<string>
    decreases |rest|
  {
    if rest == "" then Flush(current)
    else
      var ch := rest[0];
      if inString then
        if ch == QUOTE then
          if |rest| > 1 && rest[1] == QUOTE then Scan(rest[2..], true, current + [ch, rest[1]])
          else Scan(rest[1..], false, current + [ch])
        else Scan(rest[1..], true, current + [ch])
      else if ch == QUOTE then Scan(rest[1..], true, current + [ch])
      else if ch == SEMICOLON then Flush(current) + Scan(rest[1..], false, "")
      else Scan(rest[1..], false, current + [ch])
  }

  function Split(content: string): seq<string> {
    Scan(content, false, "")
  }

  method SplitSQLStatements(content: string) returns (statements: seq<string>)
    ensures statements == Split(content)
  {
    hide IsSpace, TrimSpace, Flush;
    statements := [];
    var current := "";
    var inString := false;
    var i := 0;
    while i < |content|
      invariant 0 <= i <= |content|
      invariant statements + Scan(content[i..], inString, current) == Split(content)
    {
      var ch := content[i];
      ghost var rest := content[i..];
      assert rest[0] == ch && rest[1..] == content[i + 1..];
      if inString {
        ghost var former := current;
        current := current + [ch];
        if ch == QUOTE {
          if i + 1 < |content| && content[i + 1] == QUOTE {
            assert rest[1] == QUOTE && rest[2..] == content[i + 2..];
            i := i + 1;
            current := current + [content[i]];
            assert current == former + [ch, rest[1]];
          } else {
            inString := false;
          }
        }
      } else if ch == QUOTE {
        inString := true;
        current := current + [ch];
      } else if ch == SEMICOLON {
        FlushIs(current);
        ghost var former := statements;
        var stmt := TrimSpace(current);
        if stmt != "" {
          statements := statements + [stmt];
        }
        assert statements == former + Flush(current);
        var later := Scan(rest[1..], false, "");
        assert former + (Flush(current) + later) == statements + later;
        current := "";
      } else {
        current := current + [ch];
      }
      i := i + 1;
    }
    FlushIs(current);
    assert content[i..] == "";
    var stmt := TrimSpace(current);
    if stmt != "" {
      statements := statements + [stmt];
    }
  }

  lemma FlushIs(current: string)
    ensures Flush(current) == if TrimSpace(current) == "" then [] else [TrimSpace(current)]
  {}

  // ----- the reference: quotes toggle -----

  /** Whether a quoted string is open at the end of `s`: an odd number of quotes. */
  function Open(s: string): bool {
    s != "" && (Open(s[..|s| - 1]) != (s[|s| - 1] == QUOTE))
  }

  /** Cut at every semicolon that an even number of quotes precedes; no look-ahead. */
  function Toggle(rest: string, open: bool, current: string): seq<string>
    decreases |rest|
  {
    if rest == "" then Flush(current)
    else if rest[0] == SEMICOLON && !open then Flush(current) + Toggle(rest[1..], false, "")
    else Toggle(rest[1..], open != (rest[0] == QUOTE), current + [rest[0]])
  }

  /** The look-ahead for doubled quotes does not change where the text is cut. */
  lemma {:induction false} ScanIsToggle(rest: string, inString: bool, current: string)
    ensures Scan(rest, inString, current) == Toggle(rest, inString, current)
    decreases |rest|
  {
    hide Flush;
    if rest != "" {
      if inString && rest[0] == QUOTE && |rest| > 1 && rest[1] == QUOTE {
        ScanIsToggle(rest[2..], true, current + [rest[0], rest[1]]);
        assert rest[1..][1..] == rest[2..];
        assert (current + [rest[0]]) + [rest[1]] == current + [rest[0], rest[1]];
        assert Toggle(rest, true, current) == Toggle(rest[1..], false, current + [rest[0]]);
        assert Toggle(rest[1..], false, current + [rest[0]]) == Toggle(rest[2..], true, current + [rest[0], rest[1]]);
      } else if rest[0] == SEMICOLON && !inString {
        ScanIsToggle(rest[1..], false, "");
      } else {
        ScanIsToggle(rest[1..], inString != (rest[0] == QUOTE), current + [rest[0]]);
      }
    }
  }

  // ----- well-formed statements -----

  /** Every semicolon is inside a quoted string. */
  predicate NoCut(s: string) {
    forall i :: 0 <= i < |s| && s[i] == SEMICOLON ==> Open(s[..i])
  }

  predicate Clean(s: string) {
    s != "" && TrimSpace(s) == s && NoCut(s)
  }

  /** Clean statements, all but the last with balanced quotes. */
  predicate Statements(ss: seq<string>) {
    && (forall i :: 0 <= i < |ss| ==> Clean(ss[i]))
    && (forall i :: 0 <= i < |ss| - 1 ==> !Open(ss[i]))
  }

  function Join(ss: seq<string>): string {
    if ss == [] then "" else if |ss| == 1 then ss[0] else ss[0] + ";" + Join(ss[1..])
  }

  lemma {:induction false} OpenAppend(a: string, b: string)
    ensures Open(a + b) == (Open(a) != Open(b))
  {
    if b == "" {
      assert a + b == a;
    } else {
      var n := |b| - 1;
      OpenAppend(a, b[..n]);
      assert (a + b)[..|a + b| - 1] == a + b[..n];
    }
  }

  lemma {:induction false} ToggleThrough(s: string, rest: string, open: bool, current: string)
    requires forall i :: 0 <= i < |s| && s[i] == SEMICOLON ==> open != Open(s[..i])
    ensures Toggle(s + rest, open, current) == Toggle(rest, open != Open(s), current + s)
    decreases |s|
  {
    hide Flush;
    if s == "" {
      assert s + rest == rest && current + s == current;
    } else {
      var t, open' := s[1..], open != (s[0] == QUOTE);
      assert (s + rest)[1..] == t + rest;
      assert s[..0] == "";
      OpenAppend([s[0]], t);
      assert [s[0]] + t == s;
      assert Open([s[0]]) == (s[0] == QUOTE) by { assert [s[0]][..0] == ""; }
      forall i | 0 <= i < |t| && t[i] == SEMICOLON ensures open' != Open(t[..i]) {
        OpenAppend([s[0]], t[..i]);
        assert [s[0]] + t[..i] == s[..i + 1];
        assert s[i + 1] == SEMICOLON;
      }
      ToggleThrough(t, rest, open', current + [s[0]]);
      assert (current + [s[0]]) + t == current + s;
    }
  }

  /** Splitting undoes joining. */
  lemma {:induction false} SplitUndoesJoin(ss: seq<string>)
    requires Statements(ss)
    ensures Split(Join(ss)) == ss
  {
    hide TrimSpace;
    ScanIsToggle(Join(ss), false, "");
    if ss != [] {
      var s := ss[0];
      assert Clean(s);
      assert "" + s == s;
      if |ss| == 1 {
        ToggleThrough(s, "", false, "");
        assert s + "" == s;
        assert ss == [s];
      } else {
        var rest := Join(ss[1..]);
        ToggleThrough(s, ";" + rest, false, "");
        assert s + (";" + rest) == Join(ss);
        assert (";" + rest)[1..] == rest;
        forall i | 0 <= i < |ss[1..]| - 1 ensures !Open(ss[1..][i]) { assert !Open(ss[i + 1]); }
        SplitUndoesJoin(ss[1..]);
        ScanIsToggle(rest, false, "");
        assert ss == [s] + ss[1..];
      }
    } else {
      assert TrimSpace("") == "" by { TrimEmpty(); }
    }
  }

  lemma TrimEmpty()
    ensures TrimSpace("") == ""
  {}

  // ----- trimming keeps statements well formed -----

  lemma SpaceAround(p: string, c: char)
    requires IsSpace(c) && !Open(p) && forall x :: x in p ==> IsSpace(x)
    ensures !Open([c] + p) && !Open(p + [c]) && forall x :: x in [c] + p || x in p + [c] ==> IsSpace(x)
  {
    OpenAppend([c], p);
    OpenAppend(p, [c]);
    assert [c][..0] == "";
  }

  lemma {:induction false} TrimLeftCuts(s: string) returns (p: string)
    ensures s == p + TrimLeft(s) && !Open(p) && (forall c :: c in p ==> IsSpace(c))
    ensures TrimLeft(s) != "" ==> !IsSpace(TrimLeft(s)[0])
  {
    p := "";
    if s != "" && IsSpace(s[0]) {
      var q := TrimLeftCuts(s[1..]);
      assert s == [s[0]] + s[1..];
      p := [s[0]] + q;
      ConcatAssociative([s[0]], q, TrimLeft(s));
      SpaceAround(q, s[0]);
    }
  }

  lemma {:induction false} TrimRightCuts(s: string) returns (p: string)
    ensures s == TrimRight(s) + p && !Open(p) && (forall c :: c in p ==> IsSpace(c))
    ensures TrimRight(s) != "" ==> !IsSpace(TrimRight(s)[|TrimRight(s)| - 1])
  {
    p := "";
    if s != "" && IsSpace(s[|s| - 1]) {
      var last := s[|s| - 1];
      var q := TrimRightCuts(s[..|s| - 1]);
      assert s == s[..|s| - 1] + [last];
      p := q + [last];
      ConcatAssociative(TrimRight(s), q, [last]);
      SpaceAround(q, last);
    }
  }

  lemma NoCutMiddle(a: string, s: string, b: string)
    requires NoCut(a + s + b) && !Open(a)
    ensures NoCut(s)
  {
    forall i | 0 <= i < |s| && s[i] == SEMICOLON ensures Open(s[..i]) {
      var t := a + s + b;
      assert t[|a| + i] == SEMICOLON;
      assert t[..|a| + i] == a + s[..i];
      OpenAppend(a, s[..i]);
    }
  }

  /** Trimming a piece without cuts gives a clean statement, or nothing, with the same quotes. */
  lemma TrimmedClean(current: string)
    requires NoCut(current)
    ensures TrimSpace(current) != "" ==> Clean(TrimSpace(current))
    ensures Open(TrimSpace(current)) == Open(current)
  {
    var a := TrimLeftCuts(current);
    var s := TrimLeft(current);
    var b := TrimRightCuts(s);
    var t := TrimRight(s);
    assert current == a + t + b;
    NoCutMiddle(a, t, b);
    OpenAppend(a, t + b);
    OpenAppend(t, b);
    assert a + (t + b) == current;
    if t != "" {
      assert t[0] == s[0];
      assert TrimLeft(t) == t;
    }
  }

  lemma {:induction false} ToggleMakesStatements(rest: string, open: bool, current: string)
    requires NoCut(current) && Open(current) == open
    ensures Statements(Toggle(rest, open, current))
    decreases |rest|
  {
    hide TrimSpace, NoCut, Clean;
    if rest == "" {
      TrimmedClean(current);
    } else if rest[0] == SEMICOLON && !open {
      TrimmedClean(current);
      assert NoCut("") by { NoCutEmpty(); }
      ToggleMakesStatements(rest[1..], false, "");
    } else {
      NoCutAppend(current, rest[0]);
      OpenAppend(current, [rest[0]]);
      assert [rest[0]][..0] == "";
      ToggleMakesStatements(rest[1..], open != (rest[0] == QUOTE), current + [rest[0]]);
    }
  }

  lemma NoCutEmpty()
    ensures NoCut("")
  {}

  lemma NoCutAppend(current: string, c: char)
    requires NoCut(current) && (c == SEMICOLON ==> Open(current))
    ensures NoCut(current + [c])
  {
    var t := current + [c];
    forall i | 0 <= i < |t| && t[i] == SEMICOLON ensures Open(t[..i]) {
      assert t[..i] == current[..i];
      if i == |current| { assert current[..i] == current; }
    }
  }

  /** Whatever the text, the outputs are clean statements and only the last may leave a string open. */
  lemma SplitMakesStatements(content: string)
    ensures Statements(Split(content))
  {
    NoCutEmpty();
    ScanIsToggle(content, false, "");
    ToggleMakesStatements(content, false, "");
  }

  /** Splitting is idempotent through joining, and every output splits into itself alone. */
  lemma SplitStable(content: string)
    ensures Split(Join(Split(content))) == Split(content)
    ensures forall t :: t in Split(content) ==> Split(t) == [t]
  {
    hide Split, Statements;
    SplitMakesStatements(content);
    SplitUndoesJoin(Split(content));
    forall t | t in Split(content) ensures Split(t) == [t] {
      SingleStatement(Split(content), t);
      SplitUndoesJoin([t]);
      assert Join([t]) == t;
    }
  }

  lemma SingleStatement(ss: seq<string>, t: string)
    requires Statements(ss) && t in ss
    ensures Statements([t])
  {}

  // ----- nothing is lost -----

  /** The characters that are not white space. */
  function Ink(s: string): string {
    if s == "" then "" else (if IsSpace(s[0]) then "" else [s[0]]) + Ink(s[1..])
  }

  function Flat(ss: seq<string>): string {
    if ss == [] then "" else ss[0] + Flat(ss[1..])
  }

  /** The text without the semicolons at which it is cut. */
  function WithoutCuts(s: string, open: bool): string {
    if s == "" then ""
    else if s[0] == SEMICOLON && !open then WithoutCuts(s[1..], false)
    else [s[0]] + WithoutCuts(s[1..], open != (s[0] == QUOTE))
  }

  lemma {:induction false} InkAppend(a: string, b: string)
    ensures Ink(a + b) == Ink(a) + Ink(b)
  {
    hide IsSpace;
    if a == "" { assert a + b == b; } else {
      assert (a + b)[1..] == a[1..] + b;
      InkAppend(a[1..], b);
      ConcatAssociative(if IsSpace(a[0]) then "" else [a[0]], Ink(a[1..]), Ink(b));
    }
  }

  lemma {:induction false} InkOfSpaces(p: string)
    requires forall c :: c in p ==> IsSpace(c)
    ensures Ink(p) == ""
  {
    if p != "" { InkOfSpaces(p[1..]); }
  }

  lemma TrimKeepsInk(s: string)
    ensures Ink(TrimSpace(s)) == Ink(s)
  {
    var a := TrimLeftCuts(s);
    var b := TrimRightCuts(TrimLeft(s));
    InkAppend(a, TrimLeft(s));
    InkAppend(TrimSpace(s), b);
    InkOfSpaces(a);
    InkOfSpaces(b);
  }

  lemma {:induction false} FlatAppend(a: seq<string>, b: seq<string>)
    ensures Flat(a + b) == Flat(a) + Flat(b)
  {
    if a == [] { assert a + b == b; } else {
      assert (a + b)[1..] == a[1..] + b;
      FlatAppend(a[1..], b);
      ConcatAssociative(a[0], Flat(a[1..]), Flat(b));
    }
  }

  lemma FlatOne(t: string)
    ensures Flat([t]) == t
  {
    assert [t][1..] == [];
    assert t + "" == t;
  }

  lemma FlushInk(current: string)
    ensures Ink(Flat(Flush(current))) == Ink(current)
  {
    TrimKeepsInk(current);
    var t := TrimSpace(current);
    if t != "" {
      FlatOne(t);
    }
  }

  lemma InkAtCut(current: string, later: seq<string>, text: string)
    requires Ink(Flat(later)) == Ink("") + Ink(text)
    ensures Ink(Flat(Flush(current) + later)) == Ink(current) + Ink(text)
  {
    hide IsSpace, TrimSpace, Flush;
    FlushInk(current);
    FlatAppend(Flush(current), later);
    InkAppend(Flat(Flush(current)), Flat(later));
    assert Ink("") + Ink(text) == Ink(text);
  }

  lemma InkMoved(current: string, c: char, text: string)
    ensures Ink(current + [c]) + Ink(text) == Ink(current) + Ink([c] + text)
  {
    hide IsSpace;
    InkAppend(current, [c]);
    InkAppend([c], text);
  }

  lemma {:induction false} ToggleKeepsInk(rest: string, open: bool, current: string)
    ensures Ink(Flat(Toggle(rest, open, current))) == Ink(current) + Ink(WithoutCuts(rest, open))
    decreases |rest|
  {
    hide Ink, Flat, Flush;
    if rest == "" {
      FlushInk(current);
      assert Ink(current) + "" == Ink(current);
      assert Ink("") == "" by { InkOfSpaces(""); }
    } else if rest[0] == SEMICOLON && !open {
      ToggleKeepsInk(rest[1..], false, "");
      InkAtCut(current, Toggle(rest[1..], false, ""), WithoutCuts(rest[1..], false));
    } else {
      ToggleKeepsInk(rest[1..], open != (rest[0] == QUOTE), current + [rest[0]]);
      InkMoved(current, rest[0], WithoutCuts(rest[1..], open != (rest[0] == QUOTE)));
    }
  }

  /** Apart from white space and the cuts themselves, the statements hold the whole text in order. */
  lemma SplitKeepsText(content: string)
    ensures Ink(Flat(Split(content))) == Ink(WithoutCuts(content, false))
  {
    ScanIsToggle(content, false, "");
    ToggleKeepsInk(content, false, "");
  }

  // ----- in plain characters -----

  /** The code points of white space. */
  lemma SpaceCodes(c: char)
    ensures IsSpace(c) <==>
            9 <= c as int <= 13 || c as int in {0x20, 0x85, 0xA0, 0x1680, 0x2028, 0x2029, 0x202F, 0x205F, 0x3000} || 0x2000 <= c as int <= 0x200A
  {}

  /** Trimming takes white space off both ends and nothing else. */
  lemma TrimExact(s: string) returns (a: string, b: string)
    ensures s == a + TrimSpace(s) + b && forall c :: c in a || c in b ==> IsSpace(c)
    ensures TrimSpace(s) != "" ==> !IsSpace(TrimSpace(s)[0]) && !IsSpace(TrimSpace(s)[|TrimSpace(s)| - 1])
  {
    var l, t := TrimLeft(s), TrimRight(TrimLeft(s));
    assert TrimSpace(s) == t;
    hide IsSpace, TrimLeft, TrimRight, TrimSpace, Open;
    a := TrimLeftCuts(s);
    b := TrimRightCuts(l);
    ConcatAssociative(a, t, b);
    if t != "" { assert l[0] == t[0]; }
  }

  /** A string is open after an odd number of single quotes. */
  lemma {:induction false} OpenIsOdd(s: string)
    ensures Open(s) <==> multiset(s)['\''] % 2 == 1
  {
    if s != "" {
      var n := |s| - 1;
      OpenIsOdd(s[..n]);
      assert s == s[..n] + [s[n]];
    }
  }

  lemma {:induction false} ToggleCut(a: string, b: string, open: bool, current: string)
    requires open == Open(a)
    ensures Toggle(a + ";" + b, open, current) == Toggle(a, open, current) + Toggle(b, false, "")
    decreases |a|
  {
    hide Flush;
    if a == "" {
      assert a + ";" + b == [SEMICOLON] + b;
    } else {
      var t, all := a[1..], a + ";" + b;
      assert all[1..] == t + ";" + b && all[0] == a[0];
      OpenAppend([a[0]], t);
      assert [a[0]] + t == a && [a[0]][..0] == "";
      if a[0] == SEMICOLON && !open {
        ToggleCut(t, b, false, "");
        ConcatSeqs(Flush(current), Toggle(t, false, ""), Toggle(b, false, ""));
      } else {
        ToggleCut(t, b, open != (a[0] == QUOTE), current + [a[0]]);
      }
    }
  }

  lemma ConcatSeqs(a: seq<string>, b: seq<string>, c: seq<string>)
    ensures a + (b + c) == (a + b) + c
  {}

  /** A semicolon that an even number of single quotes precedes separates, whatever stands on its sides. */
  lemma SplitAtSemicolon(a: string, b: string)
    requires multiset(a)['\''] % 2 == 0
    ensures Split(a + ";" + b) == Split(a) + Split(b)
  {
    OpenIsOdd(a);
    ScanIsToggle(a + ";" + b, false, "");
    ScanIsToggle(a, false, "");
    ScanIsToggle(b, false, "");
    ToggleCut(a, b, false, "");
  }

  /** Text in which an odd number of single quotes precedes every semicolon is one statement, or blank. */
  lemma SplitNowhere(s: string)
    requires forall i :: 0 <= i < |s| && s[i] == ';' ==> multiset(s[..i])['\''] % 2 == 1
    ensures Split(s) == if TrimSpace(s) == "" then [] else [TrimSpace(s)]
  {
    hide TrimSpace;
    forall i | 0 <= i < |s| && s[i] == SEMICOLON ensures false != Open(s[..i]) { OpenIsOdd(s[..i]); }
    ScanIsToggle(s, false, "");
    ToggleThrough(s, "", false, "");
    assert s + "" == s && "" + s == s;
  }
}
