/**
What both splitters promise. The key fact is that no token other than a single character contains a
semicolon or whitespace, so lexing can be cut and resumed at such a character (`Compose`).
*/
module SqlTheorems {
  import opened Text
  import opened SqlSplitter

  /** A character that no delimiter of more than one character contains. */
  predicate Barrier(c: char) {
    c == ';' || JsSpace(c)
  }

  predicate BarrierFirst(s: string) {
    s == [] || Barrier(s[0])
  }

  lemma {:induction false} TagRunLocal(a: string, b: string)
    requires BarrierFirst(b)
    ensures TagRun(a + b) == TagRun(a)
  {
    if a != [] && TagBody(a[0]) {
      assert (a + b)[1..] == a[1..] + b;
      TagRunLocal(a[1..], b);
    } else if a == [] {
      assert a + b == b;
      assert b != [] ==> !TagBody(b[0]);
    }
  }

  lemma TagLengthLocal(a: string, b: string)
    requires a != [] && BarrierFirst(b)
    ensures TagLength(a + b) == TagLength(a)
  {
    if |a| >= 2 {
      assert (a + b)[2..] == a[2..] + b;
      TagRunLocal(a[2..], b);
    }
  }

  lemma PrefixLocal(p: string, a: string, b: string)
    requires a != [] && BarrierFirst(b) && forall i :: 0 <= i < |p| ==> !Barrier(p[i])
    ensures p <= a + b <==> p <= a
  {
    if |p| > |a| && b != [] {
      assert (a + b)[|a|] == b[0] != p[|a|];
    }
  }

  /** Lookahead never crosses a barrier: the next token does not depend on what follows one. */
  lemma LexLocal(d: Dialect, m: Mode, a: string, b: string)
    requires m.Valid() && a != [] && BarrierFirst(b)
    ensures Lex(d, m, a + b) == Lex(d, m, a)
  {
    PrefixLocal("--", a, b);
    PrefixLocal("/*", a, b);
    PrefixLocal("*/", a, b);
    TagLengthLocal(a, b);
    if m.Dollar? {
      PrefixLocal(m.tag, a, b);
    }
    if m.Plain? && TagLength(a) > 0 {
      assert (a + b)[..TagLength(a)] == a[..TagLength(a)];
    }
  }

  lemma TakeDrop(a: string, b: string, n: nat)
    requires n <= |a|
    ensures (a + b)[n..] == a[n..] + b && (a + b)[..n] == a[..n]
  {
  }

  lemma CutOfAppend(m: Mode, a: string, b: string)
    requires a != []
    ensures CutHere(m, a + b) == CutHere(m, a) && (a + b)[1..] == a[1..] + b
  {
  }

  /** Segments of adjacent texts: the last of `a` and the first of `b` become one. */
  function Merge(a: seq<string>, b: seq<string>): (r: seq<string>)
    requires a != [] && b != []
    ensures |r| == |a| + |b| - 1
  {
    a[..|a| - 1] + Glue(a[|a| - 1], b)
  }

  lemma MergeNil(b: seq<string>)
    requires b != []
    ensures Merge([[]], b) == b
  {
    GlueGlue([], [], b);
  }

  lemma MergeCons(x: string, a: seq<string>, b: seq<string>)
    requires a != [] && b != []
    ensures Merge([x] + a, b) == [x] + Merge(a, b)
  {
  }

  lemma MergeGlue(p: string, a: seq<string>, b: seq<string>)
    requires a != [] && b != []
    ensures Merge(Glue(p, a), b) == Glue(p, Merge(a, b))
  {
    if |a| == 1 {
      GlueGlue(p, a[0], b);
    }
  }

  /** Lexing composes at a barrier: the second text is lexed from the mode in which the first ends. */
  lemma {:induction false} Compose(d: Dialect, m: Mode, a: string, b: string)
    requires m.Valid() && BarrierFirst(b)
    ensures Segments(d, m, a + b) == Merge(Segments(d, m, a), Segments(d, EndMode(d, m, a), b))
    ensures EndMode(d, m, a + b) == EndMode(d, EndMode(d, m, a), b)
    decreases |a|
  {
    hide Segments, EndMode, Lex, Merge, Glue, CutHere;
    if a == [] {
      UnfoldNil(d, m);
      assert a + b == b;
      MergeNil(Segments(d, m, b));
    } else {
      Unfold(d, m, a);
      Unfold(d, m, a + b);
      if CutHere(m, a) {
        CutOfAppend(m, a, b);
        Compose(d, Plain, a[1..], b);
        MergeCons([], Segments(d, Plain, a[1..]), Segments(d, EndMode(d, m, a), b));
      } else {
        CutOfAppend(m, a, b);
        LexLocal(d, m, a, b);
        var t := Lex(d, m, a);
        TakeDrop(a, b, t.length);
        Compose(d, t.next, a[t.length..], b);
        MergeGlue(a[..t.length], Segments(d, t.next, a[t.length..]), Segments(d, EndMode(d, m, a), b));
      }
    }
  }

  // ---------------------------------------------------------------------------------------------
  // Nothing is lost and nothing is added: the pieces joined by semicolons are the script.

  lemma JoinGlue(p: string, segments: seq<string>)
    requires segments != []
    ensures Join(Glue(p, segments), ";") == p + Join(segments, ";")
  {
  }

  lemma JoinCons(x: string, segments: seq<string>)
    requires segments != []
    ensures Join([x] + segments, ";") == x + (";" + Join(segments, ";"))
  {
    assert ([x] + segments)[1..] == segments;
  }

  lemma {:induction false} JoinSegments(d: Dialect, m: Mode, s: string)
    requires m.Valid()
    ensures Join(Segments(d, m, s), ";") == s
    decreases |s|
  {
    hide Segments, Lex, Glue, Join;
    if s == [] {
      UnfoldNil(d, m);
      JoinOne([]);
    } else {
      Unfold(d, m, s);
      if CutHere(m, s) {
        JoinSegments(d, Plain, s[1..]);
        JoinCons([], Segments(d, Plain, s[1..]));
      } else {
        var t := Lex(d, m, s);
        JoinSegments(d, t.next, s[t.length..]);
        JoinGlue(s[..t.length], Segments(d, t.next, s[t.length..]));
      }
    }
  }

  lemma JoinOne(x: string)
    ensures Join([x], ";") == x
  {
  }

  // ---------------------------------------------------------------------------------------------
  // The cuts are exactly the semicolons that lexing reaches in plain mode.

  /** Position `i` of the joined text is one of the separators put between the segments. */
  predicate SeparatorAt(segments: seq<string>, i: int)
    decreases |segments|
  {
    |segments| > 1 && (i == |segments[0]| || SeparatorAt(segments[1..], i - |segments[0]| - 1))
  }

  /** Lexing `s` from mode `m` comes to position `i`, between two tokens, in plain mode. */
  predicate ReachedPlain(d: Dialect, m: Mode, s: string, i: nat)
    requires m.Valid()
    decreases |s|
  {
    if i == 0 then m.Plain?
    else if s == [] then false
    else if CutHere(m, s) then ReachedPlain(d, Plain, s[1..], i - 1)
    else
      var t := Lex(d, m, s);
      i >= t.length && ReachedPlain(d, t.next, s[t.length..], i - t.length)
  }

  lemma SeparatorCons(segments: seq<string>, i: int)
    requires segments != []
    ensures SeparatorAt([[]] + segments, i) <==> i == 0 || SeparatorAt(segments, i - 1)
  {
    assert ([[]] + segments)[1..] == segments;
  }

  lemma SeparatorGlue(p: string, segments: seq<string>, i: int)
    requires segments != []
    ensures SeparatorAt(Glue(p, segments), i) <==> SeparatorAt(segments, i - |p|)
  {
    assert Glue(p, segments)[1..] == segments[1..];
  }

  lemma {:induction false} SeparatorPositive(segments: seq<string>, i: int)
    requires i < 0
    ensures !SeparatorAt(segments, i)
    decreases |segments|
  {
    if |segments| > 1 {
      SeparatorPositive(segments[1..], i - |segments[0]| - 1);
    }
  }

  lemma UnfoldReached(d: Dialect, m: Mode, s: string, i: nat)
    requires m.Valid() && s != []
    ensures i == 0 ==> ReachedPlain(d, m, s, i) == m.Plain?
    ensures i > 0 && CutHere(m, s) ==> ReachedPlain(d, m, s, i) == ReachedPlain(d, Plain, s[1..], i - 1)
    ensures i > 0 && !CutHere(m, s) ==>
              var t := Lex(d, m, s);
              ReachedPlain(d, m, s, i) == (i >= t.length && ReachedPlain(d, t.next, s[t.length..], i - t.length))
  {
    hide Lex;
  }

  lemma {:induction false} CutsArePlainSemicolons(d: Dialect, m: Mode, s: string, i: nat)
    requires m.Valid() && i < |s|
    ensures SeparatorAt(Segments(d, m, s), i) <==> ReachedPlain(d, m, s, i) && s[i] == ';'
    decreases |s|
  {
    hide Segments, Lex, Glue, SeparatorAt, ReachedPlain;
    Unfold(d, m, s);
    UnfoldReached(d, m, s, i);
    if CutHere(m, s) {
      SeparatorCons(Segments(d, Plain, s[1..]), i);
      if i > 0 {
        CutsArePlainSemicolons(d, Plain, s[1..], i - 1);
      }
    } else {
      var t := Lex(d, m, s);
      var rest := Segments(d, t.next, s[t.length..]);
      SeparatorGlue(s[..t.length], rest, i);
      if i < t.length {
        SeparatorPositive(rest, i - t.length);
      } else {
        CutsArePlainSemicolons(d, t.next, s[t.length..], i - t.length);
      }
    }
  }

  // ---------------------------------------------------------------------------------------------
  // Each statement, lexed on its own, is one statement again.

  /** `x` lexes to itself: no semicolon of it is in plain mode. */
  ghost predicate Alone(d: Dialect, x: string) {
    Segments(d, Plain, x) == [x]
  }

  lemma OneSegmentIsAlone(d: Dialect, x: string)
    requires |Segments(d, Plain, x)| == 1
    ensures Alone(d, x)
  {
    hide Segments;
    JoinSegments(d, Plain, x);
    var g := Segments(d, Plain, x);
    assert g == [g[0]];
    JoinOne(g[0]);
  }

  /** A semicolon after `x` is a cut exactly when `x` ends in plain mode. */
  lemma ThenSemicolon(d: Dialect, x: string, rest: string)
    ensures EndMode(d, Plain, x) == Plain ==>
              Segments(d, Plain, x + (";" + rest)) == Merge(Segments(d, Plain, x), [[]] + Segments(d, Plain, rest))
    ensures EndMode(d, Plain, x) != Plain ==>
              exists b :: && b != [] && b[0] != [] && b[0][0] == ';'
                          && Segments(d, Plain, x + (";" + rest)) == Merge(Segments(d, Plain, x), b)
  {
    hide Segments, EndMode, Lex, Merge;
    var m := EndMode(d, Plain, x);
    Compose(d, Plain, x, ";" + rest);
    Unfold(d, m, ";" + rest);
    assert (";" + rest)[1..] == rest;
    if m != Plain {
      var b := Segments(d, m, ";" + rest);
      assert b[0][0] == ';';
    }
  }

  lemma MergeFirst(a: seq<string>, b: seq<string>)
    requires a != [] && b != []
    ensures |a| > 1 ==> Merge(a, b)[0] == a[0]
    ensures |a| == 1 ==> Merge(a, b) == Glue(a[0], b)
  {
  }

  lemma FirstOfMany(x: seq<string>)
    requires |x| > 1
    ensures |x[0]| < |Join(x, ";")|
  {
  }

  /** The first of several segments is alone, ends in plain mode, and the others are those of the rest. */
  lemma FirstSegment(d: Dialect, s: string)
    requires |Segments(d, Plain, s)| > 1
    ensures var g := Segments(d, Plain, s);
            && Alone(d, g[0])
            && EndMode(d, Plain, g[0]) == Plain
            && |Join(g[1..], ";")| < |s|
            && Segments(d, Plain, Join(g[1..], ";")) == g[1..]
  {
    hide Segments, EndMode, Merge, Join;
    var g := Segments(d, Plain, s);
    var x, rest := g[0], Join(g[1..], ";");
    JoinSegments(d, Plain, s);
    JoinCons(x, g[1..]);
    assert g == [x] + g[1..];
    ThenSemicolon(d, x, rest);
    JoinSegments(d, Plain, x);
    var a := Segments(d, Plain, x);
    if |a| > 1 {
      FirstOfMany(a);
      FirstStays(d, x, rest, a);
      assert false;
    }
    OneSegmentIsAlone(d, x);
    if EndMode(d, Plain, x) != Plain {
      var b :| b != [] && b[0] != [] && b[0][0] == ';' && g == Merge(a, b);
      MergeFirst(a, b);
      assert false;
    }
    MergeFirst(a, [[]] + Segments(d, Plain, rest));
    GlueGlue(x, [], Segments(d, Plain, rest));
  }

  lemma FirstStays(d: Dialect, x: string, rest: string, a: seq<string>)
    requires a == Segments(d, Plain, x) && |a| > 1
    ensures Segments(d, Plain, x + (";" + rest))[0] == a[0]
  {
    hide Segments, EndMode, Merge;
    Compose(d, Plain, x, ";" + rest);
    MergeFirst(a, Segments(d, EndMode(d, Plain, x), ";" + rest));
  }

  lemma {:induction false} LeadingSpace(d: Dialect, front: string, u: string)
    requires All(JsSpace, front)
    ensures Segments(d, Plain, front + u) == Glue(front, Segments(d, Plain, u))
    ensures EndMode(d, Plain, front + u) == EndMode(d, Plain, u)
  {
    hide Segments, EndMode, Glue;
    if front == [] {
      assert front + u == u;
      GlueGlue([], [], Segments(d, Plain, u));
    } else {
      var s := front + u;
      assert JsSpace(s[0]) && s[1..] == front[1..] + u && s[..1] == [front[0]];
      assert Lex(d, Plain, s) == Token(1, Plain);
      Unfold(d, Plain, s);
      LeadingSpace(d, front[1..], u);
      GlueGlue([front[0]], front[1..], Segments(d, Plain, u));
      assert [front[0]] + front[1..] == front;
    }
  }

  /** Trimming keeps a lone text alone, whatever mode it ends in. */
  lemma TrimmedAlone(d: Dialect, x: string)
    requires Alone(d, x)
    ensures Alone(d, Trim(JsSpace, x))
  {
    hide Segments, EndMode, Trim, Merge;
    var t := Trim(JsSpace, x);
    var front, back := TrimParts(JsSpace, x);
    assert x == front + (t + back);
    LeadingSpace(d, front, t + back);
    Compose(d, Plain, t, back);
    OneSegmentIsAlone(d, t);
  }

  /** A statement as the splitters return it. */
  ghost predicate Statement(d: Dialect, x: string) {
    x != [] && Trimmed(JsSpace, x) && Alone(d, x)
  }

  lemma KeptIsStatement(d: Dialect, g: string)
    requires Alone(d, g)
    ensures forall x :: x in Kept(g) ==> Statement(d, x)
  {
    hide Segments, Trim;
    TrimmedAlone(d, g);
    var front, back := TrimParts(JsSpace, g);
  }

  lemma {:induction false} SplitGivesStatements(d: Dialect, s: string)
    ensures forall x :: x in Split(d, s) ==> Statement(d, x)
    decreases |s|
  {
    hide Segments, EndMode, Kept, Clean, Join;
    var g := Segments(d, Plain, s);
    UnfoldClean(g);
    if |g| > 1 {
      FirstSegment(d, s);
      SplitGivesStatements(d, Join(g[1..], ";"));
    } else {
      OneSegmentIsAlone(d, s);
      UnfoldClean([]);
    }
    KeptIsStatement(d, g[0]);
  }

  lemma UnfoldClean(g: seq<string>)
    ensures g != [] ==> Clean(g) == Kept(g[0]) + Clean(g[1..])
    ensures g == [] ==> Clean(g) == []
  {
  }

  /** A statement splits to exactly itself. */
  lemma StatementSplitsToItself(d: Dialect, x: string)
    requires Statement(d, x)
    ensures Split(d, x) == [x]
  {
    hide Segments, Clean, Kept;
    KeptStatement(d, x);
    UnfoldClean([x]);
    UnfoldClean([]);
    assert [x][1..] == [];
  }

  /** Splitting is stable: every returned statement splits to exactly itself, for every script. */
  lemma SplitIsStable(d: Dialect, s: string, x: string)
    requires x in Split(d, s)
    ensures Split(d, x) == [x]
  {
    SplitGivesStatements(d, s);
    StatementSplitsToItself(d, x);
  }

  // ---------------------------------------------------------------------------------------------
  // Splitting undoes joining, exactly when no statement but the last leaves a quote or comment open.

  ghost predicate ClosedButLast(d: Dialect, xs: seq<string>) {
    forall i :: 0 <= i < |xs| - 1 ==> EndMode(d, Plain, xs[i]) == Plain
  }

  /** A text that starts with a trimmed statement and a semicolon does not trim to that statement. */
  lemma LongerThanStatement(d: Dialect, x: string, b: seq<string>)
    requires Statement(d, x) && b != [] && b[0] != [] && b[0][0] == ';'
    ensures Clean(Glue(x, b)) != [] && Clean(Glue(x, b))[0] != x
  {
    hide Segments, Clean, Trim, Glue;
    FirstOfGlue(x, b);
    UnfoldClean(Glue(x, b));
    TrimKeepsInner(JsSpace, x, b[0]);
  }

  lemma FirstOfGlue(x: string, b: seq<string>)
    requires b != []
    ensures Glue(x, b) != [] && Glue(x, b)[0] == x + b[0]
  {
  }

  lemma {:induction false} RejoinExactly(d: Dialect, xs: seq<string>)
    requires xs != [] && forall x :: x in xs ==> Statement(d, x)
    ensures Split(d, Join(xs, ";")) == xs <==> ClosedButLast(d, xs)
  {
    hide Segments, EndMode, Clean, Statement, Join, Merge;
    var x := xs[0];
    StatementSplitsToItself(d, x);
    if |xs| == 1 {
      assert xs == [x];
      JoinOne(x);
    } else {
      var rest := Join(xs[1..], ";");
      assert xs == [x] + xs[1..];
      JoinCons(x, xs[1..]);
      RejoinExactly(d, xs[1..]);
      RejoinFirst(d, x, rest);
      assert ClosedButLast(d, xs) <==> EndMode(d, Plain, x) == Plain && ClosedButLast(d, xs[1..]) by {
        assert forall i :: 0 < i < |xs| ==> xs[i] == xs[1..][i - 1];
      }
    }
  }

  /** Splitting `x;rest` gives `x` and the statements of `rest`, or something that does not start with `x`. */
  lemma RejoinFirst(d: Dialect, x: string, rest: string)
    requires Statement(d, x)
    ensures EndMode(d, Plain, x) == Plain ==> Split(d, x + (";" + rest)) == [x] + Split(d, rest)
    ensures EndMode(d, Plain, x) != Plain ==> Split(d, x + (";" + rest)) != [] && Split(d, x + (";" + rest))[0] != x
  {
    hide Segments, EndMode, Clean, Merge, Kept;
    ThenSemicolon(d, x, rest);
    if EndMode(d, Plain, x) == Plain {
      MergeFirst([x], [[]] + Segments(d, Plain, rest));
      GlueGlue(x, [], Segments(d, Plain, rest));
      UnfoldClean([x] + Segments(d, Plain, rest));
      KeptStatement(d, x);
    } else {
      var b :| b != [] && b[0] != [] && b[0][0] == ';' && Segments(d, Plain, x + (";" + rest)) == Merge([x], b);
      MergeFirst([x], b);
      LongerThanStatement(d, x, b);
    }
  }

  lemma KeptStatement(d: Dialect, x: string)
    requires Statement(d, x)
    ensures Kept(x) == [x]
  {
    hide Segments;
    TrimmedIsFixed(JsSpace, x);
  }

  /** The round trip: closed statements come back unchanged. */
  lemma SplitUndoesJoin(d: Dialect, xs: seq<string>)
    requires forall x :: x in xs ==> Statement(d, x) && EndMode(d, Plain, x) == Plain
    ensures Split(d, Join(xs, ";")) == xs
  {
    hide Segments, EndMode;
    if xs == [] {
      UnfoldNil(d, Plain);
    } else {
      RejoinExactly(d, xs);
    }
  }

  /** For either dialect: splitting, joining and splitting again changes nothing iff only the last statement is open. */
  lemma SplitJoinSplit(d: Dialect, s: string)
    ensures Split(d, Join(Split(d, s), ";")) == Split(d, s) <==> ClosedButLast(d, Split(d, s))
  {
    hide Segments, EndMode, Clean;
    SplitGivesStatements(d, s);
    if Split(d, s) == [] {
      UnfoldNil(d, Plain);
      UnfoldClean([[]]);
      UnfoldClean([]);
      assert Kept([]) == [] && [""][1..] == [];
    } else {
      RejoinExactly(d, Split(d, s));
    }
  }

  predicate InComment(m: Mode) {
    m.LineComment? || m.BlockComment?
  }

  lemma {:induction false} SmokeKnowsNoComments(m: Mode, s: string)
    requires m.Valid() && !InComment(m)
    ensures !InComment(EndMode(Smoke, m, s))
    decreases |s|
  {
    hide Segments, EndMode;
    if s == [] {
      UnfoldNil(Smoke, m);
    } else {
      Unfold(Smoke, m, s);
      if CutHere(m, s) {
        SmokeKnowsNoComments(Plain, s[1..]);
      } else {
        var t := Lex(Smoke, m, s);
        SmokeKnowsNoComments(t.next, s[t.length..]);
      }
    }
  }

  /** Whitespace ends a line comment when it holds a newline, and leaves every other mode as it is. */
  lemma {:induction false} SpaceMode(d: Dialect, m: Mode, s: string)
    requires m.Valid() && All(JsSpace, s)
    ensures EndMode(d, m, s) == if m.LineComment? && '\n' in s then Plain else m
    decreases |s|
  {
    hide EndMode, Segments;
    if s == [] {
      UnfoldNil(d, m);
    } else {
      Unfold(d, m, s);
      assert JsSpace(s[0]) && s == [s[0]] + s[1..];
      if m.Dollar? {
        assert TagChar(m.tag[0]);
      }
      var m' := if m.LineComment? && s[0] == '\n' then Plain else m;
      assert Lex(d, m, s) == Token(1, m');
      SpaceMode(d, m', s[1..]);
    }
  }

  /**
  The script comes to the semicolon at `i` in plain mode, behind whitespace from `p` on that ends a line
  comment, and another statement follows.
  */
  ghost predicate LosesNewline(d: Dialect, s: string, p: nat, i: nat) {
    && p <= i < |s| && s[i] == ';' && All(JsSpace, s[p..i])
    && EndMode(d, Plain, s[..p]) == LineComment && EndMode(d, Plain, s[..i]) == Plain
    && Split(d, s[i + 1..]) != []
  }

  ghost predicate CommentAtCut(d: Dialect, s: string) {
    exists p: nat, i: nat :: LosesNewline(d, s, p, i)
  }

  /** Some end of `x` is whitespace that starts in a line comment. */
  ghost predicate EndsInComment(d: Dialect, x: string) {
    exists p: nat :: p <= |x| && All(JsSpace, x[p..]) && EndMode(d, Plain, x[..p]) == LineComment
  }

  lemma NoCutInside(d: Dialect, x: string, i: nat)
    requires Alone(d, x) && i < |x| && x[i] == ';'
    ensures EndMode(d, Plain, x[..i]) != Plain
  {
    hide Segments, EndMode;
    assert x == x[..i] + (";" + x[i + 1..]);
    ThenSemicolon(d, x[..i], x[i + 1..]);
  }

  lemma AfterCut(d: Dialect, x: string, z: string)
    requires EndMode(d, Plain, x) == Plain
    ensures EndMode(d, Plain, x + (";" + z)) == EndMode(d, Plain, z)
  {
    hide Segments, EndMode;
    Compose(d, Plain, x, ";" + z);
    Unfold(d, Plain, ";" + z);
    assert (";" + z)[1..] == z;
  }

  /** Trimming off whitespace that starts in a line comment leaves that comment open. */
  lemma CommentStays(d: Dialect, x: string, p: nat)
    requires p <= |x| && All(JsSpace, x[p..]) && EndMode(d, Plain, x[..p]) == LineComment
    ensures Trim(JsSpace, x) != [] && EndMode(d, Plain, Trim(JsSpace, x)) == LineComment
  {
    hide Segments, EndMode, Trim, Merge, All, Trimmed;
    var t := Trim(JsSpace, x);
    var front, back := TrimParts(JsSpace, x);
    var e := |front| + |t|;
    assert x == front + (t + back);
    if t == [] {
      assert front + (t + back) == front + back;
      BlankPrefix(d, front, back, p);
      assert false;
    }
    TrimmedBefore(x, front, t, back, p);
    var b := back[..p - e];
    assert x[..p] == front + (t + b);
    SpacePrefix(back, p - e);
    LeadingSpace(d, front, t + b);
    ComposeSpace(d, t, b);
    SpaceMode(d, EndMode(d, Plain, t), b);
  }

  lemma SpacePrefix(b: string, n: nat)
    requires All(JsSpace, b) && n <= |b|
    ensures All(JsSpace, b[..n])
  {
  }

  lemma BlankPrefix(d: Dialect, front: string, back: string, p: nat)
    requires All(JsSpace, front) && All(JsSpace, back) && p <= |front + back|
    ensures EndMode(d, Plain, (front + back)[..p]) == Plain
  {
    hide EndMode, JsSpace;
    SpaceMode(d, Plain, (front + back)[..p]);
  }

  /** What trimming does to a segment that ends in plain mode: it can only open a line comment. */
  lemma TrimMode(d: Dialect, x: string)
    requires EndMode(d, Plain, x) == Plain
    ensures EndMode(d, Plain, Trim(JsSpace, x)) == if EndsInComment(d, x) then LineComment else Plain
    ensures EndsInComment(d, x) ==> Trim(JsSpace, x) != []
  {
    hide Segments, EndMode, Trim, Merge, All, Trimmed;
    var t := Trim(JsSpace, x);
    var front, back := TrimParts(JsSpace, x);
    var m, e := EndMode(d, Plain, t), |front| + |t|;
    assert x == front + (t + back) && x[..e] == front + t && x[e..] == back;
    LeadingSpace(d, front, t + back);
    LeadingSpace(d, front, t);
    ComposeSpace(d, t, back);
    SpaceMode(d, m, back);
    assert m == LineComment ==> EndsInComment(d, x);
    if EndsInComment(d, x) {
      var p: nat :| p <= |x| && All(JsSpace, x[p..]) && EndMode(d, Plain, x[..p]) == LineComment;
      CommentStays(d, x, p);
    }
  }

  lemma ComposeSpace(d: Dialect, t: string, b: string)
    requires All(JsSpace, b)
    ensures EndMode(d, Plain, t + b) == EndMode(d, EndMode(d, Plain, t), b)
  {
    hide Segments, EndMode;
    assert b != [] ==> JsSpace(b[0]);
    Compose(d, Plain, t, b);
  }

  lemma TrimmedBefore(x: string, front: string, t: string, back: string, p: nat)
    requires x == front + (t + back) && t != [] && p <= |x| && Trimmed(JsSpace, t) && All(JsSpace, x[p..])
    ensures p >= |front| + |t|
  {
    hide JsSpace, All;
    var e := |front| + |t|;
    assert x[e - 1] == t[|t| - 1] && x[p..] == x[p..|x|];
    if p < e {
      NotSpaces(x, p, |x|, e - 1);
      assert false;
    }
  }

  lemma NotSpaces(s: string, p: nat, i: nat, k: nat)
    requires p <= k < i <= |s| && !JsSpace(s[k])
    ensures !All(JsSpace, s[p..i])
  {
    hide JsSpace;
    assert s[p..i][k - p] == s[k];
  }

  /** The condition on the statements, as one on the script. */
  lemma {:induction false} ClosedExactly(d: Dialect, s: string)
    ensures ClosedButLast(d, Split(d, s)) <==> !CommentAtCut(d, s)
    decreases |s|
  {
    hide Segments, EndMode, Clean, Trim, Join, JsSpace;
    var g := Segments(d, Plain, s);
    UnfoldClean(g);
    if |g| == 1 {
      OneSegmentIsAlone(d, s);
      UnfoldClean(g[1..]);
      forall p: nat, i: nat ensures !LosesNewline(d, s, p, i) {
        if LosesNewline(d, s, p, i) {
          NoCutInside(d, s, i);
        }
      }
    } else {
      var x, rest := g[0], Join(g[1..], ";");
      FirstSegment(d, s);
      JoinSegments(d, Plain, s);
      JoinCons(x, g[1..]);
      assert g == [x] + g[1..];
      ClosedExactly(d, rest);
      TrimMode(d, x);
      CutsOfScript(d, x, rest);
      ClosedCons(d, Kept(x), Split(d, rest));
    }
  }

  lemma ClosedCons(d: Dialect, a: seq<string>, b: seq<string>)
    requires |a| <= 1
    ensures ClosedButLast(d, a + b) <==>
            (a != [] && b != [] ==> EndMode(d, Plain, a[0]) == Plain) && ClosedButLast(d, b)
  {
    hide EndMode;
    if a == [] {
      assert a + b == b;
    } else {
      assert forall i :: 0 <= i < |b| ==> (a + b)[i + 1] == b[i];
      assert forall i :: 0 < i < |a + b| ==> (a + b)[i] == b[i - 1];
      if ClosedButLast(d, a + b) {
        forall i | 0 <= i < |b| - 1 ensures EndMode(d, Plain, b[i]) == Plain {
          assert EndMode(d, Plain, (a + b)[i + 1]) == Plain;
        }
        assert b != [] ==> EndMode(d, Plain, (a + b)[0]) == Plain;
      }
    }
  }

  /** A comment that ends before a cut of the script does so before its first cut or in the rest. */
  lemma CutsOfScript(d: Dialect, x: string, rest: string)
    requires Alone(d, x) && EndMode(d, Plain, x) == Plain
    ensures CommentAtCut(d, x + (";" + rest)) <==>
            (EndsInComment(d, x) && Split(d, rest) != []) || CommentAtCut(d, rest)
  {
    hide Segments, EndMode, Clean, JsSpace, Split, All;
    var s := x + (";" + rest);
    if CommentAtCut(d, s) {
      var p: nat, i: nat :| LosesNewline(d, s, p, i);
      CutOfScript(d, x, rest, p, i);
      if i > |x| {
        assert LosesNewline(d, rest, p - |x| - 1, i - |x| - 1);
      }
    }
    if EndsInComment(d, x) && Split(d, rest) != [] {
      var p: nat :| p <= |x| && All(JsSpace, x[p..]) && EndMode(d, Plain, x[..p]) == LineComment;
      assert s[p..|x|] == x[p..] && s[..p] == x[..p] && s[..|x|] == x && s[|x| + 1..] == rest;
      assert LosesNewline(d, s, p, |x|);
    }
    if CommentAtCut(d, rest) {
      var p: nat, i: nat :| LosesNewline(d, rest, p, i);
      RestSlices(x, rest, p, i);
      AfterCut(d, x, rest[..p]);
      AfterCut(d, x, rest[..i]);
      assert LosesNewline(d, s, p + |x| + 1, i + |x| + 1);
    }
  }

  lemma RestSlices(x: string, rest: string, p: nat, i: nat)
    requires p <= i < |rest|
    ensures var s, n := x + (";" + rest), |x| + 1;
            && s[..p + n] == x + (";" + rest[..p]) && s[..i + n] == x + (";" + rest[..i])
            && s[p + n..i + n] == rest[p..i] && s[i + n] == rest[i] && s[i + n + 1..] == rest[i + 1..]
  {
  }

  lemma CutOfScript(d: Dialect, x: string, rest: string, p: nat, i: nat)
    requires Alone(d, x) && EndMode(d, Plain, x) == Plain && LosesNewline(d, x + (";" + rest), p, i)
    ensures i == |x| ==> EndsInComment(d, x) && Split(d, rest) != []
    ensures i > |x| ==> p > |x| && LosesNewline(d, rest, p - |x| - 1, i - |x| - 1)
    ensures i >= |x|
  {
    hide Segments, EndMode, Clean, JsSpace, Split, All;
    var s := x + (";" + rest);
    if i < |x| {
      assert s[..i] == x[..i] && s[i] == x[i];
      NoCutInside(d, x, i);
      assert false;
    } else if i == |x| {
      assert s[p..i] == x[p..] && s[..p] == x[..p] && s[i + 1..] == rest;
    } else {
      LaterCut(d, x, rest, p, i);
    }
  }

  lemma LaterCut(d: Dialect, x: string, rest: string, p: nat, i: nat)
    requires EndMode(d, Plain, x) == Plain && LosesNewline(d, x + (";" + rest), p, i) && i > |x|
    ensures p > |x| && LosesNewline(d, rest, p - |x| - 1, i - |x| - 1)
  {
    hide Segments, EndMode, Clean, JsSpace, Split, All;
    var s := x + (";" + rest);
    SemicolonIsDark();
    if p <= |x| {
      NotSpaces(s, p, i, |x|);
      assert false;
    }
    var q, k := p - |x| - 1, i - |x| - 1;
    RestSlices(x, rest, q, k);
    AfterCut(d, x, rest[..q]);
    AfterCut(d, x, rest[..k]);
  }

  lemma SemicolonIsDark()
    ensures !JsSpace(';')
  {
  }

  /** So whether the statements survive joining can be told from the script. */
  lemma SplitJoinSplitExactly(d: Dialect, s: string)
    ensures Split(d, Join(Split(d, s), ";")) == Split(d, s) <==> !CommentAtCut(d, s)
  {
    hide *;
    SplitJoinSplit(d, s);
    ClosedExactly(d, s);
  }

  /** Without comments they always do: the smoke's statements can be joined and split again. */
  lemma SmokeSplitJoinSplit(s: string)
    ensures Split(Smoke, Join(Split(Smoke, s), ";")) == Split(Smoke, s)
  {
    hide Split, EndMode, Join, All;
    SplitJoinSplitExactly(Smoke, s);
    forall p: nat, i: nat ensures !LosesNewline(Smoke, s, p, i) {
      if p <= |s| {
        SmokeKnowsNoComments(Plain, s[..p]);
      }
    }
  }

  lemma ExampleTail()
    ensures Segments(Runner, LineComment, "\n;b") == ["\n", "b"]
  {
    hide Segments, EndMode;
    assert Lex(Runner, LineComment, "\n;b") == Token(1, Plain) && "\n;b"[1..] == ";b" && "\n;b"[..1] == "\n";
    Unfold(Runner, LineComment, "\n;b");
    assert CutHere(Plain, ";b") && ";b"[1..] == "b";
    Unfold(Runner, Plain, ";b");
    assert Lex(Runner, Plain, "b") == Token(1, Plain) && "b"[1..] == "" && "b"[..1] == "b";
    Unfold(Runner, Plain, "b");
    UnfoldNil(Runner, Plain);
    GlueGlue("b", "", [[]]);
    GlueGlue("\n", "", ["b"]);
  }

  lemma ExampleSegments()
    ensures Segments(Runner, Plain, "--\n;b") == ["--\n", "b"] && EndMode(Runner, Plain, "--") == LineComment
  {
    hide Segments, EndMode;
    var s := "--\n;b";
    assert Lex(Runner, Plain, s) == Token(2, LineComment) && s[2..] == "\n;b" && s[..2] == "--";
    Unfold(Runner, Plain, s);
    ExampleTail();
    assert "--" + "\n" == "--\n" && ["\n", "b"][1..] == ["b"];
    assert Lex(Runner, Plain, "--") == Token(2, LineComment) && "--"[2..] == "";
    Unfold(Runner, Plain, "--");
    UnfoldNil(Runner, LineComment);
  }

  lemma ExampleClean()
    ensures Clean(["--\n", "b"]) == ["--", "b"]
  {
    hide Clean;
    assert TrimEnd(JsSpace, "--\n") == "--" by { assert "--\n"[..2] == "--"; }
    TrimmedIsFixed(JsSpace, "b");
    UnfoldClean(["--\n", "b"]);
    UnfoldClean(["b"]);
    UnfoldClean([]);
    assert ["--\n", "b"][1..] == ["b"] && ["b"][1..] == [];
  }

  /** The migration runner's statements cannot: a trailing line comment loses its newline and swallows the semicolon. */
  lemma RunnerSplitJoinSplitFails()
    ensures var s := "--\n;b";
            Split(Runner, s) == ["--", "b"] && Split(Runner, Join(Split(Runner, s), ";")) != Split(Runner, s)
  {
    hide Segments, EndMode, Join, Clean;
    ExampleSegments();
    ExampleClean();
    SplitJoinSplit(Runner, "--\n;b");
    assert ["--", "b"][0] == "--";
  }

  // ---------------------------------------------------------------------------------------------
  // The two splitters agree on scripts without comments.

  /** Lexing without comments never meets the start of one in plain mode. */
  predicate CommentFree(m: Mode, s: string)
    requires m.Valid()
    decreases |s|
  {
    if s == [] then true
    else if CutHere(m, s) then CommentFree(Plain, s[1..])
    else
      var t := Lex(Smoke, m, s);
      (m.Plain? ==> !("--" <= s) && !("/*" <= s)) && CommentFree(t.next, s[t.length..])
  }

  lemma {:induction false} DialectsAgree(m: Mode, s: string)
    requires m.Valid() && !InComment(m) && CommentFree(m, s)
    ensures Segments(Smoke, m, s) == Segments(Runner, m, s)
    decreases |s|
  {
    if s != [] {
      Unfold(Smoke, m, s);
      Unfold(Runner, m, s);
      hide Segments;
      if CutHere(m, s) {
        DialectsAgree(Plain, s[1..]);
      } else {
        var t := Lex(Smoke, m, s);
        assert Lex(Runner, m, s) == t;
        DialectsAgree(t.next, s[t.length..]);
      }
    }
  }

  lemma SplittersAgree(s: string)
    requires CommentFree(Plain, s)
    ensures Split(Smoke, s) == Split(Runner, s)
  {
    DialectsAgree(Plain, s);
  }
}
