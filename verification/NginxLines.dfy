/** What the verifier's scans find in a text that is put together from lines. */
module NginxLines {
  import opened Wrappers
  import opened Text
  import opened Occurrences
  import opened NginxServer
  import opened NginxBlocks
  import opened NginxVerifier
  import opened NginxProbe

  function Lined(ls: seq<string>): string {
    Join(ls, "\n")
  }

  lemma {:induction false} LinedAppend(a: seq<string>, b: seq<string>)
    requires a != [] && b != []
    ensures Lined(a + b) == Lined(a) + "\n" + Lined(b)
  {
    if |a| == 1 {
      assert (a + b)[1..] == b;
    } else {
      assert (a + b)[1..] == a[1..] + b;
      LinedAppend(a[1..], b);
      assert Lined(a + b) == a[0] + "\n" + (Lined(a[1..]) + "\n" + Lined(b));
    }
  }

  lemma LinedCons(x: string, ls: seq<string>)
    requires ls != []
    ensures Lined([x] + ls) == x + "\n" + Lined(ls)
  {
    assert ([x] + ls)[1..] == ls;
  }

  // ---------------------------------------------------------------------------------------------
  // Breaking it into lines again.

  lemma {:induction false} LinesCons(breaks: char -> bool, x: string, rest: string)
    requires breaks('\n') && forall i :: 0 <= i < |x| ==> !breaks(x[i])
    ensures Lines(breaks, x) == [x] && Lines(breaks, x + "\n" + rest) == [x] + Lines(breaks, rest)
  {
    var s := x + "\n" + rest;
    if x == [] {
      assert s[0] == '\n' && s[1..] == rest;
    } else {
      assert s[0] == x[0] && s[1..] == x[1..] + "\n" + rest;
      LinesCons(breaks, x[1..], rest);
      assert [x[0]] + x[1..] == x;
      assert ([x[1..]] + Lines(breaks, rest))[1..] == Lines(breaks, rest);
    }
  }

  /** Breaking undoes joining. */
  lemma {:induction false} LinesOfLined(breaks: char -> bool, ls: seq<string>)
    requires breaks('\n') && ls != [] && forall k, i :: 0 <= k < |ls| && 0 <= i < |ls[k]| ==> !breaks(ls[k][i])
    ensures Lines(breaks, Lined(ls)) == ls
  {
    hide Lines;
    var x, rest := ls[0], ls[1..];
    LinesCons(breaks, x, if rest == [] then [] else Lined(rest));
    if rest != [] {
      LinesOfLined(breaks, rest);
    }
  }

  lemma {:induction false} DirectivesSum(a: seq<string>, b: seq<string>)
    ensures DirectivesOf(a + b) == DirectivesOf(a) + DirectivesOf(b)
  {
    hide Trim;
    if a == [] {
      assert a + b == b;
    } else {
      assert (a + b)[1..] == a[1..] + b;
      DirectivesSum(a[1..], b);
    }
  }

  lemma {:induction false} ProxyLinesSum(a: seq<string>, b: seq<string>)
    ensures ProxyLines(a + b) == ProxyLines(a) + ProxyLines(b)
  {
    hide Trim;
    if a == [] {
      assert a + b == b;
    } else {
      assert (a + b)[1..] == a[1..] + b;
      ProxyLinesSum(a[1..], b);
    }
  }

  lemma BreakIsBreak()
    ensures LineBreak('\n')
  {
  }

  lemma DirectiveEdges()
    ensures !PySpace('p') && !PySpace(';')
  {
  }

  // ---------------------------------------------------------------------------------------------
  // Headers.

  ghost predicate OneLine(s: string) {
    Lacks(s, '\n')
  }

  ghost predicate HeaderWords(words: seq<string>) {
    words != [] && forall i :: 0 <= i < |words| ==> OneLine(words[i]) && words[i] != []
  }

  /** No header goes on into `z`: it starts with no blank or brace, and not like any part of a word. */
  ghost predicate Stops(z: string, words: seq<string>) {
    && z != [] && !Blank(z[0]) && z[0] != '{'
    && forall k, i :: 0 <= k < |words| && 0 <= i < |words[k]| && words[k][i] == z[0] ==>
                        |z| > 1 && i + 1 < |words[k]| && words[k][i + 1] != z[1]
  }

  lemma {:induction false} BlanksLocal(x: string, z: string)
    requires z != [] && !Blank(z[0])
    ensures Blanks(x + z) == Blanks(x)
  {
    if x == [] {
      assert x + z == z;
    } else {
      assert (x + z)[0] == x[0] && (x + z)[1..] == x[1..] + z;
      BlanksLocal(x[1..], z);
    }
  }

  lemma FrontLocal(x: string, z: string, words: seq<string>, k: nat)
    requires Stops(z, words) && k < |words|
    ensures words[k] <= x + z <==> words[k] <= x
  {
    var s, w := x + z, words[k];
    if |w| > |x| {
      assert s[|x|] == z[0];
      assert |z| > 1 ==> s[|x| + 1] == z[1];
    } else {
      assert s[..|w|] == x[..|w|];
    }
  }

  lemma DropLocal(x: string, z: string, n: nat)
    requires n <= |x|
    ensures (x + z)[n..] == x[n..] + z
  {
  }

  /** A header does not go on into what stops it. */
  lemma {:induction false} MatchLocal(x: string, z: string, words: seq<string>)
    requires HeaderWords(words) && Stops(z, words)
    ensures MatchWords(x + z, words) == MatchWords(x, words)
    decreases |words|
  {
    hide MatchWords, Blanks, OneLine;
    var s, w := x + z, words[0];
    FrontLocal(x, z, words, 0);
    UnfoldMatch(s, words);
    UnfoldMatch(x, words);
    if w <= x {
      DropLocal(x, z, |w|);
      BlanksLocal(x[|w|..], z);
      var n := |w| + Blanks(x[|w|..]);
      DropLocal(x, z, n);
      if |words| > 1 {
        MatchLocal(x[n..], z, words[1..]);
      }
    }
  }

  lemma BreakStops(y: string, words: seq<string>)
    requires HeaderWords(words)
    ensures Stops("\n" + y, words)
  {
  }

  function ShiftAll(d: nat, xs: seq<nat>): seq<nat> {
    seq(|xs|, i requires 0 <= i < |xs| => d + xs[i])
  }

  lemma ShiftCons(d: nat, xs: seq<nat>, x: Option<nat>)
    ensures ShiftAll(d, Listed(x) + xs) == Listed(Shift(d, x)) + ShiftAll(d, xs)
  {
  }

  lemma ShiftNone(d: nat)
    ensures ShiftAll(d, []) == []
  {
  }

  function Listed(x: Option<nat>): seq<nat> {
    if x.Some? then [x.value] else []
  }

  lemma UnfoldHeaders(s: string, words: seq<string>, p: nat)
    requires words != [] && p <= |s|
    ensures p < |s| ==> Headers(s, words, p) == Listed(HeaderAt(s, words, p)) + Headers(s, words, p + 1)
    ensures p == |s| ==> Headers(s, words, p) == Listed(HeaderAt(s, words, p)) + []
  {
    hide HeaderAt;
  }

  lemma HeaderAtFront(x: string, z: string, words: seq<string>, p: nat)
    requires HeaderWords(words) && Stops(z, words) && p <= |x|
    ensures HeaderAt(x + z, words, p) == HeaderAt(x, words, p)
  {
    hide MatchWords, Blanks, OneLine;
    DropLocal(x, z, p);
    BlanksLocal(x[p..], z);
    var q := p + Blanks(x[p..]);
    DropLocal(x, z, q);
    MatchLocal(x[q..], z, words);
  }

  /** Position `p` of `y` starts a line of `f + y` just when it starts one of `y`. */
  ghost predicate SameStart(f: string, p: nat) {
    p > 0 || f == [] || f[|f| - 1] == '\n'
  }

  lemma HeaderAtBack(f: string, y: string, words: seq<string>, p: nat)
    requires words != [] && p <= |y| && SameStart(f, p)
    ensures HeaderAt(f + y, words, |f| + p) == Shift(|f|, HeaderAt(y, words, p))
  {
    hide MatchWords, Blanks;
    var s, d := f + y, |f|;
    assert s[d + p..] == y[p..];
    var q := p + Blanks(y[p..]);
    assert s[d + q..] == y[q..];
  }

  lemma {:induction false} HeadersBack(f: string, y: string, words: seq<string>, p: nat)
    requires words != [] && p <= |y| && SameStart(f, p)
    ensures Headers(f + y, words, |f| + p) == ShiftAll(|f|, Headers(y, words, p))
    decreases |y| - p
  {
    hide HeaderAt, Headers, Listed, ShiftAll;
    var s, d := f + y, |f|;
    HeaderAtBack(f, y, words, p);
    UnfoldHeaders(s, words, d + p);
    UnfoldHeaders(y, words, p);
    if p < |y| {
      HeadersBack(f, y, words, p + 1);
      ShiftCons(d, Headers(y, words, p + 1), HeaderAt(y, words, p));
    } else {
      ShiftCons(d, [], HeaderAt(y, words, p));
      ShiftNone(d);
    }
  }

  /** The headers of a text that goes on with what stops a header. */
  lemma {:induction false} HeadersFront(x: string, z: string, words: seq<string>, p: nat)
    requires HeaderWords(words) && Stops(z, words) && p <= |x|
    ensures Headers(x + z, words, p) == Headers(x, words, p) + Headers(x + z, words, |x| + 1)
    decreases |x| - p
  {
    hide HeaderAt, Headers, Listed, OneLine, Blank;
    HeaderAtFront(x, z, words, p);
    UnfoldHeaders(x + z, words, p);
    UnfoldHeaders(x, words, p);
    if p < |x| {
      HeadersFront(x, z, words, p + 1);
    }
  }

  /** The headers of two texts with a newline between them. */
  lemma HeadersAppend(x: string, y: string, words: seq<string>, p: nat)
    requires HeaderWords(words) && p <= |x|
    ensures Headers(x + "\n" + y, words, p) == Headers(x, words, p) + ShiftAll(|x| + 1, Headers(y, words, 0))
  {
    hide HeaderAt, Headers, Listed, ShiftAll, OneLine;
    BreakStops(y, words);
    assert x + "\n" + y == x + ("\n" + y);
    HeadersFront(x, "\n" + y, words, p);
    HeadersBack(x + "\n", y, words, 0);
  }

  /** On a single line a header can only start at its beginning. */
  lemma {:induction false} HeadersOfLine(x: string, words: seq<string>, p: nat)
    requires words != [] && OneLine(x) && p <= |x|
    ensures Headers(x, words, p) == if p == 0 && HeaderAt(x, words, 0).Some? then [HeaderAt(x, words, 0).value] else []
    decreases |x| - p
  {
    hide MatchWords, Blanks;
    if p < |x| {
      HeadersOfLine(x, words, p + 1);
    }
  }

  ghost predicate NoHeader(x: string, words: seq<string>)
    requires words != []
  {
    OneLine(x) && HeaderAt(x, words, 0) == None
  }

  lemma {:induction false} NoHeaders(ls: seq<string>, words: seq<string>)
    requires HeaderWords(words) && ls != [] && forall k :: 0 <= k < |ls| ==> NoHeader(ls[k], words)
    ensures Headers(Lined(ls), words, 0) == []
  {
    hide HeaderAt, Headers, OneLine;
    assert NoHeader(ls[0], words);
    HeadersOfLine(ls[0], words, 0);
    if |ls| > 1 {
      NoHeaders(ls[1..], words);
      HeadersAppend(ls[0], Lined(ls[1..]), words, 0);
    }
  }

  /** One header line among lines that are none. */
  lemma HeaderAmong(a: seq<string>, x: string, b: seq<string>, words: seq<string>)
    requires HeaderWords(words) && a != [] && b != [] && OneLine(x) && x != []
    requires forall k :: 0 <= k < |a| ==> NoHeader(a[k], words)
    requires forall k :: 0 <= k < |b| ==> NoHeader(b[k], words)
    requires HeaderAt(x, words, 0) == Some(|x| - 1)
    ensures Headers(Lined(a) + "\n" + (x + "\n" + Lined(b)), words, 0) == [|Lined(a)| + |x|]
  {
    hide HeaderAt, Headers, OneLine, Lined;
    NoHeaders(a, words);
    NoHeaders(b, words);
    HeadersOfLine(x, words, 0);
    HeadersAppend(x, Lined(b), words, 0);
    HeadersAppend(Lined(a), x + "\n" + Lined(b), words, 0);
  }

  // ---------------------------------------------------------------------------------------------
  // Balanced texts.

  /** A character that means nothing to any scan. */
  predicate Ordinary(c: char) {
    ' ' <= c <= 'z' && c != '#' && c != '"' && c != '\'' && c != '\\'
  }

  lemma {:induction false} OrdinaryIsBody(s: string)
    requires forall i :: 0 <= i < |s| ==> Ordinary(s[i]) || s[i] == '\n'
    ensures IsBody(s)
  {
    if s == [] {
      assert Balanced(End) && Print(End) == s;
    } else {
      OrdinaryIsBody(s[1..]);
      var b :| Balanced(b) && Print(b) == s[1..];
      assert Ordinary(s[0]) || s[0] == '\n';
      assert Balanced(Other(s[0], b)) && Print(Other(s[0], b)) == s;
    }
  }

  lemma {:induction false} BodyThen(b: Body, t: string) returns (c: Body)
    requires Balanced(b) && IsBody(t)
    ensures Balanced(c) && Print(c) == Print(b) + t
    decreases b
  {
    hide Print;
    PrintThen(b, t);
    match b
    case End =>
      c :| Balanced(c) && Print(c) == t;
    case Other(x, rest) =>
      var c' := BodyThen(rest, t);
      c := Other(x, c');
      PrintThen(c, []);
      NothingMore(Print(c), Print(c'));
    case Quoted(q, ps, rest) =>
      var c' := BodyThen(rest, t);
      c := Quoted(q, ps, c');
      PrintThen(c, []);
      NothingMore(Print(c), Print(c'));
    case Remark(text, rest) =>
      var c' := BodyThen(rest, t);
      c := Remark(text, c');
      PrintThen(c, []);
      NothingMore(Print(c), Print(c'));
    case Braces(inner, rest) =>
      var c' := BodyThen(rest, t);
      c := Braces(inner, c');
      PrintThen(c, []);
      NothingMore(Print(c), Print(c'));
  }

  lemma NothingMore(s: string, t: string)
    ensures s + [] == s && t + [] == t
  {
  }

  lemma BodiesAppend(s: string, t: string)
    requires IsBody(s) && IsBody(t)
    ensures IsBody(s + t)
  {
    var b :| Balanced(b) && Print(b) == s;
    var c := BodyThen(b, t);
  }

  lemma BracesAreBody(s: string)
    requires IsBody(s)
    ensures IsBody("{" + s + "}")
  {
    var b :| Balanced(b) && Print(b) == s;
    var c := Braces(b, End);
    assert Print(c) == "{" + s + "}" + Print(End) && Print(End) == [];
    NothingMore("{" + s + "}", s);
    assert Balanced(c);
  }

  /** The text of a block that holds, between two line breaks, a front and an inner block. */
  lemma BlockInBlock(front: string, inner: string)
    requires IsBody(inner) && forall i :: 0 <= i < |front| ==> Ordinary(front[i]) || front[i] == '\n'
    ensures IsBody(front + ("{" + inner + "}") + "\n")
  {
    hide IsBody;
    OrdinaryIsBody(front);
    OrdinaryIsBody("\n");
    BracesAreBody(inner);
    BodiesAppend(front, "{" + inner + "}");
    BodiesAppend(front + ("{" + inner + "}"), "\n");
  }

  // ---------------------------------------------------------------------------------------------
  // Counting.

  lemma TotalLined(x: string, y: string)
    ensures Total(x + "\n" + y) == Total(x) + Total(y)
  {
    hide OccursAt, NumIn, EndsUniquely;
    TrustedFacts();
    var s := x + "\n" + y;
    assert s[|x|] == '\n';
    forall j: nat | |x| - |TRUSTED| < j <= |x| ensures !OccursAt(s, TRUSTED, j) {
      if OccursAt(s, TRUSTED, j) {
        CharAt(s, TRUSTED, j, |x| - j);
      }
    }
    CountAround(x, "\n", y);
    NumInNone(s, TRUSTED, |x|, |x| + 1);
  }

  lemma TotalShort(x: string)
    requires |x| < |TRUSTED|
    ensures Total(x) == 0
  {
    NumInNone(x, TRUSTED, 0, |x| + |TRUSTED|);
  }

  lemma TotalTrusted()
    ensures Total(TRUSTED) == 1
  {
    hide NumIn;
    CountOriginal([], []);
    TrustedFacts();
    TotalShort([]);
    assert [] + TRUSTED + [] == TRUSTED;
  }

  // ---------------------------------------------------------------------------------------------
  // Two characters next to each other.

  ghost predicate PairFree(s: string, c: char, d: char) {
    forall i :: 0 <= i < |s| - 1 ==> s[i] != c || s[i + 1] != d
  }

  lemma PairFreeLined(x: string, y: string, c: char, d: char)
    requires PairFree(x, c, d) && PairFree(y, c, d) && c != '\n' && d != '\n'
    ensures PairFree(x + "\n" + y, c, d)
  {
    var s := x + "\n" + y;
    forall i | 0 <= i < |s| - 1 ensures s[i] != c || s[i + 1] != d {
      if i > |x| {
        assert s[i] == y[i - |x| - 1] && s[i + 1] == y[i - |x|];
      }
    }
  }

  // ---------------------------------------------------------------------------------------------
  // What a header and its block are.

  /** A line that starts at `p` holds, after blanks up to `q`, a header whose brace is at `i`. */
  ghost predicate HeaderLine(conf: string, words: seq<string>, p: nat, q: nat, i: nat)
    requires words != []
  {
    && p <= q <= i < |conf| && (p == 0 || conf[p - 1] == '\n')
    && (forall k :: p <= k < q ==> conf[k] == ' ' || conf[k] == '\t') && HeaderText(conf[q..i + 1], words)
  }

  ghost predicate IsHeader(conf: string, words: seq<string>, i: nat)
    requires words != []
  {
    exists p: nat, q: nat :: HeaderLine(conf, words, p, q, i)
  }

  ghost predicate PlainWords(words: seq<string>) {
    Words(words) && HeaderWords(words)
  }

  lemma BlanksBefore(s: string, n: nat)
    requires n < |s| && (forall k :: 0 <= k < n ==> Blank(s[k])) && !Blank(s[n])
    ensures Blanks(s) == n
  {
    BlanksOf(s[..n], s[n..]);
    assert s == s[..n] + s[n..];
  }

  lemma HeaderAtExactly(conf: string, words: seq<string>, p: nat, i: nat)
    requires PlainWords(words) && p <= |conf|
    ensures HeaderAt(conf, words, p) == Some(i) <==> exists q: nat :: HeaderLine(conf, words, p, q, i)
  {
    hide MatchWords, HeaderText, Blanks, OneLine;
    var q0 := p + Blanks(conf[p..]);
    if HeaderAt(conf, words, p) == Some(i) {
      BlanksAreBlank(conf[p..]);
      assert forall k :: p <= k < q0 ==> conf[k] == conf[p..][..q0 - p][k - p];
      MatchWordsExactly(conf[q0..], words, i + 1 - q0);
      assert conf[q0..][..i + 1 - q0] == conf[q0..i + 1];
      assert HeaderLine(conf, words, p, q0, i);
    }
    if exists q: nat :: HeaderLine(conf, words, p, q, i) {
      var q: nat :| HeaderLine(conf, words, p, q, i);
      HeaderStarts(conf[q..i + 1], words);
      assert conf[q..i + 1][0] == conf[q];
      assert forall k :: 0 <= k < q - p ==> conf[p..][k] == conf[p + k];
      BlanksBefore(conf[p..], q - p);
      assert q == q0;
      MatchWordsExactly(conf[q..], words, i + 1 - q);
      assert conf[q..][..i + 1 - q] == conf[q..i + 1];
    }
  }

  lemma {:induction false} HeaderTextLine(text: string, words: seq<string>)
    requires PlainWords(words) && HeaderText(text, words)
    ensures OneLine(text)
    decreases |words|
  {
    if |words| == 1 {
      var b :| All(Blank, b) && text == words[0] + b + "{";
    } else {
      var b, rest :| All(Blank, b) && b != [] && HeaderText(rest, words[1..]) && text == words[0] + b + rest;
      HeaderTextLine(rest, words[1..]);
    }
  }

  /** A header ends on the line on which it starts. */
  lemma HeaderStaysOnLine(conf: string, words: seq<string>, p: nat, q: nat, i: nat)
    requires PlainWords(words) && HeaderLine(conf, words, p, q, i)
    ensures forall k :: p <= k <= i ==> conf[k] != '\n'
  {
    hide HeaderText;
    HeaderTextLine(conf[q..i + 1], words);
    forall k | p <= k <= i ensures conf[k] != '\n' {
      if k >= q {
        assert conf[q..i + 1][k - q] == conf[k];
      }
    }
  }

  ghost predicate Increasing(r: seq<nat>) {
    forall a, b :: 0 <= a < b < |r| ==> r[a] < r[b]
  }

  /** The extractor's headers are all there are, each once and in order. */
  lemma {:induction false} HeadersExactly(conf: string, words: seq<string>, p: nat)
    requires PlainWords(words) && p <= |conf|
    ensures var r := Headers(conf, words, p);
            && (forall i: nat :: i in r <==> exists p': nat, q: nat :: p <= p' && HeaderLine(conf, words, p', q, i))
            && Increasing(r)
    decreases |conf| - p
  {
    hide HeaderAt, Headers, Listed, HeaderLine, PlainWords;
    WordsNotEmpty(words);
    UnfoldHeaders(conf, words, p);
    var here := HeaderAt(conf, words, p);
    var rest := if p == |conf| then [] else Headers(conf, words, p + 1);
    assert Headers(conf, words, p) == Listed(here) + rest;
    ListedIs(here, rest);
    if p < |conf| {
      HeadersExactly(conf, words, p + 1);
    }
    forall i: nat ensures i in Listed(here) + rest <==>
        exists p': nat, q: nat :: p <= p' && HeaderLine(conf, words, p', q, i) {
      HeaderAtExactly(conf, words, p, i);
      LineInside(conf, words, p, i);
    }
    if here.Some? && p < |conf| {
      forall k | 0 <= k < |rest| ensures here.value < rest[k] {
        assert rest[k] in rest;
        var p': nat, q: nat :| p + 1 <= p' && HeaderLine(conf, words, p', q, rest[k]);
        NextHeader(conf, words, p, here.value, p', q, rest[k]);
      }
    }
  }

  lemma WordsNotEmpty(words: seq<string>)
    requires PlainWords(words)
    ensures words != []
  {
  }

  lemma ListedIs(x: Option<nat>, xs: seq<nat>)
    ensures forall i: nat :: i in Listed(x) + xs <==> x == Some(i) || i in xs
    ensures x.Some? ==> Listed(x) + xs == [x.value] + xs
    ensures x.None? ==> Listed(x) + xs == xs
  {
  }

  lemma LineInside(conf: string, words: seq<string>, p: nat, i: nat)
    requires words != []
    ensures forall p': nat, q: nat :: HeaderLine(conf, words, p', q, i) ==> p' < |conf|
  {
  }

  lemma NextHeader(conf: string, words: seq<string>, p: nat, i: nat, p': nat, q': nat, i': nat)
    requires PlainWords(words) && p <= |conf| && HeaderAt(conf, words, p) == Some(i)
    requires p < p' && HeaderLine(conf, words, p', q', i')
    ensures i < i'
  {
    hide HeaderText, HeaderAt;
    HeaderAtExactly(conf, words, p, i);
    var q: nat :| HeaderLine(conf, words, p, q, i);
    HeaderStaysOnLine(conf, words, p, q, i);
  }

  /** The extractor finds a block if and only if it has the only header and a balanced body up to its closing brace. */
  lemma BlockExactly(conf: string, words: seq<string>, open: nat, close: nat)
    requires PlainWords(words)
    ensures words != []
    ensures FindBlock(conf, words) == Ok((open, close)) <==>
            && (forall i: nat :: IsHeader(conf, words, i) <==> i == open)
            && open < close < |conf| && conf[close] == '}' && IsBody(conf[open + 1..close])
  {
    hide Headers, Close, IsHeader, IsBody, Increasing;
    AllHeaders(conf, words);
    var r := Headers(conf, words, 0);
    OnlyOne(r, open);
    assert r == [open] <==> forall i: nat :: IsHeader(conf, words, i) <==> i == open;
    assert |r| == 1 ==> r == [r[0]];
    if r == [open] {
      assert r[0] == open && open < |conf|;
      var s := conf[open + 1..];
      if close > open {
        var k := close - open - 1;
        CloseExactly(s, k);
        assert k < |s| <==> close < |conf|;
        assert close < |conf| ==> s[..k] == conf[open + 1..close] && s[k] == conf[close];
      }
    }
  }

  lemma AllHeaders(conf: string, words: seq<string>)
    requires PlainWords(words)
    ensures words != []
    ensures forall i: nat :: i in Headers(conf, words, 0) <==> IsHeader(conf, words, i)
    ensures Increasing(Headers(conf, words, 0))
  {
    hide Headers, HeaderLine;
    HeadersExactly(conf, words, 0);
    forall i: nat ensures i in Headers(conf, words, 0) <==> IsHeader(conf, words, i) {
      if IsHeader(conf, words, i) {
        var p: nat, q: nat :| HeaderLine(conf, words, p, q, i);
        assert 0 <= p && HeaderLine(conf, words, p, q, i);
      }
    }
  }

  lemma OnlyOne(r: seq<nat>, x: nat)
    requires Increasing(r)
    ensures r == [x] <==> forall i: nat :: i in r <==> i == x
  {
    if forall i: nat :: i in r <==> i == x {
      assert x in r;
      assert |r| > 1 ==> r[0] in r && r[1] in r && r[0] < r[1];
    }
  }
}
