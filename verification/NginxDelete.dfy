/**
When the verifier rejects a configuration from which a trusted directive has been deleted. The text on
the two sides of the cut can make a new directive; then only the line with the cut is different.
*/
module NginxDelete {
  import opened Wrappers
  import opened Text
  import opened Occurrences
  import opened NginxServer
  import opened NginxBlocks
  import opened NginxVerifier
  import opened NginxProbe
  import opened NginxLines

  // ---------------------------------------------------------------------------------------------
  // The directive, alone and inside a copy of itself.

  /** The directive in front of whose character `k` a whole one stands. */
  function Enclosed(k: nat): string
    requires k <= |TRUSTED|
  {
    TRUSTED[..k] + TRUSTED + TRUSTED[k..]
  }

  /** A character that no scan reacts to. */
  predicate Mute(c: char) {
    !LineBreak(c) && c != '{' && c != '}' && c != '#' && c != '"' && c != '\'' && c != '\\'
  }

  /** A text that no scan reacts to and that cannot touch an opening or the marker. */
  ghost predicate Calm(x: string) {
    && x != [] && x[0] == 'p' && x[|x| - 1] == ';'
    && (forall i :: 0 <= i < |x| ==> Mute(x[i])) && PairFree(x, ' ', ' ')
  }

  /** A long such text, which no header and no limit can reach into. */
  ghost predicate Still(x: string) {
    Calm(x) && |x| >= |TRUSTED| && (x[1] == 'p' || x[1] == 'r') && Lacks(x, 'l')
  }

  lemma TrustedChars(k: nat)
    requires k < |TRUSTED|
    ensures Mute(TRUSTED[k]) && TRUSTED[k] != 'l'
  {
    var a, b, c := "proxy_set_header ", "X-Forwarded-For ", "$remote_addr;";
    assert TRUSTED == a + b + c;
    if k < 17 { assert TRUSTED[k] == a[k]; }
    else if k < 33 { assert TRUSTED[k] == b[k - 17]; }
    else { assert TRUSTED[k] == c[k - 33]; }
  }

  lemma TrustedSpaces(k: nat)
    requires k < |TRUSTED| - 1
    ensures TRUSTED[k] == ' ' ==> TRUSTED[k + 1] != ' '
  {
    var a, b, c := "proxy_set_header ", "X-Forwarded-For ", "$remote_addr;";
    assert TRUSTED == a + b + c;
    if k < 17 { assert TRUSTED[k] == a[k]; }
    else if k < 33 { assert TRUSTED[k] == b[k - 17]; }
    else { assert TRUSTED[k] == c[k - 33]; }
    assert TRUSTED[17] == b[0] && TRUSTED[33] == c[0];
  }

  lemma TrustedIsStill()
    ensures Still(TRUSTED)
  {
    hide Mute, EndsUniquely;
    TrustedFacts();
    assert TRUSTED[1] == 'r';
    forall k | 0 <= k < |TRUSTED| ensures Mute(TRUSTED[k]) && TRUSTED[k] != 'l' {
      TrustedChars(k);
    }
    forall k | 0 <= k < |TRUSTED| - 1 ensures TRUSTED[k] != ' ' || TRUSTED[k + 1] != ' ' {
      TrustedSpaces(k);
    }
  }

  lemma InsertedAt(t: string, k: nat, i: nat)
    requires k <= |t| && i < 2 * |t|
    ensures (t[..k] + t + t[k..])[i] == t[if i < k then i else if i < k + |t| then i - k else i - |t|]
  {
  }

  /** A text like this stays one when it is inserted into itself. */
  lemma InsertedIsStill(t: string, k: nat)
    requires Still(t) && 0 < k < |t|
    ensures Still(t[..k] + t + t[k..])
  {
    hide Mute;
    var s, n := t[..k] + t + t[k..], |t|;
    InsertedAt(t, k, 0);
    InsertedAt(t, k, 1);
    InsertedAt(t, k, 2 * n - 1);
    forall i | 0 <= i < |s| ensures Mute(s[i]) && s[i] != 'l' {
      InsertedAt(t, k, i);
    }
    forall i | 0 <= i < |s| - 1 ensures s[i] != ' ' || s[i + 1] != ' ' {
      InsertedAt(t, k, i);
      InsertedAt(t, k, i + 1);
    }
  }

  lemma EnclosedIsStill(k: nat)
    requires 0 < k < |TRUSTED|
    ensures Still(Enclosed(k)) && |Enclosed(k)| == 2 * |TRUSTED|
  {
    hide Still;
    TrustedIsStill();
    InsertedIsStill(TRUSTED, k);
  }

  // ---------------------------------------------------------------------------------------------
  // The server block.

  lemma ApartStill(a: string, x: string, c: string)
    requires Calm(x)
    ensures Apart(a, x, c, OPENING) && Apart(a, x, c, MARKER)
  {
    hide OccursAt, EndsUniquely, Mute, PairFree;
    forall j: nat | OccursAt(a + x + c, OPENING, j) ensures j + |OPENING| <= |a| || j >= |a| + |x| {
      StillNoOpening(a, x, c, j);
    }
    forall j: nat | OccursAt(a + x + c, MARKER, j) ensures j + |MARKER| <= |a| || j >= |a| + |x| {
      StillNoMarker(a, x, c, j);
    }
  }

  lemma StillNoOpening(a: string, x: string, c: string, j: nat)
    requires Calm(x)
    ensures OccursAt(a + x + c, OPENING, j) ==> j + |OPENING| <= |a| || j >= |a| + |x|
  {
    hide OccursAt, PairFree;
    OpeningFacts();
    var s := a + x + c;
    if |a| <= j < |a| + |x| {
      CharOfMiddle(a, x, c, j - |a|);
      assert Mute(x[j - |a|]);
      if OccursAt(s, OPENING, j) {
        CharAt(s, OPENING, j, 0);
      }
    } else if j < |a| < j + |OPENING| {
      CharOfMiddle(a, x, c, 0);
      if OccursAt(s, OPENING, j) {
        CharAt(s, OPENING, j, |a| - j);
      }
    }
  }

  lemma StillNoMarker(a: string, x: string, c: string, j: nat)
    requires Calm(x)
    ensures OccursAt(a + x + c, MARKER, j) ==> j + |MARKER| <= |a| || j >= |a| + |x|
  {
    hide OccursAt, Mute, EndsUniquely;
    MarkerFacts();
    var s := a + x + c;
    assert MARKER[0] == ' ' && MARKER[1] == ' ';
    if |a| <= j < |a| + |x| {
      CharOfMiddle(a, x, c, j - |a|);
      if j + 1 < |a| + |x| {
        CharOfMiddle(a, x, c, j + 1 - |a|);
      }
      if OccursAt(s, MARKER, j) {
        CharAt(s, MARKER, j, 1);
        CharAt(s, MARKER, j, 0);
      }
    } else if j < |a| < j + |MARKER| {
      CharOfMiddle(a, x, c, 0);
      if OccursAt(s, MARKER, j) {
        CharAt(s, MARKER, j, |a| - j);
      }
    }
  }

  // ---------------------------------------------------------------------------------------------
  // Headers and braces.

  lemma StillStops(x: string, r: string, b: nat)
    requires Still(x) && b < |LOCATIONS|
    ensures HeaderWords(LOCATIONS[b].header) && Stops(x + r, LOCATIONS[b].header)
  {
    hide Mute, PairFree;
    TrustedFacts();
    var z := x + r;
    assert z[0] == 'p' && z[1] == x[1] && |z| > 1;
    assert LOCATIONS[0].header == ["location", "=", "/health"] && LOCATIONS[1].header == ["location", "/api/"];
    assert LOCATIONS[2].header == ["location", "/uploads/"] && LOCATIONS[3].header == ["location", "/"];
  }

  /** Positions that no line starts at hold no header. */
  lemma {:induction false} HeadersSkip(s: string, words: seq<string>, p: nat, q: nat)
    requires words != [] && 0 < p <= q <= |s| && forall i :: p - 1 <= i < q - 1 ==> s[i] != '\n'
    ensures Headers(s, words, p) == Headers(s, words, q)
    decreases q - p
  {
    hide MatchWords, Blanks, Headers;
    if p < q {
      UnfoldHeaders(s, words, p);
      HeadersSkip(s, words, p + 1, q);
    }
  }

  /** The headers of `y` that do not start at its beginning. */
  function Later(y: string, words: seq<string>): seq<nat>
    requires words != []
  {
    if y == [] then [] else Headers(y, words, 1)
  }

  lemma HeadersAround(l: string, x: string, r: string, b: nat)
    requires Still(x) && b < |LOCATIONS|
    ensures LOCATIONS[b].header != []
    ensures var words := LOCATIONS[b].header;
            Headers(l + x + r, words, 0) == Headers(l, words, 0) + ShiftAll(|l| + |x|, Later(r, words))
  {
    hide Headers, HeaderAt, OneLine, PairFree, Stops, ShiftAll;
    StillStops(x, r, b);
    var words, s, d := LOCATIONS[b].header, l + x + r, |l| + |x|;
    assert s == l + (x + r);
    HeadersFront(l, x + r, words, 0);
    forall i | |l| <= i < d ensures s[i] != '\n' {
      assert s[i] == x[i - |l|] && Mute(x[i - |l|]);
    }
    if r == [] {
      HeadersSkip(s, words, |l| + 1, d);
      UnfoldHeaders(s, words, d);
      NoHeaderAt(s, words, d);
      ShiftNone(d);
    } else {
      HeadersSkip(s, words, |l| + 1, d + 1);
      HeadersBack(l + x, r, words, 1);
    }
  }

  lemma NoHeaderAt(s: string, words: seq<string>, p: nat)
    requires words != [] && 0 < p <= |s| && s[p - 1] != '\n'
    ensures HeaderAt(s, words, p) == None
  {
  }

  /** Reading a text that no scan reacts to only ends an escape. */
  function Unescaped(l: Lexical): Lexical {
    if l.Quote? then Quote(l.mark, false) else l
  }

  ghost predicate ScanState(l: Lexical) {
    l.Quote? ==> l.mark == '"' || l.mark == '\''
  }

  lemma {:induction false} OverMute(l: Lexical, depth: int, x: string, t: string)
    requires ScanState(l) && x != [] && forall i :: 0 <= i < |x| ==> Mute(x[i])
    ensures Close(l, depth, x + t) == Shift(|x|, Close(Unescaped(l), depth, t))
    decreases |x|
  {
    hide Close, LineBreak;
    var c, rest := x[0], x[1..];
    assert x + t == [c] + (rest + t) && Mute(c);
    BreakIsBreak();
    UnfoldClose(l, depth, c, rest + t);
    if rest == [] {
      assert rest + t == t;
    } else {
      OverMute(Unescaped(l), depth, rest, t);
    }
  }

  lemma {:induction false} CloseSplit(l: Lexical, depth: int, u: string, t: string)
    requires ScanState(l)
    ensures ScanState(StateAfter(l, u))
    ensures Close(l, depth, u + t) ==
            if Close(l, depth, u).Some? then Close(l, depth, u)
            else Shift(|u|, Close(StateAfter(l, u), DepthAfter(l, depth, u), t))
    decreases |u|
  {
    hide Close;
    if u == [] {
      assert u + t == t;
      CloseNil(l, depth);
    } else {
      var c, rest := u[0], u[1..];
      assert u == [c] + rest && u + t == [c] + (rest + t);
      UnfoldClose(l, depth, c, rest);
      UnfoldClose(l, depth, c, rest + t);
      CloseSplit(Step(l, c), Depth(l, depth, c), rest, t);
    }
  }

  lemma CloseAround(u: string, x: string, r: string)
    requires Still(x)
    ensures Close(Plain, 1, u + x + r) ==
            if Close(Plain, 1, u).Some? then Close(Plain, 1, u)
            else Shift(|u| + |x|, Close(Unescaped(StateAfter(Plain, u)), DepthAfter(Plain, 1, u), r))
  {
    hide Close, Still, StateAfter, DepthAfter, Unescaped, Shift;
    var st, depth := StateAfter(Plain, u), DepthAfter(Plain, 1, u);
    Associated(u, x, r);
    CloseSplit(Plain, 1, u, x + r);
    OverStill(st, depth, x, r);
    ShiftTwice(|u|, |x|, Close(Unescaped(st), depth, r));
  }

  lemma ShiftTwice(m: nat, n: nat, r: Option<nat>)
    ensures Shift(m, Shift(n, r)) == Shift(m + n, r)
  {
  }

  lemma OverStill(l: Lexical, depth: int, x: string, t: string)
    requires ScanState(l) && Still(x)
    ensures Close(l, depth, x + t) == Shift(|x|, Close(Unescaped(l), depth, t))
  {
    hide Close, Mute, PairFree;
    OverMute(l, depth, x, t);
  }

  lemma Associated(u: string, x: string, r: string)
    ensures u + x + r == u + (x + r)
  {
  }

  /** Where a position goes when `x` behind `l` becomes `y`. */
  function Past(l: string, x: string, y: string, p: nat): int {
    if p < |l| then p else p - |x| + |y|
  }

  lemma BlockAt(s: string, words: seq<string>, open: nat, rest: string)
    requires words != [] && Headers(s, words, 0) == [open] && open < |s| && rest == s[open + 1..]
    ensures var k := Close(Plain, 1, rest);
            FindBlock(s, words) == if k.None? then Err(NotClosed) else Ok((open, open + 1 + k.value))
  {
    hide Headers, Close;
  }

  /** A block keeps its braces, moved along with the text, when one such text becomes another. */
  lemma BlockMoves(l: string, x: string, y: string, r: string, b: nat)
    requires Still(x) && Still(y) && b < |LOCATIONS| && LOCATIONS[b].header != []
    requires FindBlock(l + x + r, LOCATIONS[b].header).Ok?
    ensures var (open, close) := FindBlock(l + x + r, LOCATIONS[b].header).value;
            && (open < |l| || open >= |l| + |x|) && (close < |l| || close >= |l| + |x|)
            && FindBlock(l + y + r, LOCATIONS[b].header) == Ok((Past(l, x, y, open), Past(l, x, y, close)))
  {
    hide Close, Headers, Still, StateAfter, DepthAfter, FindBlock;
    var words := LOCATIONS[b].header;
    HeadersAround(l, x, r, b);
    HeadersAround(l, y, r, b);
    OnlyHeader(l + x + r, words);
    if |Headers(l, words, 0)| == 1 {
      var open := Headers(l, words, 0)[0];
      assert Later(r, words) == [];
      BlockAt(l + x + r, words, open, l[open + 1..] + x + r);
      BlockAt(l + y + r, words, open, l[open + 1..] + y + r);
      CloseAround(l[open + 1..], x, r);
      CloseAround(l[open + 1..], y, r);
    } else {
      assert Headers(l, words, 0) == [];
      var h := Later(r, words)[0];
      BlockAt(l + x + r, words, |l| + |x| + h, r[h + 1..]);
      BlockAt(l + y + r, words, |l| + |y| + h, r[h + 1..]);
    }
  }

  lemma OnlyHeader(s: string, words: seq<string>)
    requires words != [] && FindBlock(s, words).Ok?
    ensures |Headers(s, words, 0)| == 1
  {
  }

  // ---------------------------------------------------------------------------------------------
  // The line with the directive.

  lemma {:induction false} LinesJoin(breaks: char -> bool, u: string, w: string)
    ensures var a, b := Lines(breaks, u), Lines(breaks, w);
            Lines(breaks, u + w) == JoinedLines(a, b)
  {
    var b := Lines(breaks, w);
    if u == [] {
      assert u + w == w && [] + b[0] == b[0];
      assert b == [b[0]] + b[1..];
    } else {
      assert (u + w)[0] == u[0] && (u + w)[1..] == u[1..] + w;
      LinesJoin(breaks, u[1..], w);
      JoinStep(Lines(breaks, u[1..]), b, u[0]);
    }
  }

  /** The last of `a` and the first of `b` become one. */
  function JoinedLines(a: seq<string>, b: seq<string>): seq<string>
    requires a != [] && b != []
  {
    a[..|a| - 1] + [a[|a| - 1] + b[0]] + b[1..]
  }

  lemma JoinStep(a: seq<string>, b: seq<string>, c: char)
    requires a != [] && b != []
    ensures JoinedLines([[]] + a, b) == [[]] + JoinedLines(a, b)
    ensures var j := JoinedLines(a, b); JoinedLines([[c] + a[0]] + a[1..], b) == [[c] + j[0]] + j[1..]
  {
    if |a| == 1 {
      assert [[c] + a[0]] + a[1..] == [[c] + a[0]];
      assert [c] + a[0] + b[0] == [c] + (a[0] + b[0]);
    } else {
      var a' := [[c] + a[0]] + a[1..];
      assert a'[..|a'| - 1] == [[c] + a[0]] + a[1..|a| - 1] && a[..|a| - 1] == [a[0]] + a[1..|a| - 1];
    }
  }

  /** The lines around a text without breaks do not depend on it. */
  lemma LinesAround(breaks: char -> bool, u: string, m: string, v: string)
    requires breaks('\n') && forall i :: 0 <= i < |m| ==> !breaks(m[i])
    ensures var a, b := Lines(breaks, u), Lines(breaks, v);
            Lines(breaks, u + m + v) == a[..|a| - 1] + [a[|a| - 1] + m + b[0]] + b[1..]
  {
    hide Lines;
    LinesCons(breaks, m, []);
    LinesJoin(breaks, m, v);
    assert u + m + v == u + (m + v);
    LinesJoin(breaks, u, m + v);
    var a, b := Lines(breaks, u), Lines(breaks, v);
    assert [m][..0] == [] && a[|a| - 1] + (m + b[0]) == a[|a| - 1] + m + b[0];
  }

  lemma DirectivesAround(u: string, m: string, v: string)
    requires Still(m)
    ensures var a, b := Lines(LineBreak, u), Lines(LineBreak, v);
            Directives(u + m + v) ==
            DirectivesOf(a[..|a| - 1]) + DirectivesOf([a[|a| - 1] + m + b[0]]) + DirectivesOf(b[1..])
  {
    hide Lines, DirectivesOf, PairFree, LineBreak;
    BreakIsBreak();
    assert forall i :: 0 <= i < |m| ==> Mute(m[i]);
    LinesAround(LineBreak, u, m, v);
    var a, b := Lines(LineBreak, u), Lines(LineBreak, v);
    DirectivesSum(a[..|a| - 1] + [a[|a| - 1] + m + b[0]], b[1..]);
    DirectivesSum(a[..|a| - 1], [a[|a| - 1] + m + b[0]]);
  }

  /** What the verifier keeps of a line that holds the text. */
  lemma LineKept(x: string, m: string, y: string)
    requires Still(m)
    ensures var front := TrimStart(PySpace, x);
            && DirectivesOf([x + m + y]) ==
               (if front == [] || front[0] != '#' then [front + m + TrimEnd(PySpace, y)] else [])
            && (front == [] <==> All(PySpace, x))
  {
    hide TrimStart, TrimEnd, Trim, PairFree, Mute;
    DirectiveEdges();
    TrimAround(PySpace, x, m, y);
    TrimStartFront(PySpace, x, m);
    var line := x + m + y;
    assert [line][1..] == [];
  }

  lemma {:induction false} ForwardingSum(a: seq<string>, b: seq<string>)
    ensures Forwarding(a + b) == Forwarding(a) + Forwarding(b)
  {
    if a == [] {
      assert a + b == b;
    } else {
      assert (a + b)[1..] == a[1..] + b;
      ForwardingSum(a[1..], b);
    }
  }

  lemma OneForwarding(z: string)
    ensures Forwarding([z]) == if FORWARDED <= z then [z] else []
  {
    assert [z][1..] == [];
  }

  lemma ForwardedHasOneP(i: nat)
    requires 0 < i < |FORWARDED|
    ensures FORWARDED[i] != 'p'
  {
    var a, b := "proxy_set_header ", "X-Forwarded-For ";
    if i < 17 { assert FORWARDED[i] == a[i]; } else { assert FORWARDED[i] == b[i - 17]; }
  }

  /** Behind other text the directive does not make a line a forwarding one. */
  lemma ForwardingFront(front: string, m: string, back: string)
    requires Still(m) && front != []
    ensures FORWARDED <= front + m + back <==> FORWARDED <= front
  {
    hide Mute, PairFree;
    var z := front + m + back;
    if |front| < |FORWARDED| {
      ForwardedHasOneP(|front|);
      assert z[|front|] == 'p';
    } else {
      assert z[..|FORWARDED|] == front[..|FORWARDED|];
    }
  }

  ghost predicate Counted(ls: seq<string>, proxy: string) {
    Number(ls, proxy) == 1 && Number(ls, REAL_IP) == 1 && Number(ls, TRUSTED) == 1 && Number(ls, PROTO) == 1
  }

  lemma NumberAmong(a: seq<string>, d: seq<string>, b: seq<string>, x: string)
    requires |d| <= 1 && (|d| == 1 ==> d[0] != x)
    ensures Number(a + d + b, x) == Number(a + b, x)
  {
    NumberSum(a + d, b, x);
    NumberSum(a, d, x);
    NumberSum(a, b, x);
    if d == [] {
      assert a + d == a;
    } else {
      assert d == [d[0]] && d[1..] == [];
    }
  }

  /** A line longer than every directive that is asked for changes no count. */
  lemma CountsAmong(a: seq<string>, d: seq<string>, b: seq<string>, proxy: string)
    requires |d| <= 1 && (|d| == 1 ==> |d[0]| > |TRUSTED|) && (proxy == BACKEND || proxy == FRONTEND)
    ensures Counted(a + d + b, proxy) <==> Counted(a + b, proxy)
  {
    hide Number, EndsUniquely;
    TrustedFacts();
    NumberAmong(a, d, b, proxy);
    NumberAmong(a, d, b, REAL_IP);
    NumberAmong(a, d, b, TRUSTED);
    NumberAmong(a, d, b, PROTO);
  }

  lemma ForwardingAmong(a: seq<string>, d: seq<string>, b: seq<string>)
    ensures Forwarding(a + d + b) == Forwarding(a) + Forwarding(d) + Forwarding(b)
    ensures Forwarding(a + b) == Forwarding(a) + Forwarding(b)
  {
    ForwardingSum(a + d, b);
    ForwardingSum(a, d);
    ForwardingSum(a, b);
  }

  /** Of two such texts on one line, behind other text, one passes when the other does. */
  lemma LaterOnLine(a: seq<string>, d: seq<string>, d': seq<string>, b: seq<string>, proxy: string)
    requires DirectivesOk(a + d + b, proxy) && (proxy == BACKEND || proxy == FRONTEND)
    requires |d| <= 1 && (|d| == 1 ==> |d[0]| > |TRUSTED|) && |d'| <= 1 && (|d'| == 1 ==> |d'[0]| > |TRUSTED|)
    requires Forwarding(d) == [] <==> Forwarding(d') == []
    requires Forwarding(d) == [] || (d != [] && Forwarding(d) == [d[0]])
    ensures DirectivesOk(a + d' + b, proxy)
  {
    hide Number, Forwarding;
    CountsAmong(a, d, b, proxy);
    CountsAmong(a, d', b, proxy);
    ForwardingAmong(a, d, b);
    ForwardingAmong(a, d', b);
    if Forwarding(d) != [] {
      NotAmong(Forwarding(a), d[0], Forwarding(b));
    }
  }

  lemma NotAmong(a: seq<string>, z: string, b: seq<string>)
    requires z != TRUSTED
    ensures a + [z] + b != [TRUSTED]
  {
    assert (a + [z] + b)[|a|] == z;
  }

  /** First on its line the directive is one too many. */
  lemma FirstOnLineFails(a: seq<string>, d: seq<string>, z: string, b: seq<string>, proxy: string)
    requires DirectivesOk(a + d + b, proxy) && |d| <= 1 && (|d| == 1 ==> |d[0]| > |TRUSTED|) && FORWARDED <= z
    ensures !DirectivesOk(a + [z] + b, proxy)
  {
    hide Number, Forwarding;
    ForwardingAmong(a, d, b);
    ForwardingAmong(a, [z], b);
    OneForwarding(z);
    if d != [] {
      assert d == [d[0]];
      OneForwarding(d[0]);
      NotAmong(Forwarding(a), d[0], Forwarding(b));
    } else {
      NoForwarding();
    }
    assert |Forwarding(a) + [z] + Forwarding(b)| == 2;
  }

  lemma NoForwarding()
    ensures Forwarding([]) == []
  {
  }

  /** A block that passes with the directive inside a copy of itself, and what becomes of it. */
  lemma LineDecides(a: seq<string>, x: string, k: nat, y: string, b: seq<string>, proxy: string)
    requires 0 < k < |TRUSTED| && (proxy == BACKEND || proxy == FRONTEND)
    requires DirectivesOk(a + DirectivesOf([x + Enclosed(k) + y]) + b, proxy)
    ensures DirectivesOk(a + DirectivesOf([x + TRUSTED + y]) + b, proxy) <==> !All(PySpace, x)
  {
    hide DirectivesOk, DirectivesOf, Still, Enclosed, Trim, TrimStart, TrimEnd, Forwarding, All;
    TrustedIsStill();
    EnclosedIsStill(k);
    LineKept(x, TRUSTED, y);
    LineKept(x, Enclosed(k), y);
    var front, back := TrimStart(PySpace, x), TrimEnd(PySpace, y);
    var d, d' := DirectivesOf([x + Enclosed(k) + y]), DirectivesOf([x + TRUSTED + y]);
    if front == [] {
      assert front + TRUSTED + back == TRUSTED + back;
      assert FORWARDED <= TRUSTED + back by { assert (TRUSTED + back)[..|FORWARDED|] == FORWARDED; }
      FirstOnLineFails(a, d, TRUSTED + back, b, proxy);
    } else {
      ForwardingFront(front, TRUSTED, back);
      ForwardingFront(front, Enclosed(k), back);
      OneForwarding(front + TRUSTED + back);
      OneForwarding(front + Enclosed(k) + back);
      NoForwarding();
      LaterOnLine(a, d, d', b, proxy);
    }
  }

  // ---------------------------------------------------------------------------------------------
  // The blocks.

  lemma {:induction false} LastLineStart(breaks: char -> bool, u: string) returns (q: nat)
    ensures q <= |u| && (forall i :: q <= i < |u| ==> !breaks(u[i]))
    ensures var a := Lines(breaks, u);
            u[q..] == a[|a| - 1] && if |a| == 1 then q == 0 else 0 < q && breaks(u[q - 1])
  {
    if u == [] {
      q := 0;
    } else {
      var q' := LastLineStart(breaks, u[1..]);
      var a := Lines(breaks, u[1..]);
      if !breaks(u[0]) && |a| == 1 {
        q := 0;
        assert u[0..] == [u[0]] + u[1..][0..];
        assert Lines(breaks, u) == [[u[0]] + a[0]];
      } else {
        q := q' + 1;
        assert u[q..] == u[1..][q'..];
        assert forall i :: q <= i < |u| ==> u[i] == u[1..][i - 1];
      }
    }
  }

  /** Between a line start and the end of `u` there is only whitespace. */
  ghost predicate EndsBlank(u: string) {
    exists q: nat :: q <= |u| && (q == 0 || LineBreak(u[q - 1])) && All(PySpace, u[q..])
  }

  lemma LastLineBlank(u: string)
    ensures var a := Lines(LineBreak, u); All(PySpace, a[|a| - 1]) <==> EndsBlank(u)
  {
    hide Lines, LineBreak, PySpace;
    var q0 := LastLineStart(LineBreak, u);
    if EndsBlank(u) {
      var q: nat :| q <= |u| && (q == 0 || LineBreak(u[q - 1])) && All(PySpace, u[q..]);
      assert q <= q0;
      assert forall i :: 0 <= i < |u[q0..]| ==> u[q0..][i] == u[q..][q0 - q + i];
    }
  }

  /** Position `i` lies in block `b`, and in that block's text only whitespace precedes it on its line. */
  ghost predicate FirstInBlock(server: string, b: nat, i: nat)
    requires b < |LOCATIONS|
  {
    LocationFacts();
    var block := FindBlock(server, LOCATIONS[b].header);
    block.Ok? && block.value.0 < i < block.value.1 && EndsBlank(server[block.value.0 + 1..i])
  }

  lemma LocationDecides(l: string, k: nat, r: string, b: nat)
    requires 0 < k < |TRUSTED| && b < |LOCATIONS| && LOCATIONS[b].header != []
    requires LocationOk(l + Enclosed(k) + r, LOCATIONS[b])
    ensures LocationOk(l + TRUSTED + r, LOCATIONS[b]) <==> !FirstInBlock(l + Enclosed(k) + r, b, |l|)
  {
    hide FindBlock, Directives, DirectivesOk, DirectivesOf, Lines, Still, Enclosed, EndsBlank;
    TrustedIsStill();
    EnclosedIsStill(k);
    var x := Enclosed(k);
    BlockMoves(l, x, TRUSTED, r, b);
    var (open, close) := FindBlock(l + x + r, LOCATIONS[b].header).value;
    if open < |l| && close >= |l| + |x| {
      var u, v := l[open + 1..], r[..close - |l| - |x|];
      MiddleSlice(l, x, r, open + 1, close);
      MiddleSlice(l, TRUSTED, r, open + 1, close - |x| + |TRUSTED|);
      FrontSlice(l, x, r, open + 1);
      DirectivesAround(u, x, v);
      DirectivesAround(u, TRUSTED, v);
      LastLineBlank(u);
      var p, q := Lines(LineBreak, u), Lines(LineBreak, v);
      LocationProxies(b);
      LineDecides(DirectivesOf(p[..|p| - 1]), p[|p| - 1], k, q[0], DirectivesOf(q[1..]), LOCATIONS[b].proxy);
    } else if close < |l| {
      LeftSlice(l, x, TRUSTED, r, open + 1, close);
    } else {
      RightSlice(l, x, TRUSTED, r, open + 1 - |l| - |x|, close - |l| - |x|);
    }
  }

  lemma FrontSlice(l: string, x: string, r: string, lo: nat)
    requires lo <= |l|
    ensures (l + x + r)[lo..|l|] == l[lo..]
  {
  }

  lemma LocationProxies(b: nat)
    requires b < |LOCATIONS|
    ensures LOCATIONS[b].proxy == BACKEND || LOCATIONS[b].proxy == FRONTEND
  {
  }

  // ---------------------------------------------------------------------------------------------
  // The other checks.

  lemma ChainApart(l: string, r: string)
    ensures Apart(l, TRUSTED, r, CHAIN)
  {
    hide OccursAt, EndsUniquely;
    TrustedFacts();
    ChainFacts();
    var s := l + TRUSTED + r;
    forall j: nat | OccursAt(s, CHAIN, j) ensures j + |CHAIN| <= |l| || j >= |l| + |TRUSTED| {
      if |l| <= j < |l| + |TRUSTED| {
        ChainNotInside(l, r, j);
        assert false;
      }
      if j < |l| < j + |CHAIN| {
        ChainNotAcross(l, r, j);
        assert false;
      }
    }
  }

  lemma TrustedDollar(i: nat)
    requires i < |TRUSTED|
    ensures TRUSTED[i] == '$' ==> i == 33
  {
    var a, b, c := "proxy_set_header ", "X-Forwarded-For ", "$remote_addr;";
    assert TRUSTED == a + b + c;
    if i < 17 { assert TRUSTED[i] == a[i]; }
    else if i < 33 { assert TRUSTED[i] == b[i - 17]; }
    else { assert TRUSTED[i] == c[i - 33]; }
  }

  lemma ChainNotInside(l: string, r: string, j: nat)
    requires |l| <= j < |l| + |TRUSTED|
    ensures !OccursAt(l + TRUSTED + r, CHAIN, j)
  {
    hide OccursAt, EndsUniquely;
    TrustedFacts();
    ChainFacts();
    var s := l + TRUSTED + r;
    assert CHAIN[0] == '$' && CHAIN[1] == 'p' && TRUSTED[34] == 'r';
    CharOfMiddle(l, TRUSTED, r, j - |l|);
    CharOfMiddle(l, TRUSTED, r, 34);
    if OccursAt(s, CHAIN, j) {
      CharAt(s, CHAIN, j, 0);
      TrustedDollar(j - |l|);
      CharAt(s, CHAIN, j, 1);
    }
  }

  lemma ChainNotAcross(l: string, r: string, j: nat)
    requires j < |l| < j + |CHAIN|
    ensures !OccursAt(l + TRUSTED + r, CHAIN, j)
  {
    hide OccursAt, EndsUniquely;
    TrustedFacts();
    ChainFacts();
    var s := l + TRUSTED + r;
    assert CHAIN[7] == 'a' && TRUSTED[6] == 's';
    assert forall i :: 0 <= i < |CHAIN| && CHAIN[i] == 'p' ==> i == 1;
    CharOfMiddle(l, TRUSTED, r, 0);
    CharOfMiddle(l, TRUSTED, r, 6);
    if OccursAt(s, CHAIN, j) {
      CharAt(s, CHAIN, j, |l| - j);
      CharAt(s, CHAIN, j, 7);
    }
  }

  lemma NoNewChain(l: string, x: string, r: string)
    requires !Contains(l + x + r, CHAIN)
    ensures !Contains(l + TRUSTED + r, CHAIN)
  {
    hide OccursAt;
    ChainFacts();
    ChainApart(l, r);
    forall j: nat ensures !OccursAt(l + TRUSTED + r, CHAIN, j) {
      if OccursAt(l + TRUSTED + r, CHAIN, j) {
        ApartAt(l, TRUSTED, r, CHAIN, j);
        OccurrencesMove(l, TRUSTED, x, r, CHAIN, j);
        OccursInside(l + x + r, CHAIN, Moved(l, TRUSTED, x, |CHAIN|, j));
      }
    }
  }

  /** A limit's first word: it starts with l and has no p. */
  ghost predicate LimitWord(w: string) {
    w != [] && w[0] == 'l' && Lacks(w, 'p')
  }

  lemma LimitWords()
    ensures LimitWord("limit_req") && LimitWord("limit_conn")
  {
  }

  lemma LimitApart(l: string, x: string, r: string, w: string)
    requires Still(x) && LimitWord(w)
    ensures Apart(l, x, r, w)
  {
    hide OccursAt, PairFree, LineBreak;
    var s := l + x + r;
    forall j: nat | OccursAt(s, w, j) ensures j + |w| <= |l| || j >= |l| + |x| {
      if |l| <= j < |l| + |x| {
        CharOfMiddle(l, x, r, j - |l|);
        CharAt(s, w, j, 0);
        assert false;
      }
      if j < |l| < j + |w| {
        CharOfMiddle(l, x, r, 0);
        CharAt(s, w, j, |l| - j);
        assert false;
      }
    }
  }

  /** A limit at `q` whose line, but for whitespace, starts at `p`. */
  ghost predicate LimitAt(s: string, w: string, p: nat, q: nat) {
    p <= q <= |s| && LineStart(s, p) && All(PySpace, s[p..q]) && WordAt(s, w, q)
  }

  lemma LimitMoves(l: string, x: string, y: string, r: string, w: string, p: nat, q: nat)
    requires Still(x) && Still(y) && LimitWord(w) && LimitAt(l + x + r, w, p, q)
    ensures if q < |l| then LimitAt(l + y + r, w, p, q)
            else p > |l| + |x| && LimitAt(l + y + r, w, p - |x| + |y|, q - |x| + |y|)
  {
    hide OccursAt, PairFree, LineBreak, PySpace;
    var s, t := l + x + r, l + y + r;
    LimitApart(l, x, r, w);
    ApartAt(l, x, r, w, q);
    OccurrencesMove(l, x, y, r, w, q);
    OccursInside(s, w, q);
    if q < |l| {
      LeftSlice(l, x, y, r, p, q);
      assert q + |w| <= |l| && t[q + |w|] == s[q + |w|];
    } else {
      LimitLine(l, x, r, p, q);
      RightSlice(l, x, y, r, p - |l| - |x|, q - |l| - |x|);
      assert t[p - |x| + |y| - 1] == s[p - 1];
      assert q + |w| < |s| ==> t[q + |w| - |x| + |y|] == s[q + |w|];
    }
  }

  lemma LimitLine(l: string, x: string, r: string, p: nat, q: nat)
    requires Still(x) && |l| + |x| <= q <= |l + x + r| && p <= q
    requires LineStart(l + x + r, p) && All(PySpace, (l + x + r)[p..q])
    ensures p > |l| + |x|
  {
    hide Still, All;
    var s := l + x + r;
    if p <= |l| {
      StillStart(l, x, r);
      NotSpaced(s, p, q, |l|);
      assert false;
    } else if p <= |l| + |x| {
      StillHasNoBreak(l, x, r, p - 1);
      assert false;
    }
  }

  lemma StillStart(l: string, x: string, r: string)
    requires Still(x)
    ensures |x| > 0 && !PySpace((l + x + r)[|l|])
  {
    hide PairFree, Mute;
    DirectiveEdges();
    assert (l + x + r)[|l|] == x[0];
  }

  lemma NotSpaced(s: string, p: nat, q: nat, i: nat)
    requires p <= i < q <= |s| && !PySpace(s[i])
    ensures !All(PySpace, s[p..q])
  {
    hide PySpace;
    assert s[p..q][i - p] == s[i];
  }

  lemma StillHasNoBreak(l: string, x: string, r: string, i: nat)
    requires Still(x) && |l| <= i < |l| + |x|
    ensures (l + x + r)[i] != '\n'
  {
    hide PairFree;
    assert (l + x + r)[i] == x[i - |l|] && Mute(x[i - |l|]);
  }

  lemma NoNewLimit(l: string, x: string, y: string, r: string)
    requires Still(x) && Still(y) && !HasLimit(l + x + r)
    ensures !HasLimit(l + y + r)
  {
    hide Still, WordAt, LineStart, All;
    LimitWords();
    var s, t := l + x + r, l + y + r;
    if HasLimit(t) {
      var p, q :| 0 <= p <= q <= |t| && LineStart(t, p) && All(PySpace, t[p..q])
                  && (WordAt(t, "limit_req", q) || WordAt(t, "limit_conn", q));
      LimitMoves(l, y, x, r, if WordAt(t, "limit_req", q) then "limit_req" else "limit_conn", p, q);
    }
  }

  lemma ProxyLinesAround(l: string, x: string, r: string)
    requires Still(x)
    ensures var a, b := Lines(NewLine, l), Lines(NewLine, r);
            ProxyLines(Lines(NewLine, l + x + r)) == ProxyLines(a[..|a| - 1]) + ProxyLines(b[1..])
  {
    hide Lines, ProxyLines, PairFree, LineBreak;
    BreakIsBreak();
    assert forall i :: 0 <= i < |x| ==> Mute(x[i]);
    LinesAround(NewLine, l, x, r);
    var a, b := Lines(NewLine, l), Lines(NewLine, r);
    var line := a[|a| - 1] + x + b[0];
    ProxyLinesSum(a[..|a| - 1] + [line], b[1..]);
    ProxyLinesSum(a[..|a| - 1], [line]);
    NoProxy(a[|a| - 1], x, b[0]);
  }

  lemma NoProxy(u: string, x: string, v: string)
    requires Still(x)
    ensures ProxyLines([u + x + v]) == 0
  {
    hide TrimStart, TrimEnd, Trim, PairFree, Mute, EndsUniquely;
    TrustedFacts();
    DirectiveEdges();
    TrimAround(PySpace, u, x, v);
    var line := u + x + v;
    assert [line][1..] == [];
  }

  lemma TotalHead(l: string, k: nat)
    requires k < |TRUSTED|
    ensures Total(l + TRUSTED[..k]) == Total(l)
  {
    hide OccursAt, NumIn;
    TrustedFacts();
    var m, n := TRUSTED[..k], |TRUSTED|;
    var s := l + m + [];
    assert s == l + m;
    forall j: nat | |l| - n < j < |l| + k ensures !OccursAt(s, TRUSTED, j) {
      assert j + n - 1 < |s| ==> s[j + n - 1] == TRUSTED[j + n - 1 - |l|];
      if OccursAt(s, TRUSTED, j) {
        CharAt(s, TRUSTED, j, n - 1);
      }
    }
    CountAround(l, m, []);
    NumInNone(s, TRUSTED, |l|, |l| + k);
    TotalShort([]);
  }

  lemma TotalTail(k: nat, r: string)
    requires 0 < k < |TRUSTED|
    ensures Total(TRUSTED[k..] + r) == Total(r)
  {
    hide OccursAt, NumIn;
    TrustedFacts();
    var m, n := TRUSTED[k..], |TRUSTED|;
    var s := [] + m + r;
    assert s == m + r;
    assert s[n - k - 1] == TRUSTED[n - 1];
    forall j: nat | j < n - k ensures !OccursAt(s, TRUSTED, j) {
      if OccursAt(s, TRUSTED, j) {
        CharAt(s, TRUSTED, j, n - k - 1 - j);
      }
    }
    CountAround([], m, r);
    NumInNone(s, TRUSTED, 0, n - k);
    TotalShort([]);
  }

  lemma SameTotal(l: string, k: nat, r: string)
    requires 0 < k < |TRUSTED|
    ensures Total(l + Enclosed(k) + r) == Total(l + TRUSTED + r)
  {
    hide Total;
    TotalHead(l, k);
    TotalTail(k, r);
    CountOriginal(l + TRUSTED[..k], TRUSTED[k..] + r);
    CountOriginal(l, r);
    Spread(l, TRUSTED[..k], TRUSTED, TRUSTED[k..], r);
  }

  lemma Spread(l: string, a: string, t: string, c: string, r: string)
    ensures l + (a + t + c) + r == (l + a) + t + (c + r)
  {
  }

  // ---------------------------------------------------------------------------------------------
  // The verdict.

  lemma CountIsTotal(s: string)
    ensures TRUSTED != [] && Count(s, TRUSTED) == Total(s)
  {
    hide NumIn, CountFrom;
    TrustedFacts();
    CountsAll(s, TRUSTED, 0);
  }

  lemma ServerDecides(l: string, k: nat, r: string)
    requires 0 < k < |TRUSTED| && ServerOk(l + Enclosed(k) + r)
    ensures ServerOk(l + TRUSTED + r) <==>
            forall b :: 0 <= b < |LOCATIONS| ==> !FirstInBlock(l + Enclosed(k) + r, b, |l|)
  {
    hide LocationOk, HasLimit, ProxyLines, Contains, CountFrom, Lines, Total, FirstInBlock, Enclosed, Still,
         EndsUniquely;
    LocationFacts();
    TrustedIsStill();
    EnclosedIsStill(k);
    var x := Enclosed(k);
    NoNewChain(l, x, r);
    NoNewLimit(l, x, TRUSTED, r);
    ProxyLinesAround(l, x, r);
    ProxyLinesAround(l, TRUSTED, r);
    CountIsTotal(l + x + r);
    CountIsTotal(l + TRUSTED + r);
    SameTotal(l, k, r);
    forall b | 0 <= b < |LOCATIONS|
      ensures LocationOk(l + TRUSTED + r, LOCATIONS[b]) <==> !FirstInBlock(l + x + r, b, |l|)
    {
      LocationDecides(l, k, r, b);
    }
  }

  lemma StillServerMoves(a: string, x: string, y: string, c: string)
    requires Still(x) && Still(y) && Within(a, x, c)
    ensures var (start, end) := Server(a + x + c).value;
            Server(a + y + c) == Some((start, end - |x| + |y|)) && start < |a|
  {
    hide OccursAt, Mute, PairFree, Server, Apart, EndsUniquely;
    TrustedFacts();
    OpeningFacts();
    ApartStill(a, x, c);
    ApartStill(a, y, c);
    ServerMoves(a, x, y, c);
  }

  /** Deleting the directive at `o` joins the text on its two sides to a new one at `j`. */
  ghost predicate Joins(conf: string, o: nat, j: nat) {
    o + |TRUSTED| <= |conf| && j < o < j + |TRUSTED| && OccursAt(Replace(conf, o, |TRUSTED|, []), TRUSTED, j)
  }

  lemma JoinedText(conf: string, o: nat, j: nat)
    requires OccursAt(conf, TRUSTED, o) && Joins(conf, o, j)
    ensures var k, n := o - j, |TRUSTED|;
            && j + 2 * n <= |conf| && conf == conf[..j] + Enclosed(k) + conf[j + 2 * n..]
            && Replace(conf, o, n, []) == conf[..j] + TRUSTED + conf[j + 2 * n..]
  {
    var k, n, m := o - j, |TRUSTED|, Replace(conf, o, |TRUSTED|, []);
    FivePieces(conf, j, o, n);
    CutPieces(conf, j, o, n);
    Halves(m[j..j + n], k);
    assert conf[j..o] == TRUSTED[..k] && conf[o..o + n] == TRUSTED && conf[o + n..j + 2 * n] == TRUSTED[k..];
    Regrouped(conf[..j], TRUSTED[..k], TRUSTED, TRUSTED[k..], conf[j + 2 * n..]);
  }

  lemma FivePieces(s: string, j: nat, o: nat, n: nat)
    requires j <= o <= j + n && j + 2 * n <= |s|
    ensures s == s[..j] + s[j..o] + s[o..o + n] + s[o + n..j + 2 * n] + s[j + 2 * n..]
  {
  }

  lemma CutPieces(s: string, j: nat, o: nat, n: nat)
    requires j <= o <= j + n && j + 2 * n <= |s|
    ensures var m := Replace(s, o, n, []);
            && |m| == |s| - n && m[j..j + n] == s[j..o] + s[o + n..j + 2 * n]
            && m == s[..j] + m[j..j + n] + s[j + 2 * n..]
  {
    var m := Replace(s, o, n, []);
    assert m[..j] == s[..j] && m[j + n..] == s[j + 2 * n..];
    assert m[j..o] == s[j..o] && m[o..j + n] == s[o + n..j + 2 * n];
    assert m[j..j + n] == m[j..o] + m[o..j + n];
  }

  lemma Halves(t: string, k: nat)
    requires k <= |t|
    ensures forall a, b :: |a| == k && t == a + b ==> a == t[..k] && b == t[k..]
  {
  }

  lemma Regrouped(l: string, a: string, t: string, c: string, r: string)
    ensures l + a + t + c + r == l + (a + t + c) + r
  {
  }

  /** Position `i` is first on its line in one of the four blocks. */
  ghost predicate FirstInSomeBlock(server: string, i: nat) {
    exists b :: 0 <= b < |LOCATIONS| && FirstInBlock(server, b, i)
  }

  /** Position `j` lies in the apex server block and is first on its line in one of the four blocks. */
  ghost predicate FirstInApex(conf: string, j: nat) {
    && Server(conf).Some?
    && var (start, end) := Server(conf).value;
       start <= j && start <= end <= |conf| && FirstInSomeBlock(conf[start..end], j - start)
  }

  lemma JoinedVerdict(conf: string, o: nat, j: nat)
    requires Accepts(conf) && OccursAt(conf, TRUSTED, o) && InServer(conf, o) && Joins(conf, o, j)
    ensures !Accepts(Replace(conf, o, |TRUSTED|, [])) <==> FirstInApex(conf, j)
  {
    hide OccursAt, Server, ServerOk, Enclosed, FirstInBlock, Still;
    JoinedText(conf, o, j);
    var k, n := o - j, |TRUSTED|;
    var a, x, c := conf[..j], Enclosed(k), conf[j + 2 * n..];
    TrustedIsStill();
    EnclosedIsStill(k);
    InsideServer(conf, o, a, x, c);
    StillServerMoves(a, x, TRUSTED, c);
    SliceInside(conf);
    var (start, end) := Server(conf).value;
    MiddleSlice(a, x, c, start, end);
    MiddleSlice(a, TRUSTED, c, start, end - |x| + n);
    ServerDecides(a[start..], k, c[..end - |a| - |x|]);
  }

  /** With the directive in it, the whole text around it is in the server block. */
  lemma InsideServer(conf: string, o: nat, a: string, x: string, c: string)
    requires Still(x) && conf == a + x + c && InServer(conf, o) && |a| < o && o + |TRUSTED| < |a| + |x|
    ensures Within(a, x, c)
  {
    hide OccursAt, Server, Calm, Apart, EndsUniquely;
    TrustedFacts();
    OpeningFacts();
    var marker := ServerSlice(conf);
    SliceParts(conf, marker);
    ApartStill(a, x, c);
    ApartAt(a, x, c, OPENING, Server(conf).value.0);
    ApartAt(a, x, c, OPENING, Server(conf).value.1);
  }

  /** Deleting the directive at `o` makes a second marker. */
  ghost predicate JoinsMarker(conf: string, o: nat) {
    o + |TRUSTED| <= |conf| &&
    exists j: nat :: j < o < j + |MARKER| && OccursAt(Replace(conf, o, |TRUSTED|, []), MARKER, j)
  }

  /** In a text without `x`, a pattern that does not lie across the cut was there before. */
  lemma WasThere(a: string, x: string, c: string, p: string, j: nat)
    requires p != [] && OccursAt(a + [] + c, p, j) && (j + |p| <= |a| || j >= |a|)
    ensures OccursAt(a + x + c, p, if j + |p| <= |a| then j else j + |x|)
  {
    hide OccursAt;
    OccurrencesMove(a, [], x, c, p, j);
  }

  lemma SliceBefore(a: string, c: string, marker: nat, start: nat, end: nat)
    requires Slice(a + TRUSTED + c, marker, start, end) && end + |OPENING| <= |a|
    requires forall j: nat :: j < |a| < j + |MARKER| ==> !OccursAt(a + [] + c, MARKER, j)
    ensures Slice(a + [] + c, marker, start, end)
  {
    hide OccursAt, EndsUniquely, DirectiveText;
    TrustedIsDirective();
    ApartMarker(a, TRUSTED, c);
    ApartAt(a, TRUSTED, c, MARKER, marker);
    MarkerFacts();
    OpeningFacts();
    MarkerBeforeEnd(a + TRUSTED + c, marker, start, end);
    var s := a + [] + c;
    OccurrencesMove(a, TRUSTED, [], c, MARKER, marker);
    OccurrencesMove(a, TRUSTED, [], c, OPENING, start);
    OccurrencesMove(a, TRUSTED, [], c, OPENING, end);
    forall j: nat | OccursAt(s, MARKER, j) ensures j == marker {
      WasThere(a, TRUSTED, c, MARKER, j);
    }
    forall j: nat | OccursAt(s, OPENING, j) && j <= end ensures OccursAt(a + TRUSTED + c, OPENING, j) {
      if j + |OPENING| <= |a| {
        WasThere(a, TRUSTED, c, OPENING, j);
      }
    }
  }

  lemma MarkerBeforeEnd(conf: string, marker: nat, start: nat, end: nat)
    requires Slice(conf, marker, start, end)
    ensures start < marker <= end
  {
    OpeningFacts();
  }

  lemma SliceBehind(a: string, c: string, marker: nat, start: nat, end: nat)
    requires Slice(a + TRUSTED + c, marker, start, end) && |a| + |TRUSTED| <= start
    requires forall j: nat :: j < |a| < j + |MARKER| ==> !OccursAt(a + [] + c, MARKER, j)
    ensures var n := |TRUSTED|; n <= start < marker <= end && Slice(a + [] + c, marker - n, start - n, end - n)
  {
    hide OccursAt, EndsUniquely;
    MarkerFacts();
    OpeningFacts();
    MarkerBeforeEnd(a + TRUSTED + c, marker, start, end);
    var s, n := a + [] + c, |TRUSTED|;
    OccurrencesMove(a, TRUSTED, [], c, MARKER, marker);
    OccurrencesMove(a, TRUSTED, [], c, OPENING, start);
    OccurrencesMove(a, TRUSTED, [], c, OPENING, end);
    forall j: nat | OccursAt(s, MARKER, j) ensures j == marker - n {
      WasThere(a, TRUSTED, c, MARKER, j);
    }
    forall j: nat | OccursAt(s, OPENING, j) && j > start - n ensures OccursAt(a + TRUSTED + c, OPENING, j + n) {
      WasThere(a, TRUSTED, c, OPENING, j);
    }
  }

  /** Outside of the apex server block, deleting a directive is rejected exactly when it makes a second marker. */
  lemma DeleteOutside(conf: string, o: nat)
    requires Accepts(conf) && OccursAt(conf, TRUSTED, o) && !InServer(conf, o)
    ensures o + |TRUSTED| <= |conf| && (!Accepts(Replace(conf, o, |TRUSTED|, [])) <==> JoinsMarker(conf, o))
  {
    hide OccursAt, ServerOk, Server, Slice, DirectiveText, EndsUniquely;
    Around(conf, o);
    TrustedFacts();
    var a, c, n := conf[..o], conf[o + |TRUSTED|..], |TRUSTED|;
    var mutant := a + [] + c;
    var marker := ServerSlice(conf);
    SliceParts(conf, marker);
    SliceInside(conf);
    TrustedIsDirective();
    ApartOpening(a, TRUSTED, c);
    var (start, end) := Server(conf).value;
    ApartAt(a, TRUSTED, c, OPENING, start);
    ApartAt(a, TRUSTED, c, OPENING, end);
    assert mutant == Replace(conf, o, n, []) && |a| == o;
    if JoinsMarker(conf, o) {
      TwoMarkers(conf, o, marker);
      return;
    }
    forall j: nat | j < |a| < j + |MARKER| ensures !OccursAt(mutant, MARKER, j) {
      assert !(j < o < j + |MARKER| && OccursAt(Replace(conf, o, n, []), MARKER, j));
    }
    if end + |OPENING| <= |a| {
      SliceBefore(a, c, marker, start, end);
      ServerIs(mutant, marker, start, end);
      LeftSlice(a, TRUSTED, [], c, start, end);
    } else {
      SliceBehind(a, c, marker, start, end);
      ServerIs(mutant, marker - n, start - n, end - n);
      RightSlice(a, TRUSTED, [], c, start - o - n, end - o - n);
    }
  }

  lemma TwoMarkers(conf: string, o: nat, marker: nat)
    requires OccursAt(conf, TRUSTED, o) && OccursAt(conf, MARKER, marker) && JoinsMarker(conf, o)
    ensures !Accepts(Replace(conf, o, |TRUSTED|, []))
  {
    hide OccursAt, ServerOk, Server, Slice, DirectiveText, EndsUniquely;
    Around(conf, o);
    MarkerFacts();
    TrustedIsDirective();
    var a, c := conf[..o], conf[o + |TRUSTED|..];
    var mutant := a + [] + c;
    ApartMarker(a, TRUSTED, c);
    ApartAt(a, TRUSTED, c, MARKER, marker);
    OccurrencesMove(a, TRUSTED, [], c, MARKER, marker);
    if Accepts(mutant) {
      var marker' := ServerSlice(mutant);
      SliceParts(mutant, marker');
    }
  }

  /**
  Deleting a directive is rejected if and only if, in the apex server block, it makes no new one at the
  cut or one that is first on its line in one of the four blocks; and outside of it, if it makes a second
  marker.
  */
  lemma DeleteRejectedExactly(conf: string, o: nat)
    requires Accepts(conf) && OccursAt(conf, TRUSTED, o)
    ensures o + |TRUSTED| <= |conf|
    ensures !Accepts(Replace(conf, o, |TRUSTED|, [])) <==>
            if InServer(conf, o) then LeavesNone(conf, o) || exists j: nat :: Joins(conf, o, j) && FirstInApex(conf, j)
            else JoinsMarker(conf, o)
  {
    hide OccursAt, Accepts, InServer, FirstInApex, JoinsMarker;
    Around(conf, o);
    if !InServer(conf, o) {
      DeleteOutside(conf, o);
    } else if LeavesNone(conf, o) {
      DeleteRejected(conf, o);
    } else {
      var j: nat :| j < o < j + |TRUSTED| && OccursAt(Replace(conf, o, |TRUSTED|, []), TRUSTED, j);
      JoinedVerdict(conf, o, j);
      forall i: nat | Joins(conf, o, i) ensures i == j {
        OneJoint(conf, o, i, j);
      }
    }
  }

  lemma OneJoint(conf: string, o: nat, i: nat, j: nat)
    requires Joins(conf, o, i) && Joins(conf, o, j)
    ensures i == j
  {
    hide OccursAt, EndsUniquely;
    TrustedFacts();
    if i != j {
      NoSelfOverlap(Replace(conf, o, |TRUSTED|, []), TRUSTED, if i < j then i else j, if i < j then j else i);
    }
  }

  /** Deleting a directive that is first on its line in the apex server block is always rejected. */
  lemma FirstOnLineRejected(conf: string, o: nat)
    requires Accepts(conf) && OccursAt(conf, TRUSTED, o) && InServer(conf, o) && FirstOnLine(conf, o)
    ensures o + |TRUSTED| <= |conf| && !Accepts(Replace(conf, o, |TRUSTED|, []))
  {
    hide OccursAt, Accepts, InServer, FirstOnLine;
    Around(conf, o);
    forall j: nat | j < o < j + |TRUSTED| ensures !OccursAt(Replace(conf, o, |TRUSTED|, []), TRUSTED, j) {
      NoFrontBefore(conf, o, j);
      FrontOf(conf, o, j);
    }
    DeleteRejected(conf, o);
  }
}
