/** Deleting or duplicating the line of a required directive in one of the four blocks. */
module NginxLineMutants {
  import opened Wrappers
  import opened Text
  import opened Occurrences
  import opened NginxServer
  import opened NginxBlocks
  import opened NginxVerifier
  import opened NginxProbe
  import opened NginxLines
  import opened NginxDelete
  import opened NginxNested
  import opened NginxRequired

  // ---------------------------------------------------------------------------------------------
  // A line of its own.

  /** Between the beginning of `v` and the end of a line there is only whitespace. */
  ghost predicate StartsBlank(v: string) {
    exists q: nat :: q <= |v| && (q == |v| || LineBreak(v[q])) && All(PySpace, v[..q])
  }

  /** In block `b`, whose braces are at `open` and `close`, the directive `d` at `e` has a line of its own. */
  ghost predicate OwnLine(server: string, b: nat, d: string, e: nat) {
    var block := FindBlock(server, HeaderOf(b));
    && block.Ok? && block.value.0 < e && e + |d| <= block.value.1 && OccursAt(server, d, e)
    && EndsBlank(server[block.value.0 + 1..e]) && StartsBlank(server[e + |d|..block.value.1])
  }

  lemma {:induction false} FirstLineEnd(breaks: char -> bool, v: string) returns (q: nat)
    ensures q <= |v| && (q == |v| || breaks(v[q])) && v[..q] == Lines(breaks, v)[0]
    ensures forall i :: 0 <= i < q ==> !breaks(v[i])
  {
    if v == [] || breaks(v[0]) {
      q := 0;
    } else {
      var q' := FirstLineEnd(breaks, v[1..]);
      q := q' + 1;
      assert v[..q] == [v[0]] + v[1..][..q'];
      assert forall i :: 0 < i < q ==> v[i] == v[1..][i - 1];
    }
  }

  lemma FirstLineBlank(v: string)
    ensures StartsBlank(v) <==> All(PySpace, Lines(LineBreak, v)[0])
  {
    hide PySpace, LineBreak, Lines;
    var q0 := FirstLineEnd(LineBreak, v);
    if StartsBlank(v) {
      var q: nat :| q <= |v| && (q == |v| || LineBreak(v[q])) && All(PySpace, v[..q]);
      assert q0 <= q;
      assert forall i :: 0 <= i < q0 ==> v[..q0][i] == v[..q][i];
    }
  }

  lemma {:induction false} BlankIsTrimmed(s: string)
    requires All(PySpace, s)
    ensures Trim(PySpace, s) == [] && TrimStart(PySpace, s) == [] && TrimEnd(PySpace, s) == []
  {
    hide PySpace;
    if s != [] {
      BlankIsTrimmed(s[1..]);
      assert s[0] == s[..1][0];
      BlankEnd(s);
    }
  }

  lemma {:induction false} BlankEnd(s: string)
    requires All(PySpace, s)
    ensures TrimEnd(PySpace, s) == []
    decreases |s|
  {
    hide PySpace;
    if s != [] {
      BlankEnd(s[..|s| - 1]);
    }
  }

  /** A line with nothing but the directive and whitespace is the directive. */
  lemma BlankAround(x: string, d: string, y: string)
    requires Calm(d) && All(PySpace, x) && All(PySpace, y)
    ensures DirectivesOf([x + d + y]) == [d]
  {
    hide Trim, TrimStart, TrimEnd, Mute, PairFree, PySpace;
    DirectiveEdges();
    BlankIsTrimmed(x);
    BlankIsTrimmed(y);
    TrimAround(PySpace, x, d, y);
    assert [] + d + [] == d;
    assert [x + d + y][1..] == [];
  }

  lemma BlankLine(x: string)
    requires All(PySpace, x)
    ensures DirectivesOf([x]) == []
  {
    hide Trim;
    BlankIsTrimmed(x);
    assert [x][1..] == [];
  }

  // ---------------------------------------------------------------------------------------------
  // The required directives.

  lemma RequiredIsCalm(b: nat, i: nat)
    requires b < 4 && i < 4
    ensures Calm(Required(b)[i])
  {
    hide Quiet, Calm, EndsUniquely;
    TrustedFacts();
    LocationsAre(b);
    LocationProxies(b);
    QuietProxies();
    QuietRealIp();
    QuietForwarded();
    QuietIsCalm(BACKEND);
    QuietIsCalm(FRONTEND);
    QuietIsCalm(REAL_IP);
    QuietIsCalm(TRUSTED);
    QuietIsCalm(PROTO);
  }

  lemma QuietIsCalm(x: string)
    requires Quiet(x) && x != [] && x[0] == 'p' && x[|x| - 1] == ';'
    ensures Calm(x)
  {
    QuietPairs(x);
    hide PairFree, QuietPair;
    forall i | 0 <= i < |x| ensures Mute(x[i]) {
      assert Ordinary(x[i]);
    }
  }

  lemma HeaderIsPlain(b: nat)
    requires b < 4
    ensures PlainWords(HeaderOf(b))
  {
  }

  // ---------------------------------------------------------------------------------------------
  // The block of the mutant.

  /** A header in `l` stays one whatever follows `l`. */
  lemma HeaderStays(l: string, z: string, z': string, words: seq<string>, i: nat)
    requires words != [] && i < |l|
    ensures IsHeader(l + z, words, i) ==> IsHeader(l + z', words, i)
  {
    hide HeaderText;
    if IsHeader(l + z, words, i) {
      var p: nat, q: nat :| HeaderLine(l + z, words, p, q, i);
      assert (l + z)[q..i + 1] == l[q..i + 1] == (l + z')[q..i + 1];
      assert forall k :: 0 <= k <= i ==> (l + z)[k] == l[k] == (l + z')[k];
      assert HeaderLine(l + z', words, p, q, i);
    }
  }

  /** If the mutant has the block at all, it starts at the same brace. */
  lemma SameOpen(l: string, z: string, z': string, b: nat)
    requires b < 4 && FindBlock(l + z, HeaderOf(b)).Ok? && FindBlock(l + z', HeaderOf(b)).Ok?
    requires FindBlock(l + z, HeaderOf(b)).value.0 < |l|
    ensures FindBlock(l + z', HeaderOf(b)).value.0 == FindBlock(l + z, HeaderOf(b)).value.0
  {
    hide FindBlock, IsHeader, IsBody;
    var words := HeaderOf(b);
    HeaderIsPlain(b);
    var (open, close) := FindBlock(l + z, words).value;
    var (open', close') := FindBlock(l + z', words).value;
    BlockExactly(l + z, words, open, close);
    BlockExactly(l + z', words, open', close');
    HeaderStays(l, z, z', words, open);
  }

  /** How a scan over `u`, the directive or `y`, and `r` goes. */
  lemma ScanOver(u: string, d: string, y: string, r: string, k: nat, k': nat)
    requires Calm(d) && '}' !in y && |u| <= k
    requires Close(Plain, 1, u + (d + r)) == Some(k) && Close(Plain, 1, u + (y + r)) == Some(k')
    ensures var st, depth := StateAfter(Plain, u), DepthAfter(Plain, 1, u);
            && ScanState(st) && |u| + |d| <= k && |u| + |y| <= k'
            && Close(Unescaped(st), depth, r) == Some(k - |u| - |d|)
            && Close(StateAfter(st, y), DepthAfter(st, depth, y), r) == Some(k' - |u| - |y|)
  {
    hide Close, StateAfter, DepthAfter, Calm, Unescaped;
    var st, depth := StateAfter(Plain, u), DepthAfter(Plain, 1, u);
    CloseSplit(Plain, 1, u, d + r);
    CloseSplit(Plain, 1, u, y + r);
    CloseBound(u);
    OverCalm(st, depth, d, r);
    CloseSplit(st, depth, y, r);
    NoBrace(st, depth, y);
  }

  lemma CloseBound(u: string)
    ensures Close(Plain, 1, u).Some? ==> Close(Plain, 1, u).value < |u|
  {
  }

  /** The block of the mutant ends as the scan behind `y` says. */
  lemma MutantBlock(l: string, d: string, y: string, r: string, b: nat)
    requires b < 4 && Calm(d) && '}' !in y && OwnLine(l + d + r, b, d, |l|)
    requires FindBlock(l + y + r, HeaderOf(b)).Ok?
    ensures var (open, close) := FindBlock(l + d + r, HeaderOf(b)).value;
            var (open', close') := FindBlock(l + y + r, HeaderOf(b)).value;
            && open < |l| && |l| + |d| <= close
            && var u := l[open + 1..];
               var st, depth := StateAfter(Plain, u), DepthAfter(Plain, 1, u);
               && ScanState(st) && open' == open && |l| + |y| <= close'
               && Close(Unescaped(st), depth, r) == Some(close - |l| - |d|)
               && Close(StateAfter(st, y), DepthAfter(st, depth, y), r) == Some(close' - |l| - |y|)
  {
    hide Close, StateAfter, DepthAfter, Calm, EndsBlank, StartsBlank, FindBlock, OwnLine, Unescaped, HeaderOf;
    var words := HeaderOf(b);
    HeaderNotEmpty(b);
    BlanksOfOwnLine(l, d, r, b);
    Associated(l, d, r);
    Associated(l, y, r);
    SameOpen(l, d + r, y + r, b);
    var (open, close) := FindBlock(l + d + r, words).value;
    var (_, close') := FindBlock(l + y + r, words).value;
    var u := l[open + 1..];
    SuffixAround(l, d + r, open);
    SuffixAround(l, y + r, open);
    FoundAt(l + d + r, words, u + (d + r));
    FoundAt(l + y + r, words, u + (y + r));
    ScanOver(u, d, y, r, close - open - 1, close' - open - 1);
  }

  lemma HeaderNotEmpty(b: nat)
    ensures HeaderOf(b) != []
  {
  }

  lemma SuffixAround(l: string, z: string, open: nat)
    requires open < |l|
    ensures (l + z)[open + 1..] == l[open + 1..] + z
  {
  }

  lemma OverCalm(l: Lexical, depth: int, d: string, r: string)
    requires ScanState(l) && Calm(d)
    ensures Close(l, depth, d + r) == Shift(|d|, Close(Unescaped(l), depth, r))
  {
    hide Close, Mute, PairFree;
    OverMute(l, depth, d, r);
  }

  lemma FoundAt(s: string, words: seq<string>, rest: string)
    requires words != [] && FindBlock(s, words).Ok? && rest == s[FindBlock(s, words).value.0 + 1..]
    ensures var (open, close) := FindBlock(s, words).value; Close(Plain, 1, rest) == Some(close - open - 1)
  {
    hide Close, Headers;
  }

  lemma {:induction false} NoBrace(l: Lexical, depth: int, s: string)
    requires '}' !in s
    ensures Close(l, depth, s) == None
    decreases |s|
  {
    hide Close;
    if s == [] {
      CloseNil(l, depth);
    } else {
      assert s == [s[0]] + s[1..] && s[0] in s;
      UnfoldClose(l, depth, s[0], s[1..]);
      NoBrace(Step(l, s[0]), Depth(l, depth, s[0]), s[1..]);
    }
  }

  lemma {:induction false} StateAtEnd(l: Lexical, u: string, c: char)
    ensures StateAfter(l, u + [c]) == Step(StateAfter(l, u), c)
    decreases |u|
  {
    if u == [] {
      assert u + [c] == [c] && [c][1..] == [];
    } else {
      assert (u + [c])[0] == u[0] && (u + [c])[1..] == u[1..] + [c];
      StateAtEnd(Step(l, u[0]), u[1..], c);
    }
  }

  /** After whitespace nothing is escaped. */
  lemma NotEscaped(u: string)
    requires EndsBlank(u)
    ensures Unescaped(StateAfter(Plain, u)) == StateAfter(Plain, u)
  {
    if u != [] {
      var q: nat :| q <= |u| && (q == 0 || LineBreak(u[q - 1])) && All(PySpace, u[q..]);
      var c := u[|u| - 1];
      assert c != '\\' by { assert q < |u| ==> u[q..][|u| - 1 - q] == c; }
      assert u == u[..|u| - 1] + [c];
      StateAtEnd(Plain, u[..|u| - 1], c);
    }
  }

  // ---------------------------------------------------------------------------------------------
  // Counting the directive.

  function Init(a: seq<string>): seq<string>
    requires a != []
  {
    a[..|a| - 1]
  }

  lemma CountAlone(u: string, d: string, v: string)
    requires Calm(d) && EndsBlank(u) && StartsBlank(v)
    ensures Number(Directives(u + d + v), d) ==
            Number(DirectivesOf(Init(Lines(LineBreak, u))), d) + 1 + Number(DirectivesOf(Lines(LineBreak, v)[1..]), d)
  {
    hide Lines, DirectivesOf, Number, Mute, PairFree, EndsBlank, StartsBlank, All;
    var a, b := Lines(LineBreak, u), Lines(LineBreak, v);
    LastLineBlank(u);
    FirstLineBlank(v);
    CalmLines(u, d, v);
    BlankAround(a[|a| - 1], d, b[0]);
    NumberThree(DirectivesOf(Init(a)), [d], DirectivesOf(b[1..]), d);
    OneNumber(d);
  }

  lemma CalmLines(u: string, d: string, v: string)
    requires Calm(d)
    ensures var a, b := Lines(LineBreak, u), Lines(LineBreak, v);
            Directives(u + d + v) ==
            DirectivesOf(Init(a)) + DirectivesOf([a[|a| - 1] + d + b[0]]) + DirectivesOf(b[1..])
  {
    hide Lines, DirectivesOf, PairFree, LineBreak;
    BreakIsBreak();
    assert forall i :: 0 <= i < |d| ==> Mute(d[i]);
    LinesAround(LineBreak, u, d, v);
    var a, b := Lines(LineBreak, u), Lines(LineBreak, v);
    DirectivesSum(Init(a) + [a[|a| - 1] + d + b[0]], b[1..]);
    DirectivesSum(Init(a), [a[|a| - 1] + d + b[0]]);
  }

  lemma NumberThree(a: seq<string>, b: seq<string>, c: seq<string>, x: string)
    ensures Number(a + b + c, x) == Number(a, x) + Number(b, x) + Number(c, x)
  {
    NumberSum(a + b, c, x);
    NumberSum(a, b, x);
  }

  lemma OneNumber(d: string)
    ensures Number([d], d) == 1
  {
    assert [d][1..] == [];
  }

  /** Without the directive its line is blank. */
  lemma CountDeleted(u: string, v: string, d: string)
    requires EndsBlank(u) && StartsBlank(v) && d != []
    ensures Number(Directives(u + v), d) ==
            Number(DirectivesOf(Init(Lines(LineBreak, u))), d) + Number(DirectivesOf(Lines(LineBreak, v)[1..]), d)
  {
    hide Lines, DirectivesOf, Number, EndsBlank, StartsBlank, All;
    var a, b := Lines(LineBreak, u), Lines(LineBreak, v);
    LastLineBlank(u);
    FirstLineBlank(v);
    LinesJoin(LineBreak, u, v);
    BothBlank(a[|a| - 1], b[0]);
    BlankLine(a[|a| - 1] + b[0]);
    DirectivesSum(Init(a) + [a[|a| - 1] + b[0]], b[1..]);
    DirectivesSum(Init(a), [a[|a| - 1] + b[0]]);
    assert DirectivesOf(Init(a)) + [] == DirectivesOf(Init(a));
    NumberSum(DirectivesOf(Init(a)), DirectivesOf(b[1..]), d);
  }

  lemma BothBlank(x: string, y: string)
    requires All(PySpace, x) && All(PySpace, y)
    ensures All(PySpace, x + y)
  {
  }

  /** Twice, on two lines, it is counted twice. */
  lemma CountDuplicated(u: string, d: string, v: string)
    requires Calm(d) && EndsBlank(u) && StartsBlank(v)
    ensures Number(Directives(u + (d + "\n" + d) + v), d) >= 2
  {
    hide Lines, DirectivesOf, Number, Mute, PairFree, EndsBlank, StartsBlank, All, LineBreak;
    var u', v' := u + d + "\n", "\n" + (d + v);
    assert u + (d + "\n" + d) + v == u' + d + v && u + (d + "\n" + d) + v == u + d + v';
    BlankEdges();
    EndsWithBreak(u + d);
    CountAlone(u', d, v);
    DirectiveBefore(u, d);
  }

  lemma BlankEdges()
    ensures LineBreak('\n')
  {
  }

  lemma EndsWithBreak(x: string)
    ensures EndsBlank(x + "\n")
  {
    var u := x + "\n";
    assert u[|u|..] == [] && LineBreak(u[|u| - 1]);
  }

  /** Before the break there is the directive. */
  lemma DirectiveBefore(u: string, d: string)
    requires Calm(d) && EndsBlank(u)
    ensures Number(DirectivesOf(Init(Lines(LineBreak, u + d + "\n"))), d) >= 1
  {
    hide Lines, DirectivesOf, Number, Mute, PairFree, EndsBlank, LineBreak;
    var a := Lines(LineBreak, u);
    LastLineBlank(u);
    BreakLines(u, d);
    assert Init(Init(a) + [a[|a| - 1] + d] + [""]) == Init(a) + [a[|a| - 1] + d];
    DirectivesSum(Init(a), [a[|a| - 1] + d]);
    assert All(PySpace, "");
    BlankAround(a[|a| - 1], d, "");
    assert a[|a| - 1] + d + "" == a[|a| - 1] + d;
    NumberSum(DirectivesOf(Init(a)), [d], d);
    OneNumber(d);
  }

  lemma BreakLines(u: string, d: string)
    requires Calm(d)
    ensures var a := Lines(LineBreak, u); Lines(LineBreak, u + d + "\n") == Init(a) + [a[|a| - 1] + d] + [""]
  {
    hide PairFree, LineBreak, Lines;
    BlankEdges();
    assert forall i :: 0 <= i < |d| ==> Mute(d[i]);
    LinesAround(LineBreak, u, d, "\n");
    LinesCons(LineBreak, "", "");
    assert "" + "\n" + "" == "\n";
    var a, b := Lines(LineBreak, u), Lines(LineBreak, "\n");
    assert b == [""] + [""] && b[0] == "" && b[1..] == [""];
    assert a[|a| - 1] + d + "" == a[|a| - 1] + d;
  }

  // ---------------------------------------------------------------------------------------------
  // The mutants of a server block.

  lemma TextAround(l: string, y: string, r: string, open: nat, close: nat)
    requires open < |l| && |l| + |y| <= close <= |l + y + r|
    ensures (l + y + r)[open + 1..close] == l[open + 1..] + y + r[..close - |l| - |y|]
  {
    MiddleSlice(l, y, r, open + 1, close);
  }

  lemma BlanksOfOwnLine(l: string, d: string, r: string, b: nat)
    requires OwnLine(l + d + r, b, d, |l|)
    ensures FindBlock(l + d + r, HeaderOf(b)).Ok?
    ensures var (open, close) := FindBlock(l + d + r, HeaderOf(b)).value;
            && open < |l| && |l| + |d| <= close <= |l + d + r|
            && EndsBlank(l[open + 1..]) && StartsBlank(r[..close - |l| - |d|])
  {
    hide FindBlock, EndsBlank, StartsBlank, OccursAt;
    var (open, close) := FindBlock(l + d + r, HeaderOf(b)).value;
    assert (l + d + r)[open + 1..|l|] == l[open + 1..];
    assert (l + d + r)[|l| + |d|..close] == r[..close - |l| - |d|];
  }

  lemma NotTwice(server: string, b: nat, i: nat)
    requires b < 4 && i < 4 && FindBlock(server, HeaderOf(b)).Ok?
    requires var (open, close) := FindBlock(server, HeaderOf(b)).value;
             Number(Directives(server[open + 1..close]), Required(b)[i]) != 1
    ensures !ServerOk(server)
  {
    hide FindBlock, Directives, Number, Forwarding, HasLimit, ProxyLines, Contains, CountFrom, Lines, EndsUniquely;
    LocationsAre(b);
    LocationFacts();
    var (open, close) := FindBlock(server, HeaderOf(b)).value;
    assert !LocationOk(server, LOCATIONS[b]) by {
      var ds := Directives(server[open + 1..close]);
      assert i == 0 || i == 1 || i == 2 || i == 3;
    }
  }

  lemma BlockIsThere(server: string, b: nat)
    requires b < 4 && ServerOk(server)
    ensures FindBlock(server, HeaderOf(b)).Ok?
    ensures var (open, close) := FindBlock(server, HeaderOf(b)).value;
            forall i :: 0 <= i < 4 ==> Number(Directives(server[open + 1..close]), Required(b)[i]) == 1
  {
    hide FindBlock, Directives, Number, Forwarding, HasLimit, ProxyLines, Contains, CountFrom, Lines, EndsUniquely,
         Required;
    LocationsAre(b);
    LocationFacts();
    assert LocationOk(server, LOCATIONS[b]);
  }

  /** Without the line of a required directive a server block does not pass. */
  lemma DeletedFails(l: string, d: string, r: string, b: nat, i: nat)
    requires b < 4 && i < 4 && d == Required(b)[i] && ServerOk(l + d + r) && OwnLine(l + d + r, b, d, |l|)
    ensures !ServerOk(l + [] + r)
  {
    hide ServerOk, FindBlock, Directives, Number, Calm, EndsBlank, StartsBlank, OwnLine, Required, Close, StateAfter,
         DepthAfter;
    RequiredIsCalm(b, i);
    CalmFacts(d);
    BlockIsThere(l + d + r, b);
    BlanksOfOwnLine(l, d, r, b);
    var (open, close) := FindBlock(l + d + r, HeaderOf(b)).value;
    if ServerOk(l + [] + r) {
      BlockIsThere(l + [] + r, b);
      MutantBlock(l, d, [], r, b);
      var (_, close') := FindBlock(l + [] + r, HeaderOf(b)).value;
      var u, v := l[open + 1..], r[..close - |l| - |d|];
      NotEscaped(u);
      NothingRead(StateAfter(Plain, u), DepthAfter(Plain, 1, u));
      TextAround(l, d, r, open, close);
      TextAround(l, [], r, open, close');
      assert u + [] + v == u + v;
      CountAlone(u, d, v);
      CountDeleted(u, v, d);
      assert false;
    }
  }

  lemma CalmFacts(d: string)
    requires Calm(d)
    ensures d != [] && '}' !in d
  {
    hide PairFree;
    forall i | 0 <= i < |d| ensures d[i] != '}' {
      assert Mute(d[i]);
    }
  }

  lemma NothingRead(l: Lexical, depth: int)
    ensures StateAfter(l, []) == l && DepthAfter(l, depth, []) == depth
  {
  }

  /** With that line twice it does not pass either. */
  lemma DuplicatedFails(l: string, d: string, r: string, b: nat, i: nat)
    requires b < 4 && i < 4 && d == Required(b)[i] && ServerOk(l + d + r) && OwnLine(l + d + r, b, d, |l|)
    ensures !ServerOk(l + (d + "\n" + d) + r)
  {
    hide ServerOk, FindBlock, Directives, Number, Calm, EndsBlank, StartsBlank, OwnLine, Required, Close, StateAfter,
         DepthAfter;
    RequiredIsCalm(b, i);
    CalmFacts(d);
    BlockIsThere(l + d + r, b);
    BlanksOfOwnLine(l, d, r, b);
    var y := d + "\n" + d;
    var (open, close) := FindBlock(l + d + r, HeaderOf(b)).value;
    if ServerOk(l + y + r) {
      BlockIsThere(l + y + r, b);
      MutantBlock(l, d, y, r, b);
      var (_, close') := FindBlock(l + y + r, HeaderOf(b)).value;
      var u, k, k' := l[open + 1..], close - |l| - |d|, close' - |l| - |y|;
      TextAround(l, y, r, open, close');
      StillStartsBlank(StateAfter(Plain, u), DepthAfter(Plain, 1, u), d, r, k, k');
      CountDuplicated(u, d, r[..k']);
      assert false;
    }
  }

  lemma {:induction false} MuteState(l: Lexical, depth: int, s: string)
    requires ScanState(l) && forall i :: 0 <= i < |s| ==> Mute(s[i])
    ensures s != [] ==> StateAfter(l, s) == Unescaped(l)
    ensures DepthAfter(l, depth, s) == depth
    decreases |s|
  {
    if s != [] {
      assert Mute(s[0]);
      MuteState(Step(l, s[0]), depth, s[1..]);
    }
  }

  lemma {:induction false} StateSplit(l: Lexical, depth: int, s: string, t: string)
    ensures StateAfter(l, s + t) == StateAfter(StateAfter(l, s), t)
    ensures DepthAfter(l, depth, s + t) == DepthAfter(StateAfter(l, s), DepthAfter(l, depth, s), t)
    decreases |s|
  {
    if s == [] {
      assert s + t == t;
    } else {
      assert (s + t)[0] == s[0] && (s + t)[1..] == s[1..] + t;
      StateSplit(Step(l, s[0]), Depth(l, depth, s[0]), s[1..], t);
    }
  }

  /** The state behind the doubled directive: a comment ends at the break, anything else goes on. */
  lemma StateBehind(l: Lexical, depth: int, d: string)
    requires ScanState(l) && Calm(d)
    ensures var y := d + "\n" + d;
            StateAfter(l, y) == (if l == Comment then Plain else Unescaped(l)) && DepthAfter(l, depth, y) == depth
  {
    hide Mute, PairFree, StateAfter, DepthAfter;
    MuteState(l, depth, d);
    StateSplit(l, depth, d + "\n", d);
    StateSplit(l, depth, d, "\n");
    var m := Unescaped(l);
    OneBreak(m, depth);
    MuteState(if m == Comment then Plain else m, depth, d);
  }

  lemma OneBreak(l: Lexical, depth: int)
    requires l.Quote? ==> !l.escaped && (l.mark == '"' || l.mark == '\'')
    ensures StateAfter(l, "\n") == (if l == Comment then Plain else l) && DepthAfter(l, depth, "\n") == depth
  {
    assert "\n"[1..] == "";
  }

  /** Whitespace without a break is read over in every state. */
  lemma {:induction false} OverBlank(l: Lexical, depth: int, w: string, t: string)
    requires ScanState(l) && Unescaped(l) == l && forall i :: 0 <= i < |w| ==> PySpace(w[i]) && w[i] != '\n'
    ensures Close(l, depth, w + t) == Shift(|w|, Close(l, depth, t))
    decreases |w|
  {
    hide Close;
    if w == [] {
      assert w + t == t;
    } else {
      assert w + t == [w[0]] + (w[1..] + t);
      UnfoldClose(l, depth, w[0], w[1..] + t);
      OverBlank(l, depth, w[1..], t);
    }
  }

  /** Only outside quotes and comments does a brace behind nothing but blanks close. */
  lemma BlankToBrace(l: Lexical, depth: int, r: string, k: nat)
    requires ScanState(l) && k <= |r| && Close(Unescaped(l), depth, r) == Some(k)
    requires All(PySpace, r[..k]) && forall i :: 0 <= i < k ==> !LineBreak(r[..k][i])
    ensures l == Plain
  {
    hide Close, PySpace;
    BreakIsBreak();
    var w, t := r[..k], r[k..];
    assert r == w + t;
    OverBlank(Unescaped(l), depth, w, t);
    ClosesAtOnce(Unescaped(l), depth, t);
  }

  lemma ClosesAtOnce(l: Lexical, depth: int, t: string)
    requires Close(l, depth, t) == Some(0)
    ensures l == Plain
  {
  }

  /** What the mutant's block holds behind the doubled directive still starts with a blank rest of a line. */
  lemma StillStartsBlank(l: Lexical, depth: int, d: string, r: string, k: nat, k': nat)
    requires ScanState(l) && Calm(d) && k <= |r| && k' <= |r| && StartsBlank(r[..k])
    requires Close(Unescaped(l), depth, r) == Some(k)
    requires var y := d + "\n" + d; Close(StateAfter(l, y), DepthAfter(l, depth, y), r) == Some(k')
    ensures StartsBlank(r[..k'])
  {
    hide Close, StateAfter, DepthAfter, Calm, PySpace, LineBreak, Unescaped, Lines;
    StateBehind(l, depth, d);
    var q := FirstLineEnd(LineBreak, r[..k]);
    FirstLineBlank(r[..k]);
    assert r[..k][..q] == r[..q];
    if k' <= q {
      assert forall i :: 0 <= i < k' ==> r[..k'][i] == r[..q][i];
      assert r[..k'][..k'] == r[..k'];
    } else if q < k {
      assert r[..k][q] == r[q] == r[..k'][q] && r[..k'][..q] == r[..q];
    } else {
      BlankToBrace(l, depth, r, k);
    }
  }

  // ---------------------------------------------------------------------------------------------
  // The mutants of a configuration.

  /** The directive at `o`, required in block `b` of the apex server, has a line of its own there. */
  ghost predicate RequiredAt(conf: string, b: nat, i: nat, o: nat) {
    && Server(conf).Some? && b < 4 && i < 4
    && var (start, end) := Server(conf).value;
       start <= o && start <= end <= |conf| && o + |Required(b)[i]| <= end
       && OwnLine(conf[start..end], b, Required(b)[i], o - start)
  }

  /** No opening lies across a place where one directive of a line of its own was. */
  lemma NoOpeningAcross(a: string, w: string, z: char, c: string, j: nat)
    requires All(PySpace, w) && (LineBreak(z) || z == '}') && j < |a| < j + |OPENING|
    ensures !OccursAt(a + [] + (w + [z] + c), OPENING, j)
  {
    hide OccursAt, LineBreak, PySpace;
    OpeningFacts();
    var s, t := a + [] + (w + [z] + c), |a| - j;
    var e := if t <= 3 then 3 else if t == 9 then 10 else t;
    OpeningLetters(t);
    ZIsDark(z);
    assert s[|a| + |w|] == z && (e - t < |w| ==> s[j + e] == w[e - t]);
    if OccursAt(s, OPENING, j) {
      if e - t >= |w| {
        CharAt(s, OPENING, j, t + |w|);
      }
      CharAt(s, OPENING, j, e);
    }
  }

  lemma OpeningLetters(t: nat)
    requires 1 <= t < |OPENING|
    ensures var e := if t <= 3 then 3 else if t == 9 then 10 else t;
            && t <= e < |OPENING| && OPENING[e] in "server{" && !PySpace(OPENING[e])
            && forall i :: t <= i < e ==> OPENING[i] == ' '
  {
  }

  lemma ZIsDark(z: char)
    requires LineBreak(z) || z == '}'
    ensures z != ' ' && z !in "server{"
  {
  }

  lemma ApartWithout(a: string, c: string, q: nat)
    requires q < |c| && All(PySpace, c[..q]) && (LineBreak(c[q]) || c[q] == '}')
    ensures Apart(a, [], c, OPENING)
  {
    hide OccursAt, LineBreak, PySpace, All;
    assert c == c[..q] + [c[q]] + c[q + 1..];
    forall j: nat | OccursAt(a + [] + c, OPENING, j) ensures j + |OPENING| <= |a| || j >= |a| {
      if j < |a| < j + |OPENING| {
        NoOpeningAcross(a, c[..q], c[q], c[q + 1..], j);
        assert false;
      }
    }
  }

  lemma ApartTwice(a: string, d: string, c: string)
    requires Calm(d)
    ensures Apart(a, d + "\n" + d, c, OPENING)
  {
    hide OccursAt, PairFree, Calm;
    forall j: nat | OccursAt(a + (d + "\n" + d) + c, OPENING, j)
        ensures j + |OPENING| <= |a| || j >= |a| + |d + "\n" + d| {
      NoOpeningTwice(a, d, c, j);
    }
  }

  lemma NoOpeningTwice(a: string, d: string, c: string, j: nat)
    requires Calm(d)
    ensures OccursAt(a + (d + "\n" + d) + c, OPENING, j) ==> j + |OPENING| <= |a| || j >= |a| + |d + "\n" + d|
  {
    hide OccursAt, Calm;
    OpeningFacts();
    CalmStart(d);
    var s := a + (d + "\n" + d) + c;
    assert s == a + d + ("\n" + d + c) && s == (a + d + "\n") + d + c;
    if j < |a| + |d| {
      StillNoOpening(a, d, "\n" + d + c, j);
    } else if j == |a| + |d| {
      assert s[j + 1] == d[0];
      if OccursAt(s, OPENING, j) {
        CharAt(s, OPENING, j, 1);
      }
    } else {
      StillNoOpening(a + d + "\n", d, c, j);
    }
  }

  lemma CalmStart(d: string)
    requires Calm(d)
    ensures d != [] && d[0] == 'p'
  {
  }

  /** The parts of a configuration around a required directive. */
  lemma PartsAround(conf: string, b: nat, i: nat, o: nat) returns (a: string, d: string, c: string, q: nat)
    requires Accepts(conf) && RequiredAt(conf, b, i, o)
    ensures d == Required(b)[i] && Calm(d) && o + |d| <= |conf| && a == conf[..o] && c == conf[o + |d|..]
    ensures conf == a + d + c && Within(a, d, c)
    ensures q < |c| && All(PySpace, c[..q]) && (LineBreak(c[q]) || c[q] == '}')
  {
    hide Server, ServerOk, FindBlock, Calm, EndsBlank, LineBreak, PySpace, HeaderOf, Required, OccursAt;
    RequiredStart(b, i);
    d := Required(b)[i];
    RequiredIsCalm(b, i);
    var (start, end) := Server(conf).value;
    var server, e := conf[start..end], o - start;
    HeaderNotEmpty(b);
    a, c := conf[..o], conf[o + |d|..];
    InServerText(conf, start, end, d, o);
    var (open, close) := FindBlock(server, HeaderOf(b)).value;
    ClosingBrace(server, b);
    var v := server[e + |d|..close];
    q :| q <= |v| && (q == |v| || LineBreak(v[q])) && All(PySpace, v[..q]);
    BehindDirective(conf, start, end, o + |d|, close, q);
  }

  lemma BehindDirective(conf: string, start: nat, end: nat, p: nat, close: nat, q: nat)
    requires start <= p <= start + close < end <= |conf| && conf[start..end][close] == '}'
    requires var v := conf[start..end][p - start..close];
             q <= |v| && (q == |v| || LineBreak(v[q])) && All(PySpace, v[..q])
    ensures var c := conf[p..]; q < |c| && All(PySpace, c[..q]) && (LineBreak(c[q]) || c[q] == '}')
  {
    hide LineBreak, PySpace, All;
    var c, v := conf[p..], conf[start..end][p - start..close];
    SliceOfSlice(conf, start, end, p, start + close);
    assert v == conf[p..start + close];
    assert c[..q] == v[..q] && c[q] == conf[p + q];
  }

  lemma InServerText(conf: string, start: nat, end: nat, d: string, o: nat)
    requires start <= o && o + |d| <= end <= |conf| && OccursAt(conf[start..end], d, o - start)
    ensures conf == conf[..o] + d + conf[o + |d|..]
  {
    SliceOfSlice(conf, start, end, o, o + |d|);
  }

  lemma ClosingBrace(server: string, b: nat)
    requires HeaderOf(b) != [] && b < 4 && FindBlock(server, HeaderOf(b)).Ok?
    ensures server[FindBlock(server, HeaderOf(b)).value.1] == '}'
  {
    hide FindBlock, IsHeader, IsBody;
    HeaderIsPlain(b);
    var (open, close) := FindBlock(server, HeaderOf(b)).value;
    BlockExactly(server, HeaderOf(b), open, close);
  }

  lemma SameLine(conf: string, b: nat, i: nat, o: nat, l: string, d: string, r: string)
    requires RequiredAt(conf, b, i, o) && d == Required(b)[i]
    requires var (start, end) := Server(conf).value; conf[start..end] == l + d + r && |l| == o - start
    ensures OwnLine(l + d + r, b, d, |l|)
  {
    hide OwnLine, Required, Server;
  }

  /** Deleting the line of a required directive in any of the four blocks is rejected. */
  lemma LineDeletedRejected(conf: string, b: nat, i: nat, o: nat)
    requires Accepts(conf) && RequiredAt(conf, b, i, o)
    ensures o + |Required(b)[i]| <= |conf| && !Accepts(Replace(conf, o, |Required(b)[i]|, []))
  {
    hide Server, ServerOk, OwnLine, Calm, Apart, Required, LineBreak, All;
    var a, d, c, q := PartsAround(conf, b, i, o);
    CalmStart(d);
    ApartStill(a, d, c);
    ApartWithout(a, c, q);
    if Accepts(a + [] + c) {
      var l, r := BothBlocks(a, d, [], c);
      SameLine(conf, b, i, o, l, d, r);
      DeletedFails(l, d, r, b, i);
      assert false;
    }
  }

  /** So is duplicating it. */
  lemma LineDuplicatedRejected(conf: string, b: nat, i: nat, o: nat)
    requires Accepts(conf) && RequiredAt(conf, b, i, o)
    ensures var d := Required(b)[i]; o + |d| <= |conf| && !Accepts(Replace(conf, o, |d|, d + "\n" + d))
  {
    hide Server, ServerOk, OwnLine, Calm, Apart, Required, LineBreak, All;
    var a, d, c, q := PartsAround(conf, b, i, o);
    CalmStart(d);
    ApartStill(a, d, c);
    ApartTwice(a, d, c);
    if Accepts(a + (d + "\n" + d) + c) {
      var l, r := BothBlocks(a, d, d + "\n" + d, c);
      SameLine(conf, b, i, o, l, d, r);
      DuplicatedFails(l, d, r, b, i);
      assert false;
    }
  }

  /** And for every one of the four directives of every one of the four blocks there is such a line. */
  lemma RequiredIsThere(conf: string, b: nat, i: nat) returns (o: nat)
    requires Accepts(conf) && b < 4 && i < 4
    ensures RequiredAt(conf, b, i, o)
  {
    hide Server, ServerOk, FindBlock, OwnLine, Required, Lines, DirectivesOf, Number, Calm;
    AcceptedSlice(conf);
    RequiredStart(b, i);
    var (start, end) := Server(conf).value;
    var server, d := conf[start..end], Required(b)[i];
    BlockIsThere(server, b);
    HeaderNotEmpty(b);
    var (open, close) := FindBlock(server, HeaderOf(b)).value;
    RequiredIsCalm(b, i);
    var lines := Lines(LineBreak, server[open + 1..close]);
    var u, v := LineOfDirective(server[open + 1..close], d);
    var e := open + 1 + |u|;
    o := start + e;
    PlacedInBlock(server, open, close, u, d, v);
    OwnLineIs(server, b, d, u, v);
  }

  /** Where a line that strips to the directive lies in a text. */
  lemma LineOfDirective(text: string, d: string) returns (u: string, v: string)
    requires Calm(d) && Number(Directives(text), d) == 1
    ensures text == u + d + v && EndsBlank(u) && StartsBlank(v)
  {
    hide Lines, DirectivesOf, Number, PairFree, Mute, Trim, PySpace, LineBreak;
    var lines := Lines(LineBreak, text);
    var k := LineWith(lines, d);
    var front, back := TrimParts(PySpace, lines[k]);
    var x, y := SplitAtLine(LineBreak, text, k);
    u, v := x + front, back + y;
    assert text == u + d + v;
    BlankTail(x, front);
    BlankHead(back, y);
  }

  lemma {:induction false} LineWith(lines: seq<string>, d: string) returns (k: nat)
    requires d != [] && Number(DirectivesOf(lines), d) > 0
    ensures k < |lines| && Trim(PySpace, lines[k]) == d
  {
    hide Trim;
    var t := Trim(PySpace, lines[0]);
    var kept := if t != [] && t[0] != '#' then [t] else [];
    NumberSum(kept, DirectivesOf(lines[1..]), d);
    if t == d {
      k := 0;
    } else {
      k := LineWith(lines[1..], d);
      k := k + 1;
    }
  }

  /** The text before and after its k-th line. */
  lemma {:induction false} SplitAtLine(breaks: char -> bool, s: string, k: nat) returns (x: string, y: string)
    requires k < |Lines(breaks, s)|
    ensures s == x + Lines(breaks, s)[k] + y
    ensures (if k == 0 then x == [] else x != [] && breaks(x[|x| - 1])) && (y == [] || breaks(y[0]))
    decreases |s|
  {
    if s == [] {
      x, y := [], [];
    } else if breaks(s[0]) {
      if k == 0 {
        x, y := [], s;
      } else {
        var x', y' := SplitAtLine(breaks, s[1..], k - 1);
        x, y := [s[0]] + x', y';
        assert s == [s[0]] + s[1..];
        assert x[|x| - 1] == if x' == [] then s[0] else x'[|x'| - 1];
      }
    } else {
      var x', y' := SplitAtLine(breaks, s[1..], k);
      assert s == [s[0]] + s[1..];
      if k == 0 {
        x, y := [], y';
      } else {
        x, y := [s[0]] + x', y';
      }
    }
  }

  lemma BlankTail(x: string, front: string)
    requires (x == [] || LineBreak(x[|x| - 1])) && All(PySpace, front)
    ensures EndsBlank(x + front)
  {
    hide PySpace, LineBreak;
    var u := x + front;
    assert u[|x|..] == front && (x != [] ==> u[|x| - 1] == x[|x| - 1]);
  }

  lemma BlankHead(back: string, y: string)
    requires (y == [] || LineBreak(y[0])) && All(PySpace, back)
    ensures StartsBlank(back + y)
  {
    hide PySpace, LineBreak;
    var v := back + y;
    assert v[..|back|] == back && (y != [] ==> v[|back|] == y[0]);
  }

  lemma PlacedInBlock(server: string, open: nat, close: nat, u: string, d: string, v: string)
    requires open < close <= |server| && server[open + 1..close] == u + d + v
    ensures var e := open + 1 + |u|;
            && e + |d| <= close && OccursAt(server, d, e)
            && server[open + 1..e] == u && server[e + |d|..close] == v
  {
    var e := open + 1 + |u|;
    assert forall k :: open + 1 <= k < close ==> server[k] == (u + d + v)[k - open - 1];
    assert server[e..e + |d|] == d;
  }

  lemma OwnLineIs(server: string, b: nat, d: string, u: string, v: string)
    requires FindBlock(server, HeaderOf(b)).Ok? && EndsBlank(u) && StartsBlank(v)
    requires var (open, close) := FindBlock(server, HeaderOf(b)).value;
             var e := open + 1 + |u|;
             e + |d| <= close && OccursAt(server, d, e) && server[open + 1..e] == u && server[e + |d|..close] == v
    ensures OwnLine(server, b, d, FindBlock(server, HeaderOf(b)).value.0 + 1 + |u|)
  {
    hide FindBlock, EndsBlank, StartsBlank, OccursAt;
  }
}
