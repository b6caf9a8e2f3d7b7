/** A server block that passes every check although its four location blocks share one trusted directive. */
module NginxNested {
  import opened Wrappers
  import opened Text
  import opened Occurrences
  import opened NginxServer
  import opened NginxBlocks
  import opened NginxVerifier
  import opened NginxProbe
  import opened NginxLines
  import opened NginxDelete

  const SERVER_LINE := "  server {"
  const ROOT := "location / "
  const API_FRONT := "location /api/ "
  const UPLOADS := "location /uploads/ "
  const HEALTH := "location = /health "

  /** A block: a header line, what is inside, and a line with the closing brace. */
  function Block(front: string, inner: seq<string>): seq<string> {
    [front + "{"] + inner + ["}"]
  }

  function InHealth(): seq<string> { [BACKEND, REAL_IP, TRUSTED, PROTO] }
  function InUploads(): seq<string> { Block(HEALTH, InHealth()) }
  function InApi(): seq<string> { Block(UPLOADS, InUploads()) }
  function InRoot(): seq<string> { [FRONTEND] + Block(API_FRONT, InApi()) }
  function Head(): seq<string> { ["", SERVER_LINE, MARKER] }
  function Tail(): seq<string> { [TRUSTED, TRUSTED, BACKEND, BACKEND] }

  /** The server, with a last line `z` outside of its blocks. */
  function ServerLines(z: string): seq<string> { Head() + Block(ROOT, InRoot()) + (Tail() + [z]) }
  function NestedServer(z: string): string { Lined(ServerLines(z)) }

  // ---------------------------------------------------------------------------------------------
  // Counting lines.

  /**
  A directive line as it stands inside a block: no outer whitespace, no comment, and no forwarding but
  the trusted one.
  */
  ghost predicate DirectiveLine(x: string) {
    && x != [] && x[0] != '#' && Trimmed(PySpace, x)
    && (FORWARDED <= x ==> x == TRUSTED)
    && (x != TRUSTED ==> |x| < |TRUSTED|)
    && (forall i :: 0 <= i < |x| ==> ' ' <= x[i] <= '}')
  }

  ghost predicate DirectiveLines(ls: seq<string>) {
    forall k :: 0 <= k < |ls| ==> DirectiveLine(ls[k])
  }

  lemma {:induction false} DirectivesAreLines(ls: seq<string>)
    requires DirectiveLines(ls)
    ensures DirectivesOf(ls) == ls
    ensures ProxyLines(ls) == Number(ls, BACKEND) + Number(ls, FRONTEND)
  {
    hide Trim, Trimmed, DirectiveLine;
    if ls != [] {
      DirectivesAreLines(ls[1..]);
      LineIsTrimmed(ls[0]);
      assert BACKEND != FRONTEND;
      assert [ls[0]] + ls[1..] == ls;
    }
  }

  lemma LineIsTrimmed(x: string)
    requires DirectiveLine(x)
    ensures Trim(PySpace, x) == x && x != [] && x[0] != '#'
  {
    TrimmedIsFixed(PySpace, x);
  }

  lemma {:induction false} ForwardingLines(ls: seq<string>)
    requires DirectiveLines(ls)
    ensures Forwarding(ls) == seq(Number(ls, TRUSTED), i => TRUSTED)
  {
    if ls != [] {
      assert DirectiveLine(ls[0]);
      ForwardingLines(ls[1..]);
      assert FORWARDED <= TRUSTED;
    }
  }

  lemma {:induction false} TotalOfLines(ls: seq<string>)
    requires ls != [] && DirectiveLines(ls)
    ensures Total(Lined(ls)) == Number(ls, TRUSTED)
  {
    hide Total;
    assert DirectiveLine(ls[0]);
    TotalTrusted();
    if ls[0] != TRUSTED {
      TotalShort(ls[0]);
    }
    if |ls| > 1 {
      TotalOfLines(ls[1..]);
      TotalLined(ls[0], Lined(ls[1..]));
    } else {
      assert ls[1..] == [];
    }
  }

  // ---------------------------------------------------------------------------------------------
  // The characters of the lines.

  /** Two neighbouring characters that start neither a chain, nor a limit, nor the marker. */
  predicate QuietPair(c: char, d: char) {
    (c != '$' || d != 'p') && (c != 'l' || d != 'i') && (c != ' ' || d != ' ')
  }

  ghost predicate Quiet(x: string) {
    && (forall i :: 0 <= i < |x| ==> Ordinary(x[i]))
    && (forall i :: 0 <= i < |x| - 1 ==> QuietPair(x[i], x[i + 1]))
  }

  lemma QuietAppend(x: string, y: string)
    requires Quiet(x) && Quiet(y) && x != [] && y != [] && QuietPair(x[|x| - 1], y[0])
    ensures Quiet(x + y)
  {
    hide QuietPair, Ordinary;
    var s := x + y;
    forall i | 0 <= i < |s| - 1 ensures QuietPair(s[i], s[i + 1]) {
      if i >= |x| {
        assert s[i] == y[i - |x|] && s[i + 1] == y[i - |x| + 1];
      }
    }
  }

  /** A word without the first or second character of such a pair, and without a space but at its end. */
  ghost predicate Simple(x: string) {
    forall i :: 0 <= i < |x| ==> Ordinary(x[i]) && x[i] != '$' && x[i] != 'i' && (i < |x| - 1 ==> x[i] != ' ')
  }

  lemma SimpleIsQuiet(x: string)
    requires Simple(x)
    ensures Quiet(x)
  {
  }

  lemma QuietChar(c: char)
    requires Ordinary(c)
    ensures Quiet([c])
  {
  }

  lemma QuietProxyWords()
    ensures Quiet("proxy_pass ") && Quiet("masterbudet_") && Quiet("backend;") && Quiet("frontend;")
  {
    hide Quiet;
    SimpleIsQuiet("proxy_pass ");
    SimpleIsQuiet("masterbudet_");
    SimpleIsQuiet("backend;");
    SimpleIsQuiet("frontend;");
  }

  lemma QuietHeaderWords()
    ensures Quiet("proxy_set_header ") && Quiet("X-Real-IP ") && Quiet("X-Forwarded-") && Quiet("For ")
  {
    hide Quiet;
    SimpleIsQuiet("proxy_set_header ");
    SimpleIsQuiet("X-Real-IP ");
    SimpleIsQuiet("X-Forwarded-");
    SimpleIsQuiet("For ");
  }

  lemma QuietValueWords()
    ensures Quiet("remote_addr;") && Quiet("Proto ") && Quiet("https;")
  {
    hide Quiet;
    SimpleIsQuiet("remote_addr;");
    SimpleIsQuiet("Proto ");
    SimpleIsQuiet("https;");
  }

  lemma QuietPathWords()
    ensures Quiet("locat") && Quiet("on ") && Quiet("/ap") && Quiet("/ ") && Quiet("/uploads/ ") && Quiet("= ")
            && Quiet("/health ")
  {
    hide Quiet;
    SimpleIsQuiet("locat");
    SimpleIsQuiet("on ");
    SimpleIsQuiet("/ap");
    SimpleIsQuiet("/ ");
    SimpleIsQuiet("/uploads/ ");
    SimpleIsQuiet("= ");
    SimpleIsQuiet("/health ");
  }

  lemma QuietVariables()
    ensures Quiet("$masterbudet_") && Quiet("$remote_addr;")
  {
    hide Quiet;
    QuietProxyWords();
    QuietValueWords();
    QuietChar('$');
    QuietAppend("$", "masterbudet_");
    QuietAppend("$", "remote_addr;");
    assert "$masterbudet_" == "$" + "masterbudet_" && "$remote_addr;" == "$" + "remote_addr;";
  }

  lemma QuietProxies()
    ensures Quiet(BACKEND) && Quiet(FRONTEND)
  {
    hide Quiet;
    QuietProxyWords();
    QuietVariables();
    var p, v, b, f := "proxy_pass ", "$masterbudet_", "backend;", "frontend;";
    QuietAppend(p, v);
    QuietAppend(p + v, b);
    QuietAppend(p + v, f);
    assert BACKEND == p + v + b && FRONTEND == p + v + f;
  }

  lemma QuietRealIp()
    ensures Quiet(REAL_IP)
  {
    hide Quiet;
    QuietHeaderWords();
    QuietVariables();
    var p, n, v := "proxy_set_header ", "X-Real-IP ", "$remote_addr;";
    QuietAppend(p, n);
    QuietAppend(p + n, v);
    assert REAL_IP == p + n + v;
  }

  lemma QuietTrusted()
    ensures Quiet(TRUSTED)
  {
    hide Quiet;
    QuietHeaderWords();
    QuietVariables();
    var p, n, f, v := "proxy_set_header ", "X-Forwarded-", "For ", "$remote_addr;";
    QuietAppend(p, n);
    QuietAppend(p + n, f);
    QuietAppend(p + n + f, v);
    assert TRUSTED == p + n + f + v;
  }

  lemma QuietForwarded()
    ensures Quiet(TRUSTED) && Quiet(PROTO)
  {
    hide Quiet;
    QuietTrusted();
    QuietHeaderWords();
    QuietValueWords();
    var p, n, o, h := "proxy_set_header ", "X-Forwarded-", "Proto ", "https;";
    QuietAppend(p, n);
    QuietAppend(p + n, o);
    QuietAppend(p + n + o, h);
    assert PROTO == p + n + o + h;
  }

  lemma QuietLocation(path: string)
    requires Quiet(path) && path != [] && path[0] != ' '
    ensures Quiet("location " + path)
  {
    hide Quiet;
    QuietPathWords();
    QuietChar('i');
    QuietAppend("locat", "i");
    QuietAppend("locat" + "i", "on ");
    assert "location " == "locat" + "i" + "on ";
    QuietAppend("location ", path);
  }

  lemma QuietFronts()
    ensures Quiet(ROOT) && Quiet(API_FRONT) && Quiet(UPLOADS) && Quiet(HEALTH)
  {
    hide Quiet;
    QuietPathWords();
    QuietChar('i');
    QuietAppend("/ap", "i");
    QuietAppend("/ap" + "i", "/ ");
    QuietAppend("= ", "/health ");
    assert "/api/ " == "/ap" + "i" + "/ " && "= /health " == "= " + "/health ";
    QuietLocation("/ ");
    QuietLocation("/api/ ");
    QuietLocation("/uploads/ ");
    QuietLocation("= /health ");
    var l := "location ";
    assert ROOT == l + "/ " && API_FRONT == l + "/api/ " && UPLOADS == l + "/uploads/ " && HEALTH == l + "= /health ";
  }

  /** A line of one of the blocks. */
  ghost predicate GoodLine(x: string) {
    DirectiveLine(x) && PairFree(x, '$', 'p') && PairFree(x, 'l', 'i') && PairFree(x, ' ', ' ')
  }

  ghost predicate GoodLines(ls: seq<string>) {
    forall k :: 0 <= k < |ls| ==> GoodLine(ls[k])
  }

  lemma GoodFromQuiet(x: string)
    requires Quiet(x) && x != [] && !PySpace(x[0]) && !PySpace(x[|x| - 1])
    requires (FORWARDED <= x ==> x == TRUSTED) && (x != TRUSTED ==> |x| < |TRUSTED|)
    ensures GoodLine(x)
  {
    hide PySpace;
    assert Ordinary(x[0]);
  }

  lemma GoodDirectives()
    ensures GoodLine(BACKEND) && GoodLine(FRONTEND) && GoodLine(REAL_IP) && GoodLine(TRUSTED) && GoodLine(PROTO)
  {
    hide Quiet, GoodLine, EndsUniquely;
    TrustedFacts();
    QuietProxies();
    QuietRealIp();
    QuietForwarded();
    NotForwarding();
    GoodFromQuiet(BACKEND);
    GoodFromQuiet(FRONTEND);
    GoodFromQuiet(REAL_IP);
    GoodFromQuiet(TRUSTED);
    GoodFromQuiet(PROTO);
  }

  lemma NotForwarding()
    ensures !(FORWARDED <= BACKEND) && !(FORWARDED <= FRONTEND) && !(FORWARDED <= REAL_IP) && !(FORWARDED <= PROTO)
  {
    assert FORWARDED == "proxy_set_header X-Forwarded-For ";
    assert FORWARDED[6] == 's' && BACKEND[6] == 'p' && FRONTEND[6] == 'p';
    assert FORWARDED[19] == 'F' && REAL_IP[19] == 'R';
    assert FORWARDED[29] == 'F' && PROTO[29] == 'P';
  }

  lemma GoodHeader(front: string)
    requires Quiet(front) && 0 < |front| < 45 && front[0] == 'l'
    ensures GoodLine(front + "{")
  {
    hide EndsUniquely, PySpace;
    TrustedFacts();
    assert !PySpace('l') && !PySpace('{') by { EdgeChars(); }
    var x := front + "{";
    assert FORWARDED[0] == 'p' && x[0] == 'l';
    forall c, d | Pairs(c, d) ensures PairFree(x, c, d) {
      forall i | 0 <= i < |x| - 1 ensures x[i] != c || x[i + 1] != d {
        assert i < |front| - 1 ==> QuietPair(front[i], front[i + 1]);
      }
    }
    assert Pairs('$', 'p') && Pairs('l', 'i') && Pairs(' ', ' ');
    assert forall i :: 0 <= i < |front| ==> Ordinary(front[i]);
  }

  predicate Pairs(c: char, d: char) {
    (c == '$' && d == 'p') || (c == 'l' && d == 'i') || (c == ' ' && d == ' ')
  }

  lemma EdgeChars()
    ensures !PySpace('l') && !PySpace('{') && !PySpace('}')
  {
  }

  lemma GoodClosing()
    ensures GoodLine("}")
  {
    hide EndsUniquely;
    TrustedFacts();
    assert FORWARDED[0] == 'p';
  }

  lemma GoodBlock(front: string, inner: seq<string>)
    requires GoodLine(front + "{") && GoodLines(inner)
    ensures GoodLines(Block(front, inner))
  {
    hide GoodLine;
    GoodClosing();
  }

  lemma GoodInside()
    ensures GoodLine(ROOT + "{") && GoodLine(API_FRONT + "{") && GoodLine(UPLOADS + "{") && GoodLine(HEALTH + "{")
    ensures GoodLines(InHealth()) && GoodLines(InUploads()) && GoodLines(InApi()) && GoodLines(InRoot())
    ensures GoodLines(Block(ROOT, InRoot()) + Tail())
  {
    hide GoodLine, Quiet, Block;
    GoodDirectives();
    QuietFronts();
    GoodHeader(ROOT);
    GoodHeader(API_FRONT);
    GoodHeader(UPLOADS);
    GoodHeader(HEALTH);
    GoodBlock(HEALTH, InHealth());
    GoodBlock(UPLOADS, InUploads());
    GoodBlock(API_FRONT, InApi());
    GoodBlock(ROOT, InRoot());
  }

  // ---------------------------------------------------------------------------------------------
  // The directives of the blocks.

  ghost predicate Tally(ls: seq<string>, frontends: nat) {
    && Number(ls, BACKEND) == 1 && Number(ls, FRONTEND) == frontends && Number(ls, REAL_IP) == 1
    && Number(ls, TRUSTED) == 1 && Number(ls, PROTO) == 1
  }

  lemma NumberOne(x: string, y: string)
    ensures Number([x], y) == if x == y then 1 else 0
  {
    assert [x][1..] == [];
  }

  lemma NumberBlock(front: string, inner: seq<string>, x: string)
    requires front != [] && front[0] == 'l' && x != [] && x[0] == 'p'
    ensures Number(Block(front, inner), x) == Number(inner, x)
  {
    hide Number;
    var first := front + "{";
    assert first[0] == 'l';
    NumberSum([first], inner, x);
    NumberSum([first] + inner, ["}"], x);
    NumberOne(first, x);
    NumberOne("}", x);
  }

  lemma TallyBlock(front: string, inner: seq<string>, frontends: nat)
    requires front != [] && front[0] == 'l' && Tally(inner, frontends)
    ensures Tally(Block(front, inner), frontends)
  {
    hide Block, Number, EndsUniquely;
    TrustedFacts();
    NumberBlock(front, inner, BACKEND);
    NumberBlock(front, inner, FRONTEND);
    NumberBlock(front, inner, REAL_IP);
    NumberBlock(front, inner, TRUSTED);
    NumberBlock(front, inner, PROTO);
  }

  lemma Lengths()
    ensures |BACKEND| == 32 && |FRONTEND| == 33 && |REAL_IP| == 40 && |PROTO| == 41 && |TRUSTED| == 46
  {
    hide EndsUniquely;
    TrustedFacts();
  }

  lemma NumberFour(a: string, b: string, c: string, d: string, x: string)
    ensures Number([a, b, c, d], x)
            == (if a == x then 1 else 0) + (if b == x then 1 else 0)
               + (if c == x then 1 else 0) + (if d == x then 1 else 0)
  {
    hide Number;
    assert [a, b, c, d] == [a] + [b] + [c] + [d];
    NumberOne(a, x);
    NumberOne(b, x);
    NumberOne(c, x);
    NumberOne(d, x);
    NumberSum([a] + [b] + [c], [d], x);
    NumberSum([a] + [b], [c], x);
    NumberSum([a], [b], x);
  }

  lemma TallyHealth()
    ensures Tally(InHealth(), 0)
  {
    hide Number;
    Lengths();
    NumberFour(BACKEND, REAL_IP, TRUSTED, PROTO, BACKEND);
    NumberFour(BACKEND, REAL_IP, TRUSTED, PROTO, FRONTEND);
    NumberFour(BACKEND, REAL_IP, TRUSTED, PROTO, REAL_IP);
    NumberFour(BACKEND, REAL_IP, TRUSTED, PROTO, TRUSTED);
    NumberFour(BACKEND, REAL_IP, TRUSTED, PROTO, PROTO);
  }

  lemma TallyFront(inner: seq<string>)
    requires Tally(inner, 0)
    ensures Tally([FRONTEND] + inner, 1)
  {
    hide Number;
    Lengths();
    NumberSum([FRONTEND], inner, BACKEND);
    NumberSum([FRONTEND], inner, FRONTEND);
    NumberSum([FRONTEND], inner, REAL_IP);
    NumberSum([FRONTEND], inner, TRUSTED);
    NumberSum([FRONTEND], inner, PROTO);
    NumberOne(FRONTEND, BACKEND);
    NumberOne(FRONTEND, FRONTEND);
    NumberOne(FRONTEND, REAL_IP);
    NumberOne(FRONTEND, TRUSTED);
    NumberOne(FRONTEND, PROTO);
  }

  lemma Tallies()
    ensures Tally(InHealth(), 0) && Tally(InUploads(), 0) && Tally(InApi(), 0) && Tally(InRoot(), 1)
    ensures Tally(Block(ROOT, InRoot()), 1)
  {
    hide Tally, Block;
    TallyHealth();
    TallyBlock(HEALTH, InHealth(), 0);
    TallyBlock(UPLOADS, InUploads(), 0);
    TallyBlock(API_FRONT, InApi(), 0);
    TallyFront(Block(API_FRONT, InApi()));
    TallyBlock(ROOT, InRoot(), 1);
  }

  lemma LinesPass(ls: seq<string>, frontends: nat)
    requires GoodLines(ls) && Tally(ls, frontends)
    ensures DirectivesOk(ls, BACKEND) && (frontends == 1 ==> DirectivesOk(ls, FRONTEND))
  {
    hide DirectiveLine, Number, Forwarding;
    ForwardingLines(ls);
    assert seq(1, i => TRUSTED) == [TRUSTED];
  }

  function BodyText(ls: seq<string>): string {
    "\n" + Lined(ls) + "\n"
  }

  lemma BodyIsLined(ls: seq<string>)
    requires ls != []
    ensures BodyText(ls) == Lined([""] + ls + [""])
  {
    LinedAppend([""], ls);
    LinedAppend([""] + ls, [""]);
  }

  lemma GoodChars(ls: seq<string>)
    requires GoodLines(ls)
    ensures forall k, i :: 0 <= k < |ls| && 0 <= i < |ls[k]| ==> !LineBreak(ls[k][i])
  {
    hide PairFree;
    forall k, i | 0 <= k < |ls| && 0 <= i < |ls[k]| ensures !LineBreak(ls[k][i]) {
      assert DirectiveLine(ls[k]);
    }
  }

  lemma DirectivesOfBody(ls: seq<string>)
    requires GoodLines(ls) && ls != []
    ensures Directives(BodyText(ls)) == ls
  {
    hide GoodLine, DirectiveLine, Lines, DirectivesOf, LineBreak;
    BodyIsLined(ls);
    GoodChars(ls);
    assert LineBreak('\n') by { BreakIsBreak(); }
    LinesOfLined(LineBreak, [""] + ls + [""]);
    DirectivesSum([""] + ls, [""]);
    DirectivesSum([""], ls);
    NoDirective();
    assert DirectiveLines(ls) by { GoodAreDirectives(ls); }
    DirectivesAreLines(ls);
  }

  lemma NoDirective()
    ensures DirectivesOf([""]) == []
  {
    TrimmedIsFixed(PySpace, "");
    assert [""][1..] == [];
  }

  lemma GoodAreDirectives(ls: seq<string>)
    requires GoodLines(ls)
    ensures DirectiveLines(ls)
  {
    hide PairFree;
    forall k | 0 <= k < |ls| ensures DirectiveLine(ls[k]) {
      assert GoodLine(ls[k]);
    }
  }

  // ---------------------------------------------------------------------------------------------
  // The headers.

  /** The words of a header after the first. */
  ghost predicate LocationWords(words: seq<string>) {
    |words| >= 2 && words[0] == "location" && HeaderWords(words)
  }

  lemma NotALocation(x: string, words: seq<string>)
    requires LocationWords(words) && OneLine(x) && (Blanks(x) < |x| ==> x[Blanks(x)] != 'l')
    ensures NoHeader(x, words)
  {
    hide MatchWords, Blanks;
    var y := x[Blanks(x)..];
    UnfoldMatch(y, words);
    assert "location"[0] == 'l';
  }

  lemma LocationMatch(y: string, words: seq<string>)
    requires LocationWords(words) && y != [] && !Blank(y[0])
    ensures HeaderAt("location " + y, words, 0)
            == if MatchWords(y, words[1..]).Some? then Some(8 + MatchWords(y, words[1..]).value) else None
  {
    hide MatchWords, HeaderWords, HeaderAt;
    var w := "location";
    assert "location " == w + " " && !Blank(w[0]);
    assert (w + " " + y)[0] == w[0];
    FirstWord(w, y, words);
    HeaderAtStart(w + " " + y, words);
  }

  lemma FirstWord(w: string, y: string, words: seq<string>)
    requires |words| >= 2 && words[0] == w && y != [] && !Blank(y[0])
    ensures MatchWords(w + " " + y, words) == Shift(|w| + 1, MatchWords(y, words[1..]))
  {
    hide MatchWords, Blanks, Blank;
    var x := w + " " + y;
    AfterWord(w, y);
    BlankSpace();
    BlanksOf(" ", y);
    UnfoldMatch(x, words);
  }

  lemma AfterWord(w: string, y: string)
    ensures w <= w + " " + y && (w + " " + y)[|w|..] == " " + y && (w + " " + y)[|w| + 1..] == y
  {
  }

  lemma BlankSpace()
    ensures All(Blank, " ")
  {
  }

  lemma HeaderAtStart(x: string, words: seq<string>)
    requires words != [] && x != [] && !Blank(x[0])
    ensures HeaderAt(x, words, 0) ==
            if MatchWords(x, words).Some? then Some(MatchWords(x, words).value - 1) else None
  {
    hide MatchWords;
    assert x[0..] == x && Blanks(x) == 0;
  }

  lemma Single(y: string, w: string)
    ensures w <= y ==> var n := |w| + Blanks(y[|w|..]);
                       MatchWords(y, [w]) == if n < |y| && y[n] == '{' then Some(n + 1) else None
    ensures !(w <= y) ==> MatchWords(y, [w]) == None
  {
    hide MatchWords, Blanks;
    UnfoldMatch(y, [w]);
    assert [w][0] == w;
  }

  lemma BlankThenBrace()
    ensures Blanks(" {") == 1 && Blanks("{") == 0
  {
    BlanksOf(" ", "{");
    assert " {" == " " + "{";
  }

  lemma RootPath()
    ensures MatchWords("/ {", ["/"]) == Some(3) && MatchWords("/ {", ["/api/"]) == None
    ensures MatchWords("/ {", ["/uploads/"]) == None
  {
    hide MatchWords, Blanks;
    BlankThenBrace();
    Single("/ {", "/");
    Single("/ {", "/api/");
    Single("/ {", "/uploads/");
    assert "/ {"[1..] == " {";
  }

  lemma ApiPath()
    ensures MatchWords("/api/ {", ["/"]) == None && MatchWords("/api/ {", ["/api/"]) == Some(7)
    ensures MatchWords("/api/ {", ["/uploads/"]) == None
  {
    hide MatchWords;
    BlankThenBrace();
    Single("/api/ {", "/");
    Single("/api/ {", "/api/");
    Single("/api/ {", "/uploads/");
    assert "/api/ {"[5..] == " {" && "/api/ {"[1..] == "api/ {" && Blanks("api/ {") == 0;
  }

  lemma UploadsPath()
    ensures MatchWords("/uploads/ {", ["/"]) == None && MatchWords("/uploads/ {", ["/uploads/"]) == Some(11)
    ensures MatchWords("/uploads/ {", ["/api/"]) == None
  {
    hide MatchWords, Blanks;
    var y := "/uploads/ {";
    BlankThenBrace();
    Single(y, "/");
    Single(y, "/api/");
    Single(y, "/uploads/");
    assert y[1] == 'u' && "/api/"[1] == 'a' && y[9..] == " {";
    BlanksOf("", y[1..]);
    assert "" + y[1..] == y[1..];
  }

  lemma HealthPath()
    ensures MatchWords("= /health {", ["=", "/health"]) == Some(11)
  {
    hide MatchWords, Blanks;
    BlankThenBrace();
    var y, words := "= /health {", ["=", "/health"];
    UnfoldMatch(y, words);
    assert !Blank("/health {"[0]);
    BlanksOf(" ", "/health {");
    assert y[1..] == " " + "/health {" && y[2..] == "/health {" && words[1..] == ["/health"];
    Single("/health {", "/health");
    assert "/health {"[7..] == " {";
  }

  lemma OtherPath(y: string, words: seq<string>)
    requires words != [] && words[0] != [] && y != [] && y[0] != words[0][0]
    ensures MatchWords(y, words) == None
  {
    hide MatchWords, Blanks;
    UnfoldMatch(y, words);
  }

  ghost predicate HeaderOnly(words: seq<string>, root: bool, api: bool, uploads: bool, health: bool) {
    && LocationWords(words)
    && HeaderAt(ROOT + "{", words, 0) == (if root then Some(|ROOT|) else None)
    && HeaderAt(API_FRONT + "{", words, 0) == (if api then Some(|API_FRONT|) else None)
    && HeaderAt(UPLOADS + "{", words, 0) == (if uploads then Some(|UPLOADS|) else None)
    && HeaderAt(HEALTH + "{", words, 0) == (if health then Some(|HEALTH|) else None)
  }

  lemma HeaderLines(words: seq<string>)
    requires LocationWords(words)
    ensures var r, a, u, h := MatchWords("/ {", words[1..]), MatchWords("/api/ {", words[1..]),
                              MatchWords("/uploads/ {", words[1..]), MatchWords("= /health {", words[1..]);
            && HeaderAt(ROOT + "{", words, 0) == (if r.Some? then Some(8 + r.value) else None)
            && HeaderAt(API_FRONT + "{", words, 0) == (if a.Some? then Some(8 + a.value) else None)
            && HeaderAt(UPLOADS + "{", words, 0) == (if u.Some? then Some(8 + u.value) else None)
            && HeaderAt(HEALTH + "{", words, 0) == (if h.Some? then Some(8 + h.value) else None)
  {
    hide MatchWords, HeaderAt, LocationWords;
    LocationMatch("/ {", words);
    LocationMatch("/api/ {", words);
    LocationMatch("/uploads/ {", words);
    LocationMatch("= /health {", words);
    assert ROOT + "{" == "location " + "/ {" && API_FRONT + "{" == "location " + "/api/ {";
    assert UPLOADS + "{" == "location " + "/uploads/ {" && HEALTH + "{" == "location " + "= /health {";
  }

  lemma HeadersDiffer()
    ensures HeaderOnly(["location", "/"], true, false, false, false)
    ensures HeaderOnly(["location", "/api/"], false, true, false, false)
    ensures HeaderOnly(["location", "/uploads/"], false, false, true, false)
    ensures HeaderOnly(["location", "=", "/health"], false, false, false, true)
  {
    hide MatchWords, HeaderAt;
    var r, a, u, h := ["location", "/"], ["location", "/api/"], ["location", "/uploads/"], ["location", "=", "/health"];
    assert r[1..] == ["/"] && a[1..] == ["/api/"] && u[1..] == ["/uploads/"] && h[1..] == ["=", "/health"];
    RootPath();
    ApiPath();
    UploadsPath();
    HealthPath();
    OtherPath("= /health {", ["/"]);
    OtherPath("= /health {", ["/api/"]);
    OtherPath("= /health {", ["/uploads/"]);
    OtherPath("/ {", h[1..]);
    OtherPath("/api/ {", h[1..]);
    OtherPath("/uploads/ {", h[1..]);
    HeaderLines(r);
    HeaderLines(a);
    HeaderLines(u);
    HeaderLines(h);
  }

  ghost predicate NoneOf(ls: seq<string>, words: seq<string>)
    requires words != []
  {
    forall k :: 0 <= k < |ls| ==> NoHeader(ls[k], words)
  }

  lemma DirectiveIsNoHeader(x: string, words: seq<string>)
    requires LocationWords(words) && GoodLine(x) && x[0] != 'l'
    ensures NoHeader(x, words)
  {
    hide PairFree;
    assert !Blank(x[0]) by { BlankIsSpace(x[0]); }
    NotALocation(x, words);
  }

  lemma BlankIsSpace(c: char)
    ensures Blank(c) ==> PySpace(c)
  {
  }

  lemma HeadHasNone(words: seq<string>)
    requires LocationWords(words)
    ensures NoneOf(Head(), words)
  {
    hide NoHeader;
    var a, b := "  ", "server {";
    assert SERVER_LINE == a + b && b[0] == 's';
    BlanksOf(a, b);
    var c, d := "    ", "server_name " + "masterbudet.ru;";
    assert MARKER == c + d && d[0] == 's';
    BlanksOf(c, d);
    MarkerLine();
    NotALocation("", words);
    NotALocation(SERVER_LINE, words);
    NotALocation(MARKER, words);
  }

  lemma MarkerLine()
    ensures OneLine(MARKER) && OneLine(SERVER_LINE) && OneLine("")
  {
    var a, b := "    server_name ", "masterbudet.ru;";
    forall i | 0 <= i < |MARKER| ensures MARKER[i] != '\n' {
      if i < 16 { assert MARKER[i] == a[i]; } else { assert MARKER[i] == b[i - 16]; }
    }
  }

  lemma BlockHasNone(front: string, inner: seq<string>, words: seq<string>)
    requires LocationWords(words) && NoHeader(front + "{", words) && NoneOf(inner, words)
    ensures NoneOf(Block(front, inner), words)
  {
    hide NoHeader, GoodLine;
    GoodClosing();
    DirectiveIsNoHeader("}", words);
  }

  lemma DirectivesHaveNone(words: seq<string>)
    requires LocationWords(words)
    ensures NoneOf(InHealth(), words) && NoneOf([FRONTEND], words) && NoneOf(["}"], words) && NoneOf(Tail(), words)
  {
    hide NoHeader, GoodLine, EndsUniquely;
    TrustedFacts();
    GoodDirectives();
    GoodClosing();
    DirectiveIsNoHeader(BACKEND, words);
    DirectiveIsNoHeader(FRONTEND, words);
    DirectiveIsNoHeader(REAL_IP, words);
    DirectiveIsNoHeader(TRUSTED, words);
    DirectiveIsNoHeader(PROTO, words);
    DirectiveIsNoHeader("}", words);
  }

  // ---------------------------------------------------------------------------------------------
  // The blocks.

  lemma NestedText(pre: seq<string>, front: string, inner: seq<string>)
    requires inner != []
    ensures BodyText(pre + Block(front, inner))
            == "\n" + (if pre == [] then "" else Lined(pre) + "\n") + front + ("{" + BodyText(inner) + "}") + "\n"
  {
    hide Lined;
    var x := front + "{";
    LinedAppend([x] + inner, ["}"]);
    LinedAppend([x], inner);
    SingleLine(x);
    SingleLine("}");
    if pre == [] {
      assert pre + Block(front, inner) == Block(front, inner);
    } else {
      LinedAppend(pre, Block(front, inner));
    }
  }

  lemma SingleLine(x: string)
    ensures Lined([x]) == x
  {
  }

  /** One block with its header, found among lines without one. */
  lemma BlockFound(a: seq<string>, front: string, inner: seq<string>, after: seq<string>, words: seq<string>)
    requires LocationWords(words) && a != [] && inner != [] && OneLine(front + "{")
    requires NoneOf(a, words) && NoneOf(inner, words) && NoneOf(["}"] + after, words)
    requires HeaderAt(front + "{", words, 0) == Some(|front|) && IsBody(BodyText(inner))
    ensures var s, open := Lined(a + Block(front, inner) + after), |Lined(a)| + 1 + |front|;
            && FindBlock(s, words) == Ok((open, open + 1 + |BodyText(inner)|))
            && open + 1 + |BodyText(inner)| < |s| && s[open + 1..open + 1 + |BodyText(inner)|] == BodyText(inner)
  {
    hide Lined, OneLine, HeaderAt, NoHeader, IsBody, FindBlock, Headers, HeaderWords;
    var x, rest, body := front + "{", inner + (["}"] + after), BodyText(inner);
    assert a + Block(front, inner) + after == a + ([x] + rest);
    LinedAppend(a, [x] + rest);
    LinedCons(x, rest);
    var s := Lined(a + Block(front, inner) + after);
    HeaderAmong(a, x, rest, words);
    assert Headers(s, words, 0) == [|Lined(a)| + |x|];
    var open := |Lined(a)| + |x|;
    LinedAppend(inner, ["}"] + after);
    Cut(Lined(a), x, Lined(rest));
    ClosingLine(after);
    assert "\n" + Lined(rest) == body + Lined(["}"] + after);
    assert body + "}" <= s[open + 1..];
    BodyFound(s, words, open, body);
  }

  lemma Cut(a: string, x: string, rest: string)
    ensures (a + "\n" + (x + "\n" + rest))[|a| + |x| + 1..] == "\n" + rest
  {
  }

  lemma ClosingLine(after: seq<string>)
    ensures "}" <= Lined(["}"] + after)
  {
    if after == [] {
      assert ["}"] + after == ["}"];
    } else {
      LinedCons("}", after);
    }
  }

  lemma BodyFound(s: string, words: seq<string>, open: nat, body: string)
    requires words != [] && Headers(s, words, 0) == [open] && open < |s| && IsBody(body) && body + "}" <= s[open + 1..]
    ensures FindBlock(s, words) == Ok((open, open + 1 + |body|))
    ensures open + 1 + |body| < |s| && s[open + 1..open + 1 + |body|] == body
  {
    hide Headers, Close, IsBody;
    var t, n := s[open + 1..], |body|;
    assert body == (body + "}")[..n] == t[..n] && t[n] == (body + "}")[n] == '}';
    CloseExactly(t, n);
    assert s[open + 1..open + 1 + n] == t[..n];
  }

  lemma OrdinaryFront(pre: string, front: string)
    requires Quiet(front) && (pre == [] || exists x :: Quiet(x) && pre == x + "\n")
    ensures forall i :: 0 <= i < |"\n" + pre + front| ==> var c := ("\n" + pre + front)[i]; Ordinary(c) || c == '\n'
  {
  }

  lemma PlainBody(ls: seq<string>)
    requires ls != [] && forall k :: 0 <= k < |ls| ==> Quiet(ls[k])
    ensures IsBody(BodyText(ls))
  {
    hide IsBody, Quiet, Lined;
    var s := BodyText(ls);
    LinedChars(ls);
    OrdinaryIsBody(s);
  }

  lemma {:induction false} LinedChars(ls: seq<string>)
    requires ls != [] && forall k :: 0 <= k < |ls| ==> Quiet(ls[k])
    ensures forall i :: 0 <= i < |Lined(ls)| ==> Ordinary(Lined(ls)[i]) || Lined(ls)[i] == '\n'
  {
    hide Ordinary, QuietPair;
    assert Quiet(ls[0]);
    if |ls| > 1 {
      var rest := Lined(ls[1..]);
      LinedChars(ls[1..]);
      assert Lined(ls) == ls[0] + "\n" + rest;
      forall i | 0 <= i < |Lined(ls)| ensures Ordinary(Lined(ls)[i]) || Lined(ls)[i] == '\n' {
        if i > |ls[0]| {
          assert Lined(ls)[i] == rest[i - |ls[0]| - 1];
        }
      }
    }
  }

  lemma BodyOfBlock(front: string, inner: seq<string>)
    requires Quiet(front) && inner != [] && IsBody(BodyText(inner))
    ensures IsBody(BodyText(Block(front, inner)))
  {
    hide IsBody, Quiet, Block, BodyText;
    NestedText([], front, inner);
    OrdinaryFront([], front);
    assert [] + Block(front, inner) == Block(front, inner);
    BlockInBlock("\n" + "" + front, BodyText(inner));
  }

  lemma BodyOfRoot(pre: string, front: string, inner: seq<string>)
    requires Quiet(pre) && Quiet(front) && inner != [] && IsBody(BodyText(inner))
    ensures IsBody(BodyText([pre] + Block(front, inner)))
  {
    hide IsBody, Quiet, Block, BodyText;
    NestedText([pre], front, inner);
    SingleLine(pre);
    OrdinaryFront(pre + "\n", front);
    BlockInBlock("\n" + (pre + "\n") + front, BodyText(inner));
  }

  lemma Bodies()
    ensures IsBody(BodyText(InHealth())) && IsBody(BodyText(InUploads())) && IsBody(BodyText(InApi()))
            && IsBody(BodyText(InRoot()))
  {
    hide IsBody, Quiet, BodyText, Block;
    QuietProxies();
    QuietRealIp();
    QuietForwarded();
    QuietFronts();
    PlainBody(InHealth());
    BodyOfBlock(HEALTH, InHealth());
    NotEmpty(HEALTH, InHealth());
    BodyOfBlock(UPLOADS, InUploads());
    NotEmpty(UPLOADS, InUploads());
    BodyOfRoot(FRONTEND, API_FRONT, InApi());
  }

  lemma NotEmpty(front: string, inner: seq<string>)
    ensures Block(front, inner) != []
  {
  }

  // ---------------------------------------------------------------------------------------------
  // The last line.

  /** A line outside of the blocks that holds the directive once and is no proxy line. */
  ghost predicate Outer(z: string) {
    && z != [] && z[0] == 'p' && Trimmed(PySpace, z) && z != BACKEND && z != FRONTEND
    && Quiet(z) && Total(z) == 1
  }

  lemma OuterHasNone(z: string, words: seq<string>)
    requires Outer(z) && LocationWords(words)
    ensures NoHeader(z, words)
  {
    assert Ordinary(z[0]);
    NotALocation(z, words);
  }

  lemma OuterLines()
    ensures Outer(TRUSTED) && Outer(Enclosed(1))
  {
    hide Quiet, Total, EndsUniquely, PySpace;
    TrustedFacts();
    Lengths();
    TotalTrusted();
    QuietForwarded();
    QuietChar('p');
    QuietAppend("p", TRUSTED);
    QuietSuffix(TRUSTED);
    assert TRUSTED[1] == 'r' && TRUSTED[..1] == "p";
    assert Enclosed(1) == "p" + TRUSTED + TRUSTED[1..];
    QuietAppend("p" + TRUSTED, TRUSTED[1..]);
    TotalShort("p");
    TotalShort(TRUSTED[1..]);
    CountOriginal("p", TRUSTED[1..]);
    assert !PySpace('p') && !PySpace(';') by { DirectiveEdges(); }
  }

  lemma QuietSuffix(x: string)
    requires Quiet(x) && x != []
    ensures Quiet(x[1..])
  {
    hide Ordinary, QuietPair;
    var y := x[1..];
    forall i | 0 <= i < |y| - 1 ensures QuietPair(y[i], y[i + 1]) {
      assert QuietPair(x[i + 1], x[i + 1 + 1]);
    }
  }

  // ---------------------------------------------------------------------------------------------
  // All checks together.

  lemma BlockPasses(a: seq<string>, front: string, inner: seq<string>, after: seq<string>, location: Location,
      frontends: nat)
    requires LocationWords(location.header) && a != [] && inner != [] && OneLine(front + "{")
    requires NoneOf(a, location.header) && NoneOf(inner, location.header) && NoneOf(["}"] + after, location.header)
    requires HeaderAt(front + "{", location.header, 0) == Some(|front|) && IsBody(BodyText(inner))
    requires GoodLines(inner) && Tally(inner, frontends)
    requires location.proxy == BACKEND || (location.proxy == FRONTEND && frontends == 1)
    ensures LocationOk(Lined(a + Block(front, inner) + after), location)
    ensures var open := |Lined(a)| + 1 + |front|;
            FindBlock(Lined(a + Block(front, inner) + after), location.header)
                == Ok((open, open + 1 + |BodyText(inner)|))
  {
    hide Lined, OneLine, HeaderAt, NoHeader, IsBody, FindBlock, HeaderWords, GoodLine, Tally, BodyText, Block,
         Directives, DirectivesOk;
    BlockFound(a, front, inner, after, location.header);
    DirectivesOfBody(inner);
    LinesPass(inner, frontends);
  }

  /** The lines before and after what is inside a block. */
  lemma Inward(a: seq<string>, front: string, inner: seq<string>, after: seq<string>)
    ensures a + Block(front, inner) + after == (a + [front + "{"]) + inner + (["}"] + after)
  {
  }

  function BeforeApi(): seq<string> { Head() + [ROOT + "{"] + [FRONTEND] }
  function AfterApi(z: string): seq<string> { ["}"] + (Tail() + [z]) }
  function BeforeUploads(): seq<string> { BeforeApi() + [API_FRONT + "{"] }
  function AfterUploads(z: string): seq<string> { ["}"] + AfterApi(z) }
  function BeforeHealth(): seq<string> { BeforeUploads() + [UPLOADS + "{"] }
  function AfterHealth(z: string): seq<string> { ["}"] + AfterUploads(z) }

  lemma ServerByBlocks(z: string)
    requires Outer(z)
    ensures ServerLines(z) == BeforeApi() + Block(API_FRONT, InApi()) + AfterApi(z)
    ensures ServerLines(z) == BeforeUploads() + Block(UPLOADS, InUploads()) + AfterUploads(z)
    ensures ServerLines(z) == BeforeHealth() + Block(HEALTH, InHealth()) + AfterHealth(z)
  {
    hide Block, Head, Tail, InHealth;
    Inward(Head(), ROOT, InRoot(), Tail() + [z]);
    assert ServerLines(z)
        == (Head() + [ROOT + "{"]) + ([FRONTEND] + Block(API_FRONT, InApi())) + (["}"] + (Tail() + [z]));
    assert ServerLines(z) == BeforeApi() + Block(API_FRONT, InApi()) + AfterApi(z);
    Inward(BeforeApi(), API_FRONT, InApi(), AfterApi(z));
    Inward(BeforeUploads(), UPLOADS, InUploads(), AfterUploads(z));
  }

  lemma FrontsAreLines()
    ensures OneLine(ROOT + "{") && OneLine(API_FRONT + "{") && OneLine(UPLOADS + "{") && OneLine(HEALTH + "{")
  {
    hide Quiet;
    QuietFronts();
    QuietIsLine(ROOT);
    QuietIsLine(API_FRONT);
    QuietIsLine(UPLOADS);
    QuietIsLine(HEALTH);
  }

  lemma QuietIsLine(front: string)
    requires Quiet(front)
    ensures OneLine(front + "{")
  {
  }

  /** Where a header other than the given ones is not found. */
  lemma OthersHaveNone(z: string, words: seq<string>, root: bool, api: bool, uploads: bool, health: bool)
    requires Outer(z) && HeaderOnly(words, root, api, uploads, health)
    ensures NoneOf(["}"] + AfterHealth(z), words) && NoneOf(["}"] + AfterUploads(z), words)
    ensures NoneOf(["}"] + AfterApi(z), words) && NoneOf(["}"] + (Tail() + [z]), words)
    ensures NoneOf(Head(), words) && (!root ==> NoneOf(BeforeApi(), words))
    ensures !root && !api ==> NoneOf(BeforeUploads(), words)
    ensures !root && !api && !uploads ==> NoneOf(BeforeHealth(), words)
    ensures NoneOf(InHealth(), words) && (!health ==> NoneOf(InUploads(), words))
    ensures !health && !uploads ==> NoneOf(InApi(), words)
    ensures !health && !uploads && !api ==> NoneOf(InRoot(), words)
  {
    hide HeaderAt, OneLine, HeaderWords, Block, Head, Tail, InHealth, Outer;
    FrontsAreLines();
    OuterHasNone(z, words);
    DirectivesHaveNone(words);
    HeadHasNone(words);
    if !health {
      BlockHasNone(HEALTH, InHealth(), words);
    }
    if !health && !uploads {
      BlockHasNone(UPLOADS, InUploads(), words);
    }
    if !health && !uploads && !api {
      BlockHasNone(API_FRONT, InApi(), words);
    }
  }

  lemma RootPasses(z: string)
    requires Outer(z)
    ensures LocationOk(NestedServer(z), LOCATIONS[3])
  {
    hide Lined, OneLine, HeaderWords, IsBody, GoodLine, Tally, BodyText, Block, LocationOk, FindBlock, NoneOf,
         InRoot, Head, Tail, HeaderAt;
    HeadersDiffer();
    OthersHaveNone(z, ["location", "/"], true, false, false, false);
    FrontsAreLines();
    Bodies();
    GoodInside();
    Tallies();
    InsideNotEmpty();
    BlockPasses(Head(), ROOT, InRoot(), Tail() + [z], LOCATIONS[3], 1);
  }

  lemma InsideNotEmpty()
    ensures Head() != [] && InRoot() != [] && InApi() != [] && InUploads() != [] && InHealth() != []
    ensures BeforeApi() != [] && BeforeUploads() != [] && BeforeHealth() != []
  {
  }

  lemma ApiPasses(z: string)
    requires Outer(z)
    ensures LocationOk(NestedServer(z), LOCATIONS[1])
  {
    hide Lined, OneLine, HeaderWords, IsBody, GoodLine, Tally, BodyText, Block, LocationOk, FindBlock, NoneOf, InApi,
         BeforeApi, AfterApi, HeaderAt;
    HeadersDiffer();
    OthersHaveNone(z, ["location", "/api/"], false, true, false, false);
    FrontsAreLines();
    Bodies();
    GoodInside();
    Tallies();
    ServerByBlocks(z);
    InsideNotEmpty();
    BlockPasses(BeforeApi(), API_FRONT, InApi(), AfterApi(z), LOCATIONS[1], 0);
  }

  function HealthOpen(): nat { |Lined(BeforeHealth())| + 1 + |HEALTH| }
  function HealthClose(): nat { HealthOpen() + 1 + |BodyText(InHealth())| }
  function UploadsOpen(): nat { |Lined(BeforeUploads())| + 1 + |UPLOADS| }
  function UploadsClose(): nat { UploadsOpen() + 1 + |BodyText(InUploads())| }

  lemma UploadsPasses(z: string)
    requires Outer(z)
    ensures LocationOk(NestedServer(z), LOCATIONS[2])
    ensures FindBlock(NestedServer(z), LOCATIONS[2].header) == Ok((UploadsOpen(), UploadsClose()))
  {
    hide Lined, OneLine, HeaderWords, IsBody, GoodLine, Tally, BodyText, Block, LocationOk, FindBlock, NoneOf,
         InUploads, BeforeUploads, AfterUploads, HeaderAt;
    HeadersDiffer();
    OthersHaveNone(z, ["location", "/uploads/"], false, false, true, false);
    FrontsAreLines();
    Bodies();
    GoodInside();
    Tallies();
    ServerByBlocks(z);
    InsideNotEmpty();
    BlockPasses(BeforeUploads(), UPLOADS, InUploads(), AfterUploads(z), LOCATIONS[2], 0);
  }

  lemma HealthPasses(z: string)
    requires Outer(z)
    ensures LocationOk(NestedServer(z), LOCATIONS[0])
    ensures FindBlock(NestedServer(z), LOCATIONS[0].header) == Ok((HealthOpen(), HealthClose()))
  {
    hide Lined, OneLine, HeaderWords, IsBody, GoodLine, Tally, BodyText, Block, LocationOk, FindBlock, NoneOf,
         InHealth, BeforeHealth, AfterHealth, HeaderAt;
    HeadersDiffer();
    OthersHaveNone(z, ["location", "=", "/health"], false, false, false, true);
    FrontsAreLines();
    Bodies();
    GoodInside();
    Tallies();
    ServerByBlocks(z);
    InsideNotEmpty();
    BlockPasses(BeforeHealth(), HEALTH, InHealth(), AfterHealth(z), LOCATIONS[0], 0);
  }

  function Rest(): seq<string> { Block(ROOT, InRoot()) + Tail() }

  lemma ServerIsHeadAndRest(z: string)
    requires Outer(z)
    ensures ServerLines(z) == Head() + Rest() + [z]
    ensures NestedServer(z) == Lined(Head()) + "\n" + Lined(Rest()) + "\n" + z
    ensures Rest() != [] && GoodLines(Rest())
  {
    hide Lined, GoodLine, Block, InRoot, Tail, Outer;
    GoodInside();
    NotEmpty(ROOT, InRoot());
    InsideNotEmpty();
    assert ServerLines(z) == Head() + Rest() + [z];
    LinedAppend(Head() + Rest(), [z]);
    LinedAppend(Head(), Rest());
    SingleLine(z);
  }

  lemma HeadText()
    ensures Lined(Head()) == "\n" + SERVER_LINE + "\n" + MARKER && |Lined(Head())| == 43
  {
    MarkerFacts();
    LinedCons(SERVER_LINE, [MARKER]);
    LinedCons("", [SERVER_LINE] + [MARKER]);
    assert Head() == [""] + ([SERVER_LINE] + [MARKER]);
    SingleLine(MARKER);
  }

  lemma NumberTail()
    ensures Number(Tail(), TRUSTED) == 2 && Number(Tail(), BACKEND) == 2 && Number(Tail(), FRONTEND) == 0
  {
    hide Number;
    Lengths();
    NumberFour(TRUSTED, TRUSTED, BACKEND, BACKEND, TRUSTED);
    NumberFour(TRUSTED, TRUSTED, BACKEND, BACKEND, BACKEND);
    NumberFour(TRUSTED, TRUSTED, BACKEND, BACKEND, FRONTEND);
  }

  lemma NumberRest()
    ensures Number(Rest(), TRUSTED) == 3 && Number(Rest(), BACKEND) == 3 && Number(Rest(), FRONTEND) == 1
  {
    hide Number, Block, Tail;
    Tallies();
    NumberTail();
    NumberSum(Block(ROOT, InRoot()), Tail(), TRUSTED);
    NumberSum(Block(ROOT, InRoot()), Tail(), BACKEND);
    NumberSum(Block(ROOT, InRoot()), Tail(), FRONTEND);
  }

  lemma TrustedFourTimes(z: string)
    requires Outer(z)
    ensures TRUSTED != [] && Count(NestedServer(z), TRUSTED) == 4
  {
    hide Lined, GoodLine, DirectiveLine, Number, CountFrom, NumIn, OccursAt, EndsUniquely, Head, Rest;
    TrustedFacts();
    ServerIsHeadAndRest(z);
    HeadText();
    GoodAreDirectives(Rest());
    TotalOfLines(Rest());
    NumberRest();
    TotalShort(Lined(Head()));
    TotalLined(Lined(Head()), Lined(Rest()));
    TotalLined(Lined(Head()) + "\n" + Lined(Rest()), z);
    CountsAll(NestedServer(z), TRUSTED, 0);
  }

  lemma {:induction false} ShortLinesAreNoProxy(ls: seq<string>)
    requires forall k :: 0 <= k < |ls| ==> |ls[k]| < 32
    ensures ProxyLines(ls) == 0
  {
    hide Trim;
    if ls != [] {
      var front, back := TrimParts(PySpace, ls[0]);
      ShortLinesAreNoProxy(ls[1..]);
    }
  }

  lemma NoNewLines(z: string)
    requires Outer(z)
    ensures forall k, i :: 0 <= k < |ServerLines(z)| && 0 <= i < |ServerLines(z)[k]| ==> !NewLine(ServerLines(z)[k][i])
  {
    hide GoodLine, Rest, Lined;
    ServerIsHeadAndRest(z);
    GoodChars(Rest());
    MarkerLine();
    forall k, i | 0 <= k < |ServerLines(z)| && 0 <= i < |ServerLines(z)[k]| ensures !NewLine(ServerLines(z)[k][i]) {
      if k >= 3 + |Rest()| {
        assert ServerLines(z)[k] == z;
        assert Ordinary(z[i]);
      } else if k >= 3 {
        assert ServerLines(z)[k] == Rest()[k - 3];
        BreakIsBreak();
      } else {
        assert ServerLines(z)[k] == Head()[k];
      }
    }
  }

  lemma ProxyLinesOne(z: string)
    requires Outer(z)
    ensures ProxyLines([z]) == 0
  {
    TrimmedIsFixed(PySpace, z);
    assert [z][1..] == [];
  }

  lemma FourProxies(z: string)
    requires Outer(z)
    ensures ProxyLines(Lines(NewLine, NestedServer(z))) == 4
  {
    hide Lined, GoodLine, DirectiveLine, Number, Rest, Lines, ProxyLines;
    ServerIsHeadAndRest(z);
    NoNewLines(z);
    LinesOfLined(NewLine, ServerLines(z));
    ProxyLinesSum(Head() + Rest(), [z]);
    ProxyLinesSum(Head(), Rest());
    ProxyLinesOne(z);
    MarkerFacts();
    ShortLinesAreNoProxy(Head());
    GoodAreDirectives(Rest());
    DirectivesAreLines(Rest());
    NumberRest();
  }

  lemma {:induction false} PairFreeLines(ls: seq<string>, c: char, d: char)
    requires ls != [] && c != '\n' && d != '\n' && forall k :: 0 <= k < |ls| ==> PairFree(ls[k], c, d)
    ensures PairFree(Lined(ls), c, d)
  {
    hide PairFree;
    if |ls| > 1 {
      PairFreeLines(ls[1..], c, d);
      PairFreeLined(ls[0], Lined(ls[1..]), c, d);
    }
  }

  lemma PairFreeHead()
    ensures forall k :: 0 <= k < |Head()| ==> PairFree(Head()[k], '$', 'p') && PairFree(Head()[k], 'l', 'i')
  {
    MarkerFacts();
    forall i | 0 <= i < |MARKER| ensures MARKER[i] != 'l' && MARKER[i] != 'p' {
      MarkerHasNoL(i);
    }
  }

  lemma NoChainNoLimit(z: string)
    requires Outer(z)
    ensures !Contains(NestedServer(z), CHAIN) && !HasLimit(NestedServer(z))
  {
    hide Lined, DirectiveLine, Rest, PairFree, OccursAt;
    ServerIsHeadAndRest(z);
    PairFreeHead();
    QuietPairs(z);
    forall k | 0 <= k < |ServerLines(z)|
        ensures PairFree(ServerLines(z)[k], '$', 'p') && PairFree(ServerLines(z)[k], 'l', 'i') {
      if k >= 3 + |Rest()| {
        assert ServerLines(z)[k] == z;
      } else if k >= 3 {
        assert ServerLines(z)[k] == Rest()[k - 3];
        assert GoodLine(Rest()[k - 3]);
      } else {
        assert ServerLines(z)[k] == Head()[k];
      }
    }
    PairFreeLines(ServerLines(z), '$', 'p');
    PairFreeLines(ServerLines(z), 'l', 'i');
    NoChain(NestedServer(z));
    NoLimit(NestedServer(z));
  }

  lemma QuietPairs(x: string)
    requires Quiet(x)
    ensures PairFree(x, '$', 'p') && PairFree(x, 'l', 'i') && PairFree(x, ' ', ' ')
  {
  }

  lemma NoPair(s: string, p: string, i: nat)
    requires |p| >= 2 && PairFree(s, p[0], p[1])
    ensures !OccursAt(s, p, i)
  {
    hide OccursAt;
    if OccursAt(s, p, i) {
      CharAt(s, p, i, 0);
      CharAt(s, p, i, 1);
    }
  }

  lemma NoChain(s: string)
    requires PairFree(s, '$', 'p')
    ensures !Contains(s, CHAIN)
  {
    hide OccursAt, PairFree;
    assert CHAIN[0] == '$' && CHAIN[1] == 'p' && |CHAIN| >= 2;
    forall i: nat ensures !OccursAt(s, CHAIN, i) {
      NoPair(s, CHAIN, i);
    }
  }

  lemma NoLimit(s: string)
    requires PairFree(s, 'l', 'i')
    ensures !HasLimit(s)
  {
    hide OccursAt, PairFree;
    forall i: nat ensures !OccursAt(s, "limit_req", i) && !OccursAt(s, "limit_conn", i) {
      NoPair(s, "limit_req", i);
      NoPair(s, "limit_conn", i);
    }
  }

  lemma NestedPasses(z: string)
    requires Outer(z)
    ensures ServerOk(NestedServer(z))
  {
    hide LocationOk, ProxyLines, Lines, CountFrom, HasLimit, Contains, NestedServer, FindBlock, HealthOpen,
         HealthClose, UploadsOpen, UploadsClose, Outer, EndsUniquely;
    NoChainNoLimit(z);
    FourProxies(z);
    TrustedFourTimes(z);
    RootPasses(z);
    ApiPasses(z);
    UploadsPasses(z);
    HealthPasses(z);
  }

  // ---------------------------------------------------------------------------------------------
  // The blocks share a directive.

  lemma HealthIsInUploads()
    ensures UploadsOpen() < HealthOpen() && HealthClose() < UploadsClose()
  {
    hide Lined, BodyText, Block, InHealth, BeforeUploads;
    InsideNotEmpty();
    LinedAppend(BeforeUploads(), [UPLOADS + "{"]);
    SingleLine(UPLOADS + "{");
    NestedText([], HEALTH, InHealth());
    assert [] + Block(HEALTH, InHealth()) == InUploads();
  }

  lemma InBoth(z: string, i: nat)
    requires Outer(z) && HealthOpen() < i && i + |TRUSTED| <= HealthClose()
    ensures Inside(NestedServer(z), 0, i) && Inside(NestedServer(z), 2, i)
  {
    hide FindBlock, Outer, NestedServer, HealthOpen, HealthClose, UploadsOpen, UploadsClose;
    HealthPasses(z);
    UploadsPasses(z);
    HealthIsInUploads();
  }

  lemma TrustedInHealth(z: string) returns (i: nat)
    requires Outer(z)
    ensures HealthOpen() < i && i + |TRUSTED| <= HealthClose() && OccursAt(NestedServer(z), TRUSTED, i)
  {
    hide LocationOk, FindBlock, Outer, NestedServer, HealthOpen, HealthClose, OccursAt, FirstOnLine;
    HealthPasses(z);
    i := TrustedInBlock(NestedServer(z), LOCATIONS[0]);
  }

  /** A server that passes although one occurrence of the directive is in two of its blocks. */
  lemma SharedDirective(z: string)
    requires Outer(z)
    ensures ServerOk(NestedServer(z)) && !Separate(NestedServer(z)) && !exists o :: OneToOne(NestedServer(z), o)
  {
    hide ServerOk, OccursAt, NestedServer, Outer, OneToOne, Inside, HealthOpen, HealthClose;
    NestedPasses(z);
    var i := TrustedInHealth(z);
    InBoth(z, i);
    OneTrustedPerBlock(NestedServer(z));
  }

  // ---------------------------------------------------------------------------------------------
  // A whole configuration.

  function NestedConf(z: string): string { NestedServer(z) + OPENING }

  ghost predicate StartsDark(x: string) {
    OneLine(x) && x != [] && x[0] != ' '
  }

  lemma {:induction false} NoIndentation(ls: seq<string>)
    requires ls != [] && forall k :: 0 <= k < |ls| ==> StartsDark(ls[k])
    ensures PairFree(Lined(ls), '\n', ' ') && Lined(ls) != [] && Lined(ls)[0] != ' '
  {
    assert StartsDark(ls[0]);
    if |ls| > 1 {
      var rest := Lined(ls[1..]);
      NoIndentation(ls[1..]);
      assert Lined(ls) == ls[0] + "\n" + rest;
      AfterBreak(ls[0], rest);
    }
  }

  lemma AfterBreak(x: string, rest: string)
    requires OneLine(x) && rest != [] && rest[0] != ' ' && PairFree(rest, '\n', ' ')
    ensures PairFree(x + "\n" + rest, '\n', ' ')
  {
    var s := x + "\n" + rest;
    forall i | 0 <= i < |s| - 1 ensures s[i] != '\n' || s[i + 1] != ' ' {
      if i > |x| {
        assert s[i] == rest[i - |x| - 1] && s[i + 1] == rest[i - |x|];
      }
    }
  }

  lemma GoodStartsDark(x: string)
    requires GoodLine(x)
    ensures StartsDark(x)
  {
    hide PairFree;
    assert !PySpace(x[0]);
  }

  /** The lines below the server name: not indented and without two spaces in a row. */
  ghost predicate Below(m: string) {
    && m != [] && m[|m| - 1] == ';' && PairFree("\n" + m, '\n', ' ') && PairFree("\n" + m, ' ', ' ')
  }

  lemma RestIsBelow(z: string)
    requires Outer(z) && z[|z| - 1] == ';'
    ensures Below(Lined(Rest()) + "\n" + z)
  {
    hide Rest, GoodLine, Quiet, PairFree, Lined, NestedServer, StartsDark;
    ServerIsHeadAndRest(z);
    var ls := Rest() + [z];
    LinedAppend(Rest(), [z]);
    SingleLine(z);
    QuietPairs(z);
    QuietChars(z);
    assert StartsDark(z) by { OuterStartsDark(z); }
    forall k | 0 <= k < |ls| ensures StartsDark(ls[k]) && PairFree(ls[k], ' ', ' ') {
      if k < |Rest()| {
        GoodStartsDark(Rest()[k]);
        GoodPairs(Rest()[k]);
      }
    }
    NoIndentation(ls);
    PairFreeLines(ls, ' ', ' ');
    OneBreak();
    AfterBreak("", Lined(ls));
    PairFreeLined("", Lined(ls), ' ', ' ');
    assert "" + "\n" + Lined(ls) == "\n" + Lined(ls);
  }

  lemma OuterStartsDark(z: string)
    requires Outer(z) && OneLine(z)
    ensures StartsDark(z)
  {
  }

  lemma ServerText(z: string)
    requires Outer(z)
    ensures NestedServer(z) == OPENING + "\n" + MARKER + ("\n" + (Lined(Rest()) + "\n" + z))
  {
    hide Rest, GoodLine, Outer, NestedServer, Head, Lined;
    ServerIsHeadAndRest(z);
    HeadText();
    assert OPENING == "\n" + SERVER_LINE;
  }

  lemma OneBreak()
    ensures PairFree("", ' ', ' ') && OneLine("")
  {
  }

  lemma GoodPairs(x: string)
    requires GoodLine(x)
    ensures PairFree(x, ' ', ' ')
  {
  }

  lemma QuietChars(x: string)
    requires Quiet(x)
    ensures OneLine(x)
  {
    forall i | 0 <= i < |x| ensures x[i] != '\n' {
      assert Ordinary(x[i]);
    }
  }

  /** Where a configuration in one piece has which characters. */
  lemma Layout(m: string, j: nat)
    requires Below(m)
    ensures var q, conf := "\n" + m, OPENING + "\n" + MARKER + ("\n" + m) + OPENING;
            && |conf| == 54 + |q| && (43 <= j < 42 + |q| ==> conf[j] == q[j - 43] && conf[j + 1] == q[j - 42])
            && conf[42 + |q|] == ';'
  {
    hide EndsUniquely, PairFree;
    OpeningFacts();
    MarkerFacts();
    var q, x := "\n" + m, OPENING + "\n" + MARKER;
    assert |x| == 43 && q[|q| - 1] == ';';
    var conf := x + q + OPENING;
    assert conf[42 + |q|] == q[|q| - 1];
  }

  lemma NoOpeningInHead(conf: string, j: nat)
    requires OPENING + "\n" + MARKER <= conf && 0 < j < 43
    ensures conf[j] != '\n' || (j + 3 < |conf| && conf[j + 3] != 's')
  {
    hide EndsUniquely;
    OpeningFacts();
    MarkerFacts();
    MarkerLine();
    var x := OPENING + "\n" + MARKER;
    assert conf[j] == x[j] && conf[14] == x[14] == MARKER[2] == ' ';
    assert j < 11 ==> x[j] == OPENING[j];
    assert j > 11 ==> x[j] == MARKER[j - 12];
  }

  lemma OpeningsOf(m: string, j: nat)
    requires Below(m)
    ensures var s := OPENING + "\n" + MARKER + ("\n" + m);
            OccursAt(s + OPENING, OPENING, j) ==> j == 0 || j == |s|
  {
    hide OccursAt;
    OpeningFacts();
    Layout(m, j);
    var s := OPENING + "\n" + MARKER + ("\n" + m);
    var conf := s + OPENING;
    if OccursAt(conf, OPENING, j) && j != 0 && j != |s| {
      CharAt(conf, OPENING, j, 10);
      CharAt(conf, OPENING, j, 3);
      CharAt(conf, OPENING, j, 1);
      if j < 43 {
        NoOpeningInHead(conf, j);
      }
      CharAt(conf, OPENING, j, 0);
    }
  }

  lemma MarkersOf(m: string, j: nat)
    requires Below(m)
    ensures OccursAt(OPENING + "\n" + MARKER + ("\n" + m) + OPENING, MARKER, j) <==> j == 12
  {
    hide OccursAt, EndsUniquely;
    OpeningFacts();
    MarkerFacts();
    Layout(m, j);
    var conf := OPENING + "\n" + MARKER + ("\n" + m) + OPENING;
    MarkerThere("\n" + m);
    assert MARKER[0] == ' ' && MARKER[1] == ' ' && MARKER[2] == ' ';
    if j < 12 {
      MarkerNotBefore(conf, j);
    } else if 12 < j < 43 && OccursAt(conf, MARKER, j) {
      NoSelfOverlap(conf, MARKER, 12, j);
    } else if 12 < j && OccursAt(conf, MARKER, j) {
      CharAt(conf, MARKER, j, 30);
      CharAt(conf, MARKER, j, 1);
      CharAt(conf, MARKER, j, 0);
    }
  }

  lemma MarkerThere(q: string)
    ensures OccursAt(OPENING + "\n" + MARKER + q + OPENING, MARKER, 12)
  {
    OpeningFacts();
    var conf := OPENING + "\n" + MARKER + q + OPENING;
    assert conf[12..12 + |MARKER|] == MARKER;
  }

  lemma MarkerNotBefore(conf: string, j: nat)
    requires OPENING + "\n" <= conf && j < 12
    ensures !OccursAt(conf, MARKER, j)
  {
    hide OccursAt, EndsUniquely;
    MarkerFacts();
    NotThreeSpaces(conf, j);
    assert MARKER[0] == ' ' && MARKER[1] == ' ' && MARKER[2] == ' ';
    if OccursAt(conf, MARKER, j) {
      CharAt(conf, MARKER, j, 2);
      CharAt(conf, MARKER, j, 1);
      CharAt(conf, MARKER, j, 0);
    }
  }

  lemma NotThreeSpaces(conf: string, j: nat)
    requires OPENING + "\n" <= conf && j < 12
    ensures conf[j] != ' ' || j + 2 >= |conf| || conf[j + 1] != ' ' || conf[j + 2] != ' '
  {
    var s := "\n  server {\n";
    assert OPENING + "\n" == s;
    assert forall i :: 0 <= i < 12 ==> conf[i] == s[i];
  }

  lemma SliceOfNested(m: string)
    requires Below(m)
    ensures var s := OPENING + "\n" + MARKER + ("\n" + m); Slice(s + OPENING, 12, 0, |s|)
  {
    hide OccursAt, EndsUniquely, Below;
    OpeningFacts();
    MarkerFacts();
    var s := OPENING + "\n" + MARKER + ("\n" + m);
    var conf := s + OPENING;
    assert OccursAt(conf, OPENING, 0) && OccursAt(conf, OPENING, |s|) by { OpeningsThere(s); }
    forall j: nat ensures OccursAt(conf, MARKER, j) <==> j == 12 {
      MarkersOf(m, j);
    }
    forall j: nat | OccursAt(conf, OPENING, j) ensures j == 0 || j == |s| {
      OpeningsOf(m, j);
    }
  }

  lemma OpeningsThere(s: string)
    requires OPENING <= s
    ensures OccursAt(s + OPENING, OPENING, 0) && OccursAt(s + OPENING, OPENING, |s|)
  {
  }

  /** A configuration that is accepted although its blocks share a directive. */
  lemma NestedAccepted(z: string)
    requires Outer(z) && z[|z| - 1] == ';'
    ensures Accepts(NestedConf(z)) && Server(NestedConf(z)) == Some((0, |NestedServer(z)|))
  {
    hide ServerOk, Server, NestedServer, Outer, Below, Slice, Rest, Lined;
    RestIsBelow(z);
    ServerText(z);
    SliceOfNested(Lined(Rest()) + "\n" + z);
    var s := NestedServer(z);
    ServerIs(s + OPENING, 12, 0, |s|);
    NestedPasses(z);
    assert (s + OPENING)[0..|s|] == s;
  }

  /** There is a configuration from which the directive can be deleted without rejection: the cut makes a new one. */
  lemma DeleteAccepted() returns (conf: string, o: nat)
    ensures Accepts(conf) && OccursAt(conf, TRUSTED, o) && InServer(conf, o) && o + |TRUSTED| <= |conf|
    ensures Accepts(Replace(conf, o, |TRUSTED|, []))
  {
    hide Server, ServerOk, Outer, Lined, Head, Rest, Accepts, OccursAt, EndsUniquely, Enclosed, NestedServer;
    TrustedFacts();
    OuterLines();
    var front := Lined(Head()) + "\n" + Lined(Rest()) + "\n";
    CutEnclosed(front, OPENING);
    NestedAccepted(Enclosed(1));
    NestedAccepted(TRUSTED);
    ServerIsHeadAndRest(Enclosed(1));
    ServerIsHeadAndRest(TRUSTED);
    conf, o := NestedConf(Enclosed(1)), |front| + 1;
  }

  /** Cutting the directive out of its copy leaves the directive. */
  lemma CutEnclosed(front: string, back: string)
    ensures var conf, o := front + Enclosed(1) + back, |front| + 1;
            && o + |TRUSTED| <= |front + Enclosed(1)| && OccursAt(conf, TRUSTED, o)
            && Replace(conf, o, |TRUSTED|, []) == front + TRUSTED + back
    ensures Enclosed(1) != [] && Enclosed(1)[|Enclosed(1)| - 1] == ';'
  {
    hide EndsUniquely;
    TrustedFacts();
    var t, n := TRUSTED[1..], |TRUSTED|;
    assert TRUSTED == "p" + t;
    var conf, o := front + Enclosed(1) + back, |front| + 1;
    assert conf[o..o + n] == TRUSTED;
    assert conf[..o] == front + "p" && conf[o + n..] == t + back;
  }
}
