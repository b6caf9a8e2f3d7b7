/** The forwarding verifier: what it demands of the apex server block of the configuration. */
module NginxVerifier {
  import opened Wrappers
  import opened Text
  import opened Occurrences
  import opened NginxBlocks
  import opened NginxServer

  const FORWARDED := "proxy_set_header " + "X-Forwarded-For "
  const TRUSTED := FORWARDED + "$remote_addr;"
  const CHAIN := "$proxy_add_x_forwarded_for"
  const BACKEND := "proxy_pass $masterbudet_backend;"
  const FRONTEND := "proxy_pass $masterbudet_frontend;"
  const REAL_IP := "proxy_set_header X-Real-IP $remote_addr;"
  const PROTO := "proxy_set_header X-Forwarded-Proto https;"

  datatype Location = Location(header: seq<string>, proxy: string)

  const LOCATIONS: seq<Location> := [
    Location(["location", "=", "/health"], BACKEND),
    Location(["location", "/api/"], BACKEND),
    Location(["location", "/uploads/"], BACKEND),
    Location(["location", "/"], FRONTEND)
  ]

  // ---------------------------------------------------------------------------------------------
  // Lines and directives.

  /** Where Python's `splitlines` breaks a text. */
  predicate LineBreak(c: char) {
    var n := c as int;
    10 <= n <= 13 || 28 <= n <= 30 || n == 0x85 || n == 0x2028 || n == 0x2029
  }

  /** The pieces of `s` between the characters at which it is broken. */
  function Lines(breaks: char -> bool, s: string): (r: seq<string>)
    ensures r != []
  {
    if s == [] then [[]]
    else
      var rest := Lines(breaks, s[1..]);
      if breaks(s[0]) then [[]] + rest else [[s[0]] + rest[0]] + rest[1..]
  }

  /** Stripped lines that are neither empty nor comments. */
  function DirectivesOf(lines: seq<string>): seq<string> {
    if lines == [] then []
    else
      var d := Trim(PySpace, lines[0]);
      (if d != [] && d[0] != '#' then [d] else []) + DirectivesOf(lines[1..])
  }

  function Directives(text: string): seq<string> {
    DirectivesOf(Lines(LineBreak, text))
  }

  function Number(xs: seq<string>, x: string): nat {
    if xs == [] then 0 else (if xs[0] == x then 1 else 0) + Number(xs[1..], x)
  }

  function Forwarding(directives: seq<string>): seq<string> {
    if directives == [] then []
    else (if FORWARDED <= directives[0] then [directives[0]] else []) + Forwarding(directives[1..])
  }

  // ---------------------------------------------------------------------------------------------
  // What is checked.

  predicate LineStart(s: string, p: nat) {
    p <= |s| && (p == 0 || s[p - 1] == '\n')
  }

  predicate WordChar(c: char) {
    'a' <= c <= 'z' || 'A' <= c <= 'Z' || '0' <= c <= '9' || c == '_'
  }

  /** `word` is at `i`, and the word ends there. */
  predicate WordAt(s: string, word: string, i: nat) {
    OccursAt(s, word, i) && (i + |word| == |s| || !WordChar(s[i + |word|]))
  }

  /** A line starts, after whitespace, with a request or connection limit. */
  predicate HasLimit(s: string) {
    exists p, q ::
        0 <= p <= q <= |s| && LineStart(s, p) && All(PySpace, s[p..q])
            && (WordAt(s, "limit_req", q) || WordAt(s, "limit_conn", q))
  }

  predicate NewLine(c: char) {
    c == '\n'
  }

  /** Lines that hold one of the two application proxies and nothing else. */
  function ProxyLines(lines: seq<string>): nat {
    if lines == [] then 0
    else
      var d := Trim(PySpace, lines[0]);
      (if d == BACKEND || d == FRONTEND then 1 else 0) + ProxyLines(lines[1..])
  }

  predicate DirectivesOk(directives: seq<string>, proxy: string) {
    && Number(directives, proxy) == 1
    && Number(directives, REAL_IP) == 1
    && Number(directives, TRUSTED) == 1
    && Number(directives, PROTO) == 1
    && Forwarding(directives) == [TRUSTED]
  }

  predicate LocationOk(server: string, location: Location)
    requires location.header != []
  {
    var block := FindBlock(server, location.header);
    block.Ok? && DirectivesOk(Directives(server[block.value.0 + 1..block.value.1]), location.proxy)
  }

  lemma LocationFacts()
    ensures |LOCATIONS| == 4 && forall i :: 0 <= i < 4 ==> LOCATIONS[i].header != []
  {
  }

  lemma TrustedFacts()
    ensures |FORWARDED| == 33 && |TRUSTED| == 46 && TRUSTED[0] == 'p' && TRUSTED[45] == ';' && TRUSTED[44] == 'r'
    ensures EndsUniquely(TRUSTED) && Lacks(TRUSTED, '\n')
  {
    var a, b, c := "proxy_set_header ", "X-Forwarded-For ", "$remote_addr;";
    assert TRUSTED == a + b + c;
    forall i | 0 <= i < 46 ensures TRUSTED[i] != '\n' && (i < 45 ==> TRUSTED[i] != ';') {
      if i < 17 { assert TRUSTED[i] == a[i]; }
      else if i < 33 { assert TRUSTED[i] == b[i - 17]; }
      else { assert TRUSTED[i] == c[i - 33]; }
    }
  }

  predicate ServerOk(server: string) {
    LocationFacts(); TrustedFacts();
    && !Contains(server, CHAIN)
    && !HasLimit(server)
    && (forall i :: 0 <= i < |LOCATIONS| ==> LocationOk(server, LOCATIONS[i]))
    && Count(server, TRUSTED) == 4
    && ProxyLines(Lines(NewLine, server)) == 4
  }

  predicate Accepts(conf: string) {
    var s := Server(conf);
    s.Some? && s.value.0 <= s.value.1 <= |conf| && ServerOk(conf[s.value.0..s.value.1])
  }

  datatype VerifyError =
    | MalformedServer
    | AppendsChain
    | AddsLimit
    | BadBlock(header: seq<string>, error: ExtractError)
    | BadDirective(header: seq<string>)
    | BadForwardingCount
    | BadProxyCount

  /** The verifier, check by check. */
  method Verify(configuration: string) returns (r: Result<(), VerifyError>)
    ensures r.Ok? <==> Accepts(configuration)
  {
    hide FindBlock, Directives, Forwarding, Number, HasLimit, ProxyLines, CountFrom, Lines;
    LocationFacts();
    TrustedFacts();
    var slice := Server(configuration);
    if slice.None? {
      return Err(MalformedServer);
    }
    var (start, end) := slice.value;
    SliceInside(configuration);
    var server := configuration[start..end];
    if Contains(server, CHAIN) {
      return Err(AppendsChain);
    }
    if HasLimit(server) {
      return Err(AddsLimit);
    }
    for i := 0 to |LOCATIONS|
      invariant forall j :: 0 <= j < i ==> LocationOk(server, LOCATIONS[j])
    {
      var location := ExtractUniqueBlock(server, LOCATIONS[i].header);
      if location.Err? {
        assert !LocationOk(server, LOCATIONS[i]);
        return Err(BadBlock(LOCATIONS[i].header, location.error));
      }
      var directives := Directives(location.value);
      if Number(directives, LOCATIONS[i].proxy) != 1 || Number(directives, REAL_IP) != 1
         || Number(directives, TRUSTED) != 1 || Number(directives, PROTO) != 1
         || Forwarding(directives) != [TRUSTED] {
        assert !LocationOk(server, LOCATIONS[i]);
        return Err(BadDirective(LOCATIONS[i].header));
      }
    }
    if Count(server, TRUSTED) != 4 {
      return Err(BadForwardingCount);
    }
    if ProxyLines(Lines(NewLine, server)) != 4 {
      return Err(BadProxyCount);
    }
    return Ok(());
  }

  lemma SliceInside(conf: string)
    requires Server(conf).Some?
    ensures Server(conf).value.0 < Server(conf).value.1 && Server(conf).value.1 + |OPENING| <= |conf|
  {
    var marker := ServerSlice(conf);
    OccursInside(conf, OPENING, Server(conf).value.1);
  }

  // ---------------------------------------------------------------------------------------------
  // Where the trusted directive is.

  /** Any line of a text occurs in the text, at its start or after a break. */
  lemma {:induction false} LineOccurs(breaks: char -> bool, s: string, k: nat) returns (i: nat)
    requires k < |Lines(breaks, s)|
    ensures OccursAt(s, Lines(breaks, s)[k], i) && if k == 0 then i == 0 else 0 < i <= |s| && breaks(s[i - 1])
    decreases |s|
  {
    if s == [] {
      i := 0;
    } else if breaks(s[0]) {
      if k == 0 {
        i := 0;
      } else {
        var j := LineOccurs(breaks, s[1..], k - 1);
        i := j + 1;
        assert s[i..i + |Lines(breaks, s)[k]|] == s[1..][j..j + |Lines(breaks, s)[k]|];
      }
    } else {
      var j := LineOccurs(breaks, s[1..], k);
      i := if k == 0 then 0 else j + 1;
      var line := Lines(breaks, s)[k];
      if k == 0 {
        assert s[..|line|] == [s[0]] + s[1..][..|line| - 1];
        assert s[0..|line|] == s[..|line|];
      } else {
        assert s[i..i + |line|] == s[1..][j..j + |line|];
      }
    }
  }

  lemma OccursTrans(s: string, t: string, u: string, i: nat, j: nat)
    requires OccursAt(s, t, i) && OccursAt(t, u, j)
    ensures OccursAt(s, u, i + j)
  {
    assert s[i..i + |t|] == t && t[j..j + |u|] == u;
    forall k | 0 <= k < |u| ensures s[i + j + k] == u[k] {
      assert s[i..i + |t|][j + k] == s[i + j + k] && t[j..j + |u|][k] == t[j + k];
    }
  }

  lemma SubOccurs(s: string, a: nat, b: nat)
    requires a <= b <= |s|
    ensures OccursAt(s, s[a..b], a)
  {
  }

  lemma {:induction false} DirectiveOccurs(lines: seq<string>, d: string) returns (k: nat, i: nat)
    requires Number(DirectivesOf(lines), d) > 0
    ensures k < |lines| && OccursAt(lines[k], d, i) && i <= |lines[k]| && All(PySpace, lines[k][..i])
  {
    hide Trim;
    var t := Trim(PySpace, lines[0]);
    var kept := if t != [] && t[0] != '#' then [t] else [];
    NumberSum(kept, DirectivesOf(lines[1..]), d);
    if t == d {
      var front, back := TrimParts(PySpace, lines[0]);
      k, i := 0, |front|;
      assert lines[0][|front|..|front| + |d|] == d && lines[0][..|front|] == front;
    } else {
      var k', i' := DirectiveOccurs(lines[1..], d);
      k, i := k' + 1, i';
    }
  }

  lemma {:induction false} NumberSum(a: seq<string>, b: seq<string>, x: string)
    ensures Number(a + b, x) == Number(a, x) + Number(b, x)
  {
    if a == [] {
      assert a + b == b;
    } else {
      assert (a + b)[1..] == a[1..] + b;
      NumberSum(a[1..], b, x);
    }
  }

  /** Between the start of a line, or an opening brace, and position `i` there is only whitespace. */
  ghost predicate FirstOnLine(s: string, i: nat) {
    i <= |s| && exists q: nat :: q <= i && (q == 0 || LineBreak(s[q - 1]) || s[q - 1] == '{') && All(PySpace, s[q..i])
  }

  /** Between the braces of a block that passes its checks the trusted directive occurs, first on its line. */
  lemma TrustedInBlock(server: string, location: Location) returns (i: nat)
    requires location.header != [] && LocationOk(server, location)
    ensures var (open, close) := FindBlock(server, location.header).value;
            open < i && i + |TRUSTED| <= close && OccursAt(server, TRUSTED, i) && FirstOnLine(server, i)
  {
    hide Lines, DirectivesOf, Number, Forwarding, FindBlock, OccursAt;
    var (open, close) := FindBlock(server, location.header).value;
    var text := server[open + 1..close];
    var lines := Lines(LineBreak, text);
    var k, j := DirectiveOccurs(lines, TRUSTED);
    var l := LineOccurs(LineBreak, text, k);
    OccursTrans(text, lines[k], TRUSTED, l, j);
    i := open + 1 + (l + j);
    OccursInside(text, TRUSTED, l + j);
    SubOccurs(server, open + 1, close);
    OccursTrans(server, text, TRUSTED, open + 1, l + j);
    SameFront(server, open + 1, close, lines[k], l, j);
    assert l > 0 ==> text[l - 1] == server[open + l];
  }

  lemma SameFront(server: string, open: nat, close: nat, line: string, l: nat, j: nat)
    requires open <= close <= |server| && OccursAt(server[open..close], line, l) && j <= |line|
    ensures server[open + l..open + l + j] == line[..j]
  {
    var text := server[open..close];
    forall m | 0 <= m < j ensures server[open + l..open + l + j][m] == line[m] {
      assert text[l..l + |line|][m] == text[l + m] == server[open + l + m];
    }
  }

  predicate Inside(server: string, b: nat, i: nat)
    requires b < |LOCATIONS|
  {
    LocationFacts();
    var block := FindBlock(server, LOCATIONS[b].header);
    block.Ok? && block.value.0 < i && i + |TRUSTED| <= block.value.1
  }

  /** No occurrence of the trusted directive lies in two of the four blocks. */
  ghost predicate Separate(server: string) {
    forall a, b, i: nat ::
      0 <= a < |LOCATIONS| && 0 <= b < |LOCATIONS| && OccursAt(server, TRUSTED, i) && Inside(server, a, i)
          && Inside(server, b, i)
      ==> a == b
  }

  lemma {:induction false} AtLeast(s: string, p: string, lo: nat, hi: nat, places: set<nat>)
    requires forall i :: i in places ==> lo <= i < hi && OccursAt(s, p, i)
    ensures |places| <= NumIn(s, p, lo, hi)
    decreases hi - lo
  {
    hide OccursAt;
    if lo >= hi {
      assert places == {};
    } else {
      AtLeast(s, p, lo + 1, hi, places - {lo});
      assert lo in places ==> places == {lo} + (places - {lo});
      assert lo !in places ==> places == places - {lo};
    }
  }

  /** When four are counted, four distinct occurrences are all there are. */
  lemma FourAreAll(s: string, p: string, places: set<nat>, i: nat)
    requires EndsUniquely(p) && Count(s, p) == 4 && |places| == 4
    requires forall j :: j in places ==> OccursAt(s, p, j)
    requires OccursAt(s, p, i)
    ensures i in places
  {
    hide OccursAt, NumIn, CountFrom;
    CountsAll(s, p, 0);
    forall j | j in places + {i} ensures j < |s| + |p| {
      OccursInside(s, p, j);
    }
    AtLeast(s, p, 0, |s| + |p|, places + {i});
  }

  /** One occurrence from inside each block. */
  lemma Witnesses(server: string) returns (o: seq<nat>)
    requires ServerOk(server)
    ensures |o| == 4 && |LOCATIONS| == 4
    ensures forall b :: 0 <= b < 4 ==>
            Inside(server, b, o[b]) && OccursAt(server, TRUSTED, o[b]) && FirstOnLine(server, o[b])
  {
    hide FindBlock, DirectivesOk, HasLimit, ProxyLines, Contains, CountFrom, OccursAt, FirstOnLine;
    LocationFacts();
    var o0 := TrustedInBlock(server, LOCATIONS[0]);
    var o1 := TrustedInBlock(server, LOCATIONS[1]);
    var o2 := TrustedInBlock(server, LOCATIONS[2]);
    var o3 := TrustedInBlock(server, LOCATIONS[3]);
    o := [o0, o1, o2, o3];
  }

  /**
  The occurrences `o` of the trusted directive and the four blocks correspond one to one: each block holds
  its own occurrence and no other, and there is none anywhere else.
  */
  ghost predicate OneToOne(server: string, o: seq<nat>) {
    && |o| == 4 == |LOCATIONS|
    && (forall a, b :: 0 <= a < b < 4 ==> o[a] != o[b])
    && (forall b, i: nat :: 0 <= b < 4 ==> (OccursAt(server, TRUSTED, i) && Inside(server, b, i) <==> i == o[b]))
    && (forall i: nat :: OccursAt(server, TRUSTED, i) ==> i in o)
  }

  /** When no two blocks share an occurrence, the witnesses are all there are. */
  lemma WitnessesCorrespond(server: string) returns (o: seq<nat>)
    requires ServerOk(server) && Separate(server)
    ensures OneToOne(server, o) && forall b :: 0 <= b < 4 ==> FirstOnLine(server, o[b])
  {
    hide FirstOnLine, FindBlock, LocationOk, HasLimit, ProxyLines, Contains, CountFrom, OccursAt, Inside;
    TrustedFacts();
    o := Witnesses(server);
    var places := {o[0], o[1], o[2], o[3]};
    assert forall a, b :: 0 <= a < b < 4 ==> o[a] != o[b];
    assert |places| == 4;
    forall i: nat | OccursAt(server, TRUSTED, i) ensures i in o {
      FourAreAll(server, TRUSTED, places, i);
    }
    forall b, i: nat | 0 <= b < 4 && OccursAt(server, TRUSTED, i) && Inside(server, b, i) ensures i == o[b] {
      var x :| 0 <= x < 4 && o[x] == i;
    }
  }

  /** In a server that passes, occurrences and blocks correspond exactly when no two blocks share an occurrence. */
  lemma OneTrustedPerBlock(server: string)
    requires ServerOk(server)
    ensures Separate(server) <==> exists o :: OneToOne(server, o)
  {
    hide ServerOk, OccursAt, Inside;
    if Separate(server) {
      var o := WitnessesCorrespond(server);
    }
    if o :| OneToOne(server, o) {
      forall a, b, i: nat | 0 <= a < 4 && 0 <= b < 4 && OccursAt(server, TRUSTED, i) && Inside(server, a, i)
          && Inside(server, b, i)
        ensures a == b
      {
        assert o[a] == i == o[b];
      }
    }
  }
}
