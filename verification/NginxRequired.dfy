/** What the forwarding verifier demands, line by line and in its literal directives. */
module NginxRequired {
  import opened Wrappers
  import opened Text
  import opened Counting
  import opened Occurrences
  import opened NginxServer
  import opened NginxBlocks
  import opened NginxVerifier
  import opened NginxProbe

  /** The header of each of the four locations. */
  function HeaderOf(b: nat): seq<string> {
    if b == 0 then ["location", "=", "/health"]
    else if b == 1 then ["location", "/api/"]
    else if b == 2 then ["location", "/uploads/"]
    else ["location", "/"]
  }

  /** The directives that each location must hold exactly once. */
  function Required(b: nat): seq<string> {
    [if b == 3 then "proxy_pass $masterbudet_frontend;" else "proxy_pass $masterbudet_backend;",
     "proxy_set_header X-Real-IP $remote_addr;",
     "proxy_set_header X-Forwarded-For $remote_addr;",
     "proxy_set_header X-Forwarded-Proto https;"]
  }

  lemma LocationsAre(b: nat)
    requires b < 4
    ensures |LOCATIONS| == 4 && LOCATIONS[b] == Location(HeaderOf(b), Required(b)[0])
    ensures Required(b)[1] == REAL_IP && Required(b)[2] == TRUSTED && Required(b)[3] == PROTO
  {
    TrustedIs();
    hide *;
    LocationAt(b);
  }

  lemma TrustedIs()
    ensures TRUSTED == "proxy_set_header X-Forwarded-For $remote_addr;"
    ensures FORWARDED == "proxy_set_header X-Forwarded-For "
  {
    assert TRUSTED == "proxy_set_header " + "X-Forwarded-For " + "$remote_addr;";
    assert "proxy_set_header X-Forwarded-For $remote_addr;"
        == "proxy_set_header " + "X-Forwarded-For " + "$remote_addr;";
  }

  lemma LocationAt(b: nat)
    requires b < 4
    ensures |LOCATIONS| == 4 && LOCATIONS[b] == Location(HeaderOf(b), Required(b)[0])
    ensures Required(b)[1] == REAL_IP && Required(b)[3] == PROTO
    ensures Required(b)[2] == "proxy_set_header X-Forwarded-For $remote_addr;"
  {
    assert LOCATIONS[0].header == ["location", "=", "/health"] && LOCATIONS[1].header == ["location", "/api/"];
    assert LOCATIONS[2].header == ["location", "/uploads/"] && LOCATIONS[3].header == ["location", "/"];
    assert LOCATIONS[0].proxy == LOCATIONS[1].proxy == LOCATIONS[2].proxy == BACKEND && LOCATIONS[3].proxy == FRONTEND;
  }

  /** Where lines are broken, character by character. */
  lemma BreaksAre(c: char)
    ensures LineBreak(c) <==> c in {'\n', '\r', '\U{000B}', '\U{000C}', '\U{001C}', '\U{001D}', '\U{001E}', '\U{0085}',
                                    '\U{2028}', '\U{2029}'}
  {
  }

  // ---------------------------------------------------------------------------------------------
  // Counting lines.

  function Strips(d: string): string -> bool {
    line => Trim(PySpace, line) == d
  }

  function StripsToStart(d: string): string -> bool {
    line => d <= Trim(PySpace, line)
  }

  lemma {:induction false} NumberOfLines(lines: seq<string>, d: string)
    requires d != [] && d[0] != '#'
    ensures Number(DirectivesOf(lines), d) == |Places(Strips(d), lines)|
  {
    hide Trim;
    if lines == [] {
      PlacesNone(Strips(d));
    } else {
      NumberOfLines(lines[1..], d);
      PlacesCons(Strips(d), lines);
      var t := Trim(PySpace, lines[0]);
      var kept := if t != [] && t[0] != '#' then [t] else [];
      NumberSum(kept, DirectivesOf(lines[1..]), d);
    }
  }

  lemma {:induction false} ForwardingOfLines(lines: seq<string>)
    ensures |Forwarding(DirectivesOf(lines))| == |Places(StripsToStart(FORWARDED), lines)|
    ensures forall z :: z in Forwarding(DirectivesOf(lines)) ==> z in DirectivesOf(lines)
    ensures forall z :: z in DirectivesOf(lines) && FORWARDED <= z ==> z in Forwarding(DirectivesOf(lines))
  {
    hide Trim;
    if lines == [] {
      PlacesNone(StripsToStart(FORWARDED));
    } else {
      ForwardingOfLines(lines[1..]);
      PlacesCons(StripsToStart(FORWARDED), lines);
      var t := Trim(PySpace, lines[0]);
      assert FORWARDED <= t ==> t[0] == 'p' by { assert FORWARDED[0] == 'p'; }
      var rest := DirectivesOf(lines[1..]);
      if t != [] && t[0] != '#' {
        assert DirectivesOf(lines) == [t] + rest && ([t] + rest)[1..] == rest;
      } else {
        assert DirectivesOf(lines) == rest;
      }
    }
  }

  lemma {:induction false} NumberIn(xs: seq<string>, x: string)
    ensures Number(xs, x) > 0 <==> x in xs
  {
    if xs != [] {
      NumberIn(xs[1..], x);
      assert xs == [xs[0]] + xs[1..];
    }
  }

  /** Forwarding is as it must be exactly when one line forwards and one is the trusted one. */
  lemma ForwardingExactly(lines: seq<string>)
    requires |Places(Strips(TRUSTED), lines)| == 1
    ensures Forwarding(DirectivesOf(lines)) == [TRUSTED] <==> |Places(StripsToStart(FORWARDED), lines)| == 1
  {
    hide Forwarding, DirectivesOf, Number, EndsUniquely;
    TrustedFacts();
    NumberOfLines(lines, TRUSTED);
    NumberIn(DirectivesOf(lines), TRUSTED);
    ForwardingOfLines(lines);
    assert FORWARDED <= TRUSTED;
    var f := Forwarding(DirectivesOf(lines));
    if |f| == 1 {
      assert TRUSTED in f && f == [f[0]];
    }
  }

  /** The lines of a block. */
  ghost predicate BlockLines(server: string, b: nat, lines: seq<string>) {
    var block := FindBlock(server, HeaderOf(b));
    block.Ok? && lines == Lines(LineBreak, server[block.value.0 + 1..block.value.1])
  }

  /** The block is there, each of its directives stands on exactly one line, and exactly one line forwards. */
  ghost predicate BlockHolds(server: string, b: nat) {
    exists lines :: && BlockLines(server, b, lines)
                    && (forall i :: 0 <= i < 4 ==> |Places(Strips(Required(b)[i]), lines)| == 1)
                    && |Places(StripsToStart("proxy_set_header X-Forwarded-For "), lines)| == 1
  }

  lemma RequiredStart(b: nat, i: nat)
    requires i < 4
    ensures |Required(b)| == 4 && Required(b)[i] != [] && Required(b)[i][0] == 'p'
  {
    assert "proxy_pass $masterbudet_frontend;"[0] == 'p' && "proxy_pass $masterbudet_backend;"[0] == 'p';
    assert "proxy_set_header X-Real-IP $remote_addr;"[0] == 'p';
    assert "proxy_set_header X-Forwarded-For $remote_addr;"[0] == 'p';
    assert "proxy_set_header X-Forwarded-Proto https;"[0] == 'p';
  }

  lemma LinesDecide(lines: seq<string>, b: nat)
    requires b < 4
    ensures DirectivesOk(DirectivesOf(lines), Required(b)[0]) <==>
            && (forall i :: 0 <= i < 4 ==> |Places(Strips(Required(b)[i]), lines)| == 1)
            && |Places(StripsToStart(FORWARDED), lines)| == 1
  {
    hide Number, Forwarding, DirectivesOf, Places, Strips, StripsToStart;
    LocationsAre(b);
    var r := Required(b);
    forall i | 0 <= i < 4 ensures Number(DirectivesOf(lines), r[i]) == |Places(Strips(r[i]), lines)| {
      RequiredStart(b, i);
      NumberOfLines(lines, r[i]);
    }
    assert r[2] == TRUSTED && r[1] == REAL_IP && r[3] == PROTO;
    if |Places(Strips(TRUSTED), lines)| == 1 {
      ForwardingExactly(lines);
    }
  }

  lemma LocationHolds(server: string, b: nat)
    requires b < 4
    ensures |LOCATIONS| == 4 && LOCATIONS[b].header != []
    ensures LocationOk(server, LOCATIONS[b]) <==> BlockHolds(server, b)
  {
    hide DirectivesOk, DirectivesOf, FindBlock, Places, Strips, StripsToStart, Lines, Required;
    LocationsAre(b);
    assert FORWARDED == "proxy_set_header X-Forwarded-For ";
    var block := FindBlock(server, HeaderOf(b));
    if block.Ok? {
      var lines := Lines(LineBreak, server[block.value.0 + 1..block.value.1]);
      LinesDecide(lines, b);
      assert BlockLines(server, b, lines);
    }
  }

  // ---------------------------------------------------------------------------------------------
  // Everything that is checked.

  ghost function Occurring(s: string, p: string): set<nat> {
    set i: nat | i <= |s| && OccursAt(s, p, i)
  }

  lemma {:induction false} NumInIs(s: string, p: string, lo: nat, hi: nat)
    ensures NumIn(s, p, lo, hi) == |set i: nat | lo <= i < hi && OccursAt(s, p, i)|
    decreases hi - lo
  {
    hide OccursAt;
    if lo >= hi {
      assert (set i: nat | lo <= i < hi && OccursAt(s, p, i)) == {};
    } else {
      NumInIs(s, p, lo + 1, hi);
      var rest := set i: nat | lo + 1 <= i < hi && OccursAt(s, p, i);
      assert (set i: nat | lo <= i < hi && OccursAt(s, p, i)) == (if OccursAt(s, p, lo) then {lo} else {}) + rest;
    }
  }

  lemma CountIs(s: string)
    ensures TRUSTED != [] && Count(s, TRUSTED) == |Occurring(s, TRUSTED)|
  {
    hide OccursAt, NumIn, CountFrom;
    TrustedFacts();
    CountsAll(s, TRUSTED, 0);
    NumInIs(s, TRUSTED, 0, |s| + |TRUSTED|);
    forall i: nat | OccursAt(s, TRUSTED, i) ensures i + |TRUSTED| <= |s| {
      OccursInside(s, TRUSTED, i);
    }
    assert (set i: nat | 0 <= i < |s| + |TRUSTED| && OccursAt(s, TRUSTED, i)) == Occurring(s, TRUSTED);
  }

  function IsProxy(): string -> bool {
    line => Trim(PySpace, line) in ["proxy_pass $masterbudet_backend;", "proxy_pass $masterbudet_frontend;"]
  }

  lemma {:induction false} ProxyLinesIs(lines: seq<string>)
    ensures ProxyLines(lines) == |Places(IsProxy(), lines)|
  {
    hide Trim;
    if lines == [] {
      PlacesNone(IsProxy());
    } else {
      ProxyLinesIs(lines[1..]);
      PlacesCons(IsProxy(), lines);
    }
  }

  /** `w` stands at `q` as a word, and before it on its line there is only whitespace. */
  ghost predicate Leads(s: string, w: string, p: nat, q: nat) {
    && p <= q <= |s| && (p == 0 || s[p - 1] == '\n') && All(PySpace, s[p..q]) && OccursAt(s, w, q)
    && (q + |w| < |s| ==>
          var c := s[q + |w|]; !('a' <= c <= 'z') && !('A' <= c <= 'Z') && !('0' <= c <= '9') && c != '_')
  }

  lemma LimitsAre(s: string)
    ensures HasLimit(s) <==> exists p: nat, q: nat :: Leads(s, "limit_req", p, q) || Leads(s, "limit_conn", p, q)
  {
    hide OccursAt, All, PySpace;
    if HasLimit(s) {
      var p, q :| 0 <= p <= q <= |s| && LineStart(s, p) && All(PySpace, s[p..q])
                  && (WordAt(s, "limit_req", q) || WordAt(s, "limit_conn", q));
      OccursIf(s, q);
      assert Leads(s, "limit_req", p, q) || Leads(s, "limit_conn", p, q);
    }
    if exists p: nat, q: nat :: Leads(s, "limit_req", p, q) || Leads(s, "limit_conn", p, q) {
      var p: nat, q: nat :| Leads(s, "limit_req", p, q) || Leads(s, "limit_conn", p, q);
      OccursIf(s, q);
      assert LineStart(s, p) && (WordAt(s, "limit_req", q) || WordAt(s, "limit_conn", q));
    }
  }

  lemma OccursIf(s: string, q: nat)
    ensures OccursAt(s, "limit_req", q) ==> q + |"limit_req"| <= |s|
    ensures OccursAt(s, "limit_conn", q) ==> q + |"limit_conn"| <= |s|
  {
  }

  /** A server block passes exactly when all of this holds of it. */
  ghost predicate Demanded(server: string) {
    && !Contains(server, "$proxy_add_x_forwarded_for")
    && (forall p: nat, q: nat :: !Leads(server, "limit_req", p, q) && !Leads(server, "limit_conn", p, q))
    && (forall b :: 0 <= b < 4 ==> BlockHolds(server, b))
    && |Occurring(server, "proxy_set_header X-Forwarded-For $remote_addr;")| == 4
    && |Places(IsProxy(), Lines(NewLine, server))| == 4
  }

  /** The verifier accepts a server block if and only if it is as demanded. */
  lemma ServerOkExactly(server: string)
    ensures ServerOk(server) <==> Demanded(server)
  {
    hide LocationOk, HasLimit, Leads, ProxyLines, Contains, CountFrom, Lines, BlockHolds, IsProxy, Occurring, Places,
         EndsUniquely;
    TrustedIs();
    CountIs(server);
    ProxyLinesIs(Lines(NewLine, server));
    LimitsAre(server);
    assert CHAIN == "$proxy_add_x_forwarded_for";
    LocationFacts();
    forall b | 0 <= b < 4 ensures LocationOk(server, LOCATIONS[b]) <==> BlockHolds(server, b) {
      LocationHolds(server, b);
    }
  }
}
