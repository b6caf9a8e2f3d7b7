/** The mutation probe of the forwarding verifier: which mutants it builds and which of them are rejected. */
module NginxProbe {
  import opened Wrappers
  import opened Text
  import opened Occurrences
  import opened NginxServer
  import opened NginxVerifier

  const APPENDED := FORWARDED + CHAIN + ";"
  const DUPLICATED := TRUSTED + "\n      " + TRUSTED

  /** `x` at position `o` replaced by `y`. */
  function Replace(conf: string, o: nat, n: nat, y: string): string
    requires o + n <= |conf|
  {
    conf[..o] + y + conf[o + n..]
  }

  /** The first occurrence replaced; nothing when that changes nothing. */
  method Changed(configuration: string, old': string, new': string) returns (r: Option<string>)
    requires old' != []
    ensures r.Some? ==> exists f: nat :: && OccursAt(configuration, old', f) && f + |old'| <= |configuration|
                                         && (forall j: nat :: j < f ==> !OccursAt(configuration, old', j))
                                         && r.value == Replace(configuration, f, |old'|, new')
    ensures |old'| != |new'| ==> (r.None? <==> forall j: nat :: !OccursAt(configuration, old', j))
  {
    var f := Find(configuration, old', 0);
    var candidate := if f < 0 then configuration else Replace(configuration, f, |old'|, new');
    if candidate == configuration {
      return None;
    }
    return Some(candidate);
  }

  // ---------------------------------------------------------------------------------------------
  // The find loop.

  lemma {:induction false} NumInMono(s: string, s': string, p: string, lo: nat, hi: nat, d: nat)
    requires forall j :: lo <= j < hi && OccursAt(s, p, j) ==> OccursAt(s', p, j + d)
    ensures NumIn(s, p, lo, hi) <= NumIn(s', p, lo + d, hi + d)
    decreases hi - lo
  {
    hide OccursAt;
    if lo < hi {
      NumInMono(s, s', p, lo + 1, hi, d);
    }
  }

  /** The number of occurrences of the trusted directive. */
  function Total(conf: string): nat {
    NumIn(conf, TRUSTED, 0, |conf| + |TRUSTED|)
  }

  /** An accepted configuration holds the trusted directive at least four times. */
  lemma AcceptedHasFour(conf: string)
    requires Accepts(conf)
    ensures Total(conf) >= 4
  {
    hide OccursAt, NumIn, CountFrom, LocationOk, HasLimit, ProxyLines, Contains;
    TrustedFacts();
    var (start, end) := Server(conf).value;
    var server := conf[start..end];
    CountsAll(server, TRUSTED, 0);
    SubOccurs(conf, start, end);
    forall j | 0 <= j < |server| + |TRUSTED| && OccursAt(server, TRUSTED, j)
        ensures OccursAt(conf, TRUSTED, j + start) {
      OccursTrans(conf, server, TRUSTED, start, j);
    }
    NumInMono(server, conf, TRUSTED, 0, |server| + |TRUSTED|, start);
    NumInSplit(conf, TRUSTED, 0, start, |conf| + |TRUSTED|);
    NumInSplit(conf, TRUSTED, start, start + |server| + |TRUSTED|, |conf| + |TRUSTED|);
  }

  /** The `index`-th occurrence, counting from 0: the one that exactly `index` occurrences precede. */
  ghost predicate IsKth(conf: string, index: nat, start: int) {
    start >= 0 && OccursAt(conf, TRUSTED, start) && NumIn(conf, TRUSTED, 0, start) == index
  }

  lemma FindFirst(conf: string)
    requires Total(conf) > 0
    ensures IsKth(conf, 0, Find(conf, TRUSTED, 0))
  {
    hide OccursAt, NumIn;
    var f := Find(conf, TRUSTED, 0);
    NumInNone(conf, TRUSTED, 0, if f < 0 then |conf| + |TRUSTED| else f);
  }

  lemma FindNext(conf: string, index: nat, start: nat)
    requires IsKth(conf, index, start) && Total(conf) > index + 1
    ensures IsKth(conf, index + 1, Find(conf, TRUSTED, start + 1))
  {
    hide OccursAt;
    OccursInside(conf, TRUSTED, start);
    var f := Find(conf, TRUSTED, start + 1);
    var hi := if f < 0 then |conf| + |TRUSTED| else f;
    NumInSplit(conf, TRUSTED, 0, start, hi);
    NumInNone(conf, TRUSTED, start + 1, hi);
  }

  /**
  The loop that looks for the next occurrence `index + 1` times. When there are that many it never comes
  back to -1, where it would start again from the beginning.
  */
  method FindLoop(configuration: string, index: nat) returns (start: int)
    ensures Total(configuration) > index ==> IsKth(configuration, index, start)
  {
    hide IsKth, Total;
    start := -1;
    for n := 0 to index + 1
      invariant n == 0 ==> start == -1
      invariant start >= -1
      invariant n > 0 && Total(configuration) > n - 1 ==> start >= 0 && IsKth(configuration, n - 1, start)
    {
      if Total(configuration) > n {
        if n == 0 {
          FindFirst(configuration);
        } else {
          FindNext(configuration, n - 1, start);
        }
        KthIsThere(configuration, n, Find(configuration, TRUSTED, start + 1));
      }
      start := Find(configuration, TRUSTED, start + 1);
    }
  }

  lemma KthIsThere(conf: string, index: nat, start: int)
    ensures IsKth(conf, index, start) ==> start >= 0
  {
  }

  // ---------------------------------------------------------------------------------------------
  // Texts that cannot touch the marker or an opening.

  /** A directive that starts with p, ends with r and a semicolon, and has no other semicolon and no newline. */
  predicate DirectiveText(x: string) {
    && |x| >= 2 && x[0] == 'p' && x[|x| - 1] == ';' && x[|x| - 2] == 'r'
    && EndsUniquely(x) && Lacks(x, '\n')
  }

  lemma ForwardedFacts()
    ensures |FORWARDED| == 33 && FORWARDED[0] == 'p' && Lacks(FORWARDED, '\n') && Lacks(FORWARDED, ';')
  {
    var a, b := "proxy_set_header ", "X-Forwarded-For ";
    forall i | 0 <= i < 33 ensures FORWARDED[i] != '\n' && FORWARDED[i] != ';' {
      if i < 17 { assert FORWARDED[i] == a[i]; } else { assert FORWARDED[i] == b[i - 17]; }
    }
  }

  lemma ChainFacts()
    ensures |CHAIN| == 26 && CHAIN[25] == 'r' && Lacks(CHAIN, '\n') && Lacks(CHAIN, ';')
  {
  }

  lemma DirectiveFrom(a: string, b: string)
    requires a != [] && b != [] && a[0] == 'p' && b[|b| - 1] == 'r'
    requires Lacks(a, '\n') && Lacks(a, ';') && Lacks(b, '\n') && Lacks(b, ';')
    ensures DirectiveText(a + b + ";") && OccursAt(a + b + ";", b, |a|)
  {
  }

  lemma AppendedFacts()
    ensures |APPENDED| == 60 && DirectiveText(APPENDED) && OccursAt(APPENDED, CHAIN, 33)
  {
    hide DirectiveText, Lacks;
    ForwardedFacts();
    ChainFacts();
    DirectiveFrom(FORWARDED, CHAIN);
  }

  lemma TrustedIsDirective()
    ensures DirectiveText(TRUSTED)
  {
    TrustedFacts();
  }

  lemma CharOfMiddle(a: string, x: string, c: string, k: nat)
    requires k < |x|
    ensures (a + x + c)[|a| + k] == x[k]
  {
  }

  lemma ApartOpening(a: string, x: string, c: string)
    requires DirectiveText(x)
    ensures Apart(a, x, c, OPENING)
  {
    hide OccursAt, EndsUniquely;
    OpeningFacts();
    var s := a + x + c;
    forall j: nat | OccursAt(s, OPENING, j) ensures j + |OPENING| <= |a| || j >= |a| + |x| {
      if |a| <= j < |a| + |x| {
        CharOfMiddle(a, x, c, j - |a|);
        CharAt(s, OPENING, j, 0);
        assert false;
      }
      if j < |a| < j + |OPENING| {
        CharOfMiddle(a, x, c, 0);
        CharAt(s, OPENING, j, |a| - j);
        assert false;
      }
    }
  }

  lemma ApartMarker(a: string, x: string, c: string)
    requires DirectiveText(x)
    ensures Apart(a, x, c, MARKER)
  {
    hide OccursAt;
    MarkerFacts();
    var s, n := a + x + c, |MARKER|;
    forall j: nat | OccursAt(s, MARKER, j) ensures j + n <= |a| || j >= |a| + |x| {
      if j < |a| < j + n {
        CharOfMiddle(a, x, c, 0);
        CharAt(s, MARKER, j, |a| - j);
        assert false;
      }
      if |a| <= j < |a| + |x| {
        MarkerNotInside(a, x, c, j);
        assert false;
      }
    }
  }

  lemma MarkerNotInside(a: string, x: string, c: string, j: nat)
    requires DirectiveText(x) && |a| <= j < |a| + |x|
    ensures !OccursAt(a + x + c, MARKER, j)
  {
    hide OccursAt;
    MarkerFacts();
    var s, n := a + x + c, |MARKER|;
    var last := |a| + |x| - 1;
    if OccursAt(s, MARKER, j) {
      if last < j + n - 1 {
        CharOfMiddle(a, x, c, |x| - 1);
        CharAt(s, MARKER, j, last - j);
      } else if last == j + n - 1 {
        CharOfMiddle(a, x, c, |x| - 2);
        CharAt(s, MARKER, j, n - 2);
      } else {
        CharOfMiddle(a, x, c, j + n - 1 - |a|);
        CharAt(s, MARKER, j, n - 1);
      }
    }
  }

  // ---------------------------------------------------------------------------------------------
  // The mutants that append to the forwarding chain.

  /** The trusted directive at `o` lies in the apex server block. */
  predicate InServer(conf: string, o: nat) {
    var s := Server(conf);
    s.Some? && s.value.0 <= o && o + |TRUSTED| <= s.value.1
  }

  lemma Around(conf: string, o: nat)
    requires OccursAt(conf, TRUSTED, o)
    ensures o + |TRUSTED| <= |conf| && conf == conf[..o] + TRUSTED + conf[o + |TRUSTED|..]
  {
  }

  /** Neither text touches an opening or the marker. */
  ghost predicate BothApart(a: string, x: string, y: string, c: string) {
    && x != [] && y != []
    && Apart(a, x, c, OPENING) && Apart(a, y, c, OPENING) && Apart(a, x, c, MARKER) && Apart(a, y, c, MARKER)
  }

  lemma DirectivesApart(a: string, x: string, y: string, c: string)
    requires DirectiveText(x) && DirectiveText(y)
    ensures BothApart(a, x, y, c)
  {
    hide OccursAt, EndsUniquely;
    ApartOpening(a, x, c);
    ApartOpening(a, y, c);
    ApartMarker(a, x, c);
    ApartMarker(a, y, c);
  }

  /** Replacing such a text moves the server block along. */
  lemma ServerMoves(a: string, x: string, y: string, c: string)
    requires BothApart(a, x, y, c) && Server(a + x + c).Some?
    ensures var (start, end) := Server(a + x + c).value;
            var n := |OPENING|;
            && (start + n <= |a| || start >= |a| + |x|) && (end + n <= |a| || end >= |a| + |x|)
            && start < end
            && Server(a + y + c) == Some((Moved(a, x, y, n, start), Moved(a, x, y, n, end)))
  {
    hide OccursAt, Slice, Apart;
    var marker := ServerSlice(a + x + c);
    SliceInside(a + x + c);
    SliceParts(a + x + c, marker);
    MarkerFacts();
    var (start, end) := Server(a + x + c).value;
    ApartAt(a, x, c, MARKER, marker);
    ApartAt(a, x, c, OPENING, start);
    ApartAt(a, x, c, OPENING, end);
    forall j: nat | OccursAt(a + y + c, MARKER, j) ensures j == Moved(a, x, y, |MARKER|, marker) {
      ApartAt(a, y, c, MARKER, j);
      OccurrencesMove(a, y, x, c, MARKER, j);
    }
    SliceMoves(a, x, y, c, marker, start, end);
    ServerIs(a + y + c, Moved(a, x, y, |MARKER|, marker), Moved(a, x, y, |OPENING|, start),
        Moved(a, x, y, |OPENING|, end));
  }

  /** The text x at the end of `a` lies in the apex server block. */
  ghost predicate Within(a: string, x: string, c: string) {
    var s := Server(a + x + c);
    s.Some? && s.value.0 <= |a| && |a| + |x| <= s.value.1
  }

  /** Outside of the apex server block such a text can be replaced freely. */
  lemma OutsideAccepted(a: string, x: string, y: string, c: string)
    requires Accepts(a + x + c) && BothApart(a, x, y, c) && !Within(a, x, c)
    ensures Accepts(a + y + c)
  {
    hide OccursAt, BothApart, ServerOk, Server;
    ServerMoves(a, x, y, c);
    SliceInside(a + x + c);
    SliceInside(a + y + c);
    OpeningFacts();
    var (start, end) := Server(a + x + c).value;
    if end + |OPENING| <= |a| {
      LeftSlice(a, x, y, c, start, end);
    } else {
      RightSlice(a, x, y, c, start - |a| - |x|, end - |a| - |x|);
    }
  }

  lemma SliceParts(conf: string, marker: nat)
    requires Server(conf).Some? && Slice(conf, marker, Server(conf).value.0, Server(conf).value.1)
    ensures OccursAt(conf, MARKER, marker) && (forall j: nat :: OccursAt(conf, MARKER, j) ==> j == marker)
    ensures OccursAt(conf, OPENING, Server(conf).value.0) && OccursAt(conf, OPENING, Server(conf).value.1)
  {
  }

  lemma MiddleSlice(a: string, y: string, c: string, lo: nat, hi: nat)
    requires lo <= |a| && |a| + |y| <= hi <= |a + y + c|
    ensures (a + y + c)[lo..hi] == a[lo..] + y + c[..hi - |a| - |y|]
  {
  }

  lemma LeftSlice(a: string, x: string, y: string, c: string, lo: nat, hi: nat)
    requires lo <= hi <= |a|
    ensures (a + x + c)[lo..hi] == (a + y + c)[lo..hi]
  {
    assert (a + x + c)[lo..hi] == a[lo..hi] == (a + y + c)[lo..hi];
  }

  lemma RightSlice(a: string, x: string, y: string, c: string, lo: nat, hi: nat)
    requires lo <= hi <= |c|
    ensures (a + x + c)[|a| + |x| + lo..|a| + |x| + hi] == (a + y + c)[|a| + |y| + lo..|a| + |y| + hi]
  {
    assert (a + x + c)[|a| + |x| + lo..|a| + |x| + hi] == c[lo..hi] == (a + y + c)[|a| + |y| + lo..|a| + |y| + hi];
  }

  lemma ChainRejects(server: string, l: string, r: string)
    requires server == l + APPENDED + r
    ensures !ServerOk(server)
  {
    hide OccursAt, LocationOk, HasLimit, ProxyLines, CountFrom;
    AppendedFacts();
    SubOccurs(server, |l|, |l| + |APPENDED|);
    assert server[|l|..|l| + |APPENDED|] == APPENDED;
    OccursTrans(server, APPENDED, CHAIN, |l|, 33);
    OccursInside(server, CHAIN, |l| + 33);
    assert Contains(server, CHAIN);
  }

  /** The mutant of an occurrence is rejected exactly when that occurrence is in the apex server block. */
  lemma AppendRejectedExactly(conf: string, o: nat)
    requires Accepts(conf) && OccursAt(conf, TRUSTED, o)
    ensures o + |TRUSTED| <= |conf|
    ensures !Accepts(Replace(conf, o, |TRUSTED|, APPENDED)) <==> InServer(conf, o)
  {
    hide OccursAt, DirectiveText, ServerOk, Server, BothApart;
    Around(conf, o);
    var a, c := conf[..o], conf[o + |TRUSTED|..];
    TrustedIsDirective();
    AppendedFacts();
    DirectivesApart(a, TRUSTED, APPENDED, c);
    if InServer(conf, o) {
      ServerMoves(a, TRUSTED, APPENDED, c);
      var mutant := a + APPENDED + c;
      SliceInside(mutant);
      OpeningFacts();
      var (start, end) := Server(mutant).value;
      MiddleSlice(a, APPENDED, c, start, end);
      ChainRejects(mutant[start..end], a[start..], c[..end - |a| - |APPENDED|]);
    } else {
      OutsideAccepted(a, TRUSTED, APPENDED, c);
    }
  }

  // ---------------------------------------------------------------------------------------------
  // Deleting and duplicating a directive.

  /** If the server block of a mutant can be cut at all, it is cut at the same openings. */
  lemma ServerMovesOrFails(a: string, x: string, y: string, c: string)
    requires x != [] && Within(a, x, c) && Server(a + y + c).Some?
    requires Apart(a, x, c, OPENING) && Apart(a, x, c, MARKER) && Apart(a, y, c, OPENING)
    ensures Server(a + y + c) == Some((Server(a + x + c).value.0, Server(a + x + c).value.1 - |x| + |y|))
  {
    hide OccursAt, Slice, Apart, Server;
    var conf, mutant := a + x + c, a + y + c;
    var marker := ServerSlice(conf);
    var marker' := ServerSlice(mutant);
    SliceParts(conf, marker);
    SliceParts(mutant, marker');
    MarkerFacts();
    OpeningFacts();
    ApartAt(a, x, c, MARKER, marker);
    OccurrencesMove(a, x, y, c, MARKER, marker);
    var (start, end) := Server(conf).value;
    ApartAt(a, x, c, OPENING, start);
    ApartAt(a, x, c, OPENING, end);
    SliceMoves(a, x, y, c, marker, start, end);
    ServerIs(mutant, Moved(a, x, y, |MARKER|, marker), Moved(a, x, y, |OPENING|, start),
        Moved(a, x, y, |OPENING|, end));
  }

  lemma ApartAt(a: string, x: string, c: string, p: string, j: nat)
    requires Apart(a, x, c, p) && OccursAt(a + x + c, p, j)
    ensures j + |p| <= |a| || j >= |a| + |x|
  {
  }

  /** Occurrences of the directive in l + m + r: those in l, those that start in m, and those in r. */
  lemma CountAround(l: string, m: string, r: string)
    requires forall j: nat :: |l| - |TRUSTED| < j < |l| ==> !OccursAt(l + m + r, TRUSTED, j)
    ensures Total(l + m + r) == Total(l) + NumIn(l + m + r, TRUSTED, |l|, |l| + |m|) + Total(r)
  {
    hide OccursAt, NumIn;
    var s, n := l + m + r, |TRUSTED|;
    NumInSplit(s, TRUSTED, 0, |l|, |s| + n);
    NumInSplit(s, TRUSTED, |l|, |l| + |m|, |s| + n);
    forall j | 0 <= j < |l| ensures OccursAt(s, TRUSTED, j) <==> OccursAt(l, TRUSTED, j + 0) {
      if j + n <= |l| {
        OccursLeft(l, m, r, TRUSTED, j);
      } else {
        NotPastEnd(l, TRUSTED, j);
      }
    }
    NumInSame(s, l, TRUSTED, 0, |l|, 0);
    forall j | |l| <= j < |l| + n ensures !OccursAt(l, TRUSTED, j) {
      TrustedFacts();
      NotPastEnd(l, TRUSTED, j);
    }
    NumInSplit(l, TRUSTED, 0, |l|, |l| + n);
    NumInNone(l, TRUSTED, |l|, |l| + n);
    var d := |l| + |m|;
    forall j | 0 <= j < |r| + n ensures OccursAt(r, TRUSTED, j) <==> OccursAt(s, TRUSTED, j + d) {
      OccursRight(l, m, r, TRUSTED, j);
    }
    NumInSame(r, s, TRUSTED, 0, |r| + n, d);
  }

  lemma NotPastEnd(s: string, p: string, j: nat)
    requires j + |p| > |s|
    ensures !OccursAt(s, p, j)
  {
  }

  /** Text that starts with the directive has no occurrence that starts shortly before it. */
  lemma NoneJustBefore(l: string, m: string, r: string)
    requires OccursAt(l + m + r, TRUSTED, |l|)
    ensures forall j: nat :: |l| - |TRUSTED| < j < |l| ==> !OccursAt(l + m + r, TRUSTED, j)
  {
    hide OccursAt, EndsUniquely;
    TrustedFacts();
    forall j: nat | |l| - |TRUSTED| < j < |l| ensures !OccursAt(l + m + r, TRUSTED, j) {
      if OccursAt(l + m + r, TRUSTED, j) {
        NoSelfOverlap(l + m + r, TRUSTED, j, |l|);
      }
    }
  }

  lemma CountOriginal(l: string, r: string)
    ensures Total(l + TRUSTED + r) == Total(l) + 1 + Total(r)
  {
    hide OccursAt, EndsUniquely;
    TrustedFacts();
    var s := l + TRUSTED + r;
    assert s[|l|..|l| + |TRUSTED|] == TRUSTED;
    SubOccurs(s, |l|, |l| + |TRUSTED|);
    NoneJustBefore(l, TRUSTED, r);
    CountAround(l, TRUSTED, r);
    forall j | |l| + 1 <= j < |l| + |TRUSTED| ensures !OccursAt(s, TRUSTED, j) {
      if OccursAt(s, TRUSTED, j) {
        NoSelfOverlap(s, TRUSTED, |l|, j);
      }
    }
    NumInNone(s, TRUSTED, |l| + 1, |l| + |TRUSTED|);
  }

  lemma DuplicatedOccurs(l: string, r: string)
    ensures var s, n := l + DUPLICATED + r, |TRUSTED|;
            |DUPLICATED| == n + 7 + n && OccursAt(s, TRUSTED, |l|) && OccursAt(s, TRUSTED, |l| + n + 7)
  {
    var s, t := l + DUPLICATED + r, TRUSTED;
    assert s == l + t + ("\n      " + t + r);
    assert s == (l + t + "\n      ") + t + r;
  }

  lemma CountDuplicated(l: string, r: string)
    ensures Total(l + DUPLICATED + r) >= Total(l) + 2 + Total(r)
  {
    hide OccursAt, NumIn, EndsUniquely;
    TrustedFacts();
    var s, n := l + DUPLICATED + r, |TRUSTED|;
    DuplicatedOccurs(l, r);
    NoneJustBefore(l, DUPLICATED, r);
    CountAround(l, DUPLICATED, r);
    NumInSplit(s, TRUSTED, |l|, |l| + n + 7, |l| + |DUPLICATED|);
    NumInSome(s, TRUSTED, |l|, |l| + n + 7, |l|);
    NumInSome(s, TRUSTED, |l| + n + 7, |l| + |DUPLICATED|, |l| + n + 7);
  }

  lemma CountDeleted(l: string, r: string)
    requires forall j: nat :: j < |l| < j + |TRUSTED| ==> !OccursAt(l + [] + r, TRUSTED, j)
    ensures Total(l + [] + r) == Total(l) + Total(r)
  {
    hide OccursAt, NumIn, EndsUniquely;
    CountAround(l, [], r);
    NumInNone(l + [] + r, TRUSTED, |l|, |l|);
  }

  lemma ApartDuplicated(a: string, c: string)
    ensures Apart(a, DUPLICATED, c, OPENING)
  {
    hide OccursAt, EndsUniquely;
    OpeningFacts();
    TrustedFacts();
    var s, n := a + DUPLICATED + c, |TRUSTED|;
    forall j: nat | OccursAt(s, OPENING, j) ensures j + |OPENING| <= |a| || j >= |a| + |DUPLICATED| {
      if |a| <= j < |a| + |DUPLICATED| {
        var k := j - |a|;
        CharOfMiddle(a, DUPLICATED, c, k);
        if k == n {
          CharOfMiddle(a, DUPLICATED, c, n + 3);
          assert DUPLICATED[n + 3] == ' ';
          CharAt(s, OPENING, j, 3);
        } else {
          assert DUPLICATED[k] != '\n' by { DuplicatedChars(k); }
          CharAt(s, OPENING, j, 0);
        }
        assert false;
      }
      if j < |a| < j + |OPENING| {
        CharOfMiddle(a, DUPLICATED, c, 0);
        CharAt(s, OPENING, j, |a| - j);
        assert false;
      }
    }
  }

  lemma DuplicatedChars(k: nat)
    requires k < |DUPLICATED| && k != |TRUSTED|
    ensures DUPLICATED[k] != '\n'
  {
    TrustedFacts();
    var n := |TRUSTED|;
    if k < n {
      assert DUPLICATED[k] == TRUSTED[k];
    } else if k >= n + 7 {
      assert DUPLICATED[k] == TRUSTED[k - n - 7];
    }
  }

  /** What acceptance says about the number of occurrences in the cut server block. */
  lemma AcceptedCount(conf: string)
    requires Accepts(conf)
    ensures var (start, end) := Server(conf).value; start <= end <= |conf| && Total(conf[start..end]) == 4
  {
    hide OccursAt, NumIn, CountFrom, LocationOk, HasLimit, ProxyLines, Contains;
    TrustedFacts();
    var (start, end) := Server(conf).value;
    CountsAll(conf[start..end], TRUSTED, 0);
  }

  /** If a mutant were accepted, its server block would be the original one with the text replaced. */
  lemma BothBlocks(a: string, x: string, y: string, c: string) returns (l: string, r: string)
    requires x != [] && Within(a, x, c) && Server(a + y + c).Some?
    requires Apart(a, x, c, OPENING) && Apart(a, x, c, MARKER) && Apart(a, y, c, OPENING)
    ensures r <= c && Server(a + x + c).Some? && |l| == |a| - Server(a + x + c).value.0
    ensures var (start, end) := Server(a + x + c).value;
            start <= end <= |a + x + c| && (a + x + c)[start..end] == l + x + r
    ensures var (start, end) := Server(a + y + c).value;
            start <= end <= |a + y + c| && (a + y + c)[start..end] == l + y + r
  {
    hide OccursAt, Apart, Server;
    ServerMovesOrFails(a, x, y, c);
    SliceInside(a + x + c);
    SliceInside(a + y + c);
    var (start, end) := Server(a + x + c).value;
    l, r := a[start..], c[..end - |a| - |x|];
    MiddleSlice(a, x, c, start, end);
    MiddleSlice(a, y, c, start, end - |x| + |y|);
  }

  lemma BothCounts(a: string, y: string, c: string) returns (l: string, r: string)
    requires Accepts(a + TRUSTED + c) && Within(a, TRUSTED, c) && Apart(a, y, c, OPENING) && Accepts(a + y + c)
    ensures r <= c && Total(l + TRUSTED + r) == 4 && Total(l + y + r) == 4
  {
    hide OccursAt, Total, Apart, Server, ServerOk;
    TrustedIsDirective();
    ApartOpening(a, TRUSTED, c);
    ApartMarker(a, TRUSTED, c);
    l, r := BothBlocks(a, TRUSTED, y, c);
    AcceptedCount(a + TRUSTED + c);
    AcceptedCount(a + y + c);
  }

  lemma ApartDuplicatedMarker(a: string, c: string)
    ensures Apart(a, DUPLICATED, c, MARKER)
  {
    hide OccursAt, DirectiveText;
    forall j: nat | OccursAt(a + DUPLICATED + c, MARKER, j) ensures j + |MARKER| <= |a| || j >= |a| + |DUPLICATED| {
      MarkerNotInDuplicated(a, c, j);
    }
  }

  lemma MarkerNotInDuplicated(a: string, c: string, j: nat)
    ensures OccursAt(a + DUPLICATED + c, MARKER, j) ==> j + |MARKER| <= |a| || j >= |a| + |DUPLICATED|
  {
    hide OccursAt, DirectiveText, EndsUniquely;
    TrustedFacts();
    TrustedIsDirective();
    MarkerFacts();
    var s, n, gap := a + DUPLICATED + c, |TRUSTED|, "\n      ";
    assert s == a + TRUSTED + (gap + TRUSTED + c) && s == (a + TRUSTED + gap) + TRUSTED + c;
    if |a| <= j < |a| + n {
      MarkerNotInside(a, TRUSTED, gap + TRUSTED + c, j);
    } else if |a| + n + 7 <= j < |a| + |DUPLICATED| {
      MarkerNotInside(a + TRUSTED + gap, TRUSTED, c, j);
    } else if j < |a| {
      CharOfMiddle(a, TRUSTED, gap + TRUSTED + c, 0);
      MarkerHasNoP(s, j, |a|);
    } else if j < |a| + n + 7 {
      CharOfMiddle(a + TRUSTED + gap, TRUSTED, c, 0);
      MarkerHasNoP(s, j, |a| + n + 7);
    }
  }

  lemma MarkerHasNoP(s: string, j: nat, i: nat)
    requires j <= i < |s| && s[i] == 'p'
    ensures OccursAt(s, MARKER, j) ==> j + |MARKER| <= i
  {
    hide OccursAt, EndsUniquely;
    MarkerFacts();
    if i < j + |MARKER| && OccursAt(s, MARKER, j) {
      CharAt(s, MARKER, j, i - j);
    }
  }

  /** Duplicating a directive is rejected exactly when it is in the apex server block. */
  lemma DuplicateRejectedExactly(conf: string, o: nat)
    requires Accepts(conf) && OccursAt(conf, TRUSTED, o)
    ensures o + |TRUSTED| <= |conf|
    ensures !Accepts(Replace(conf, o, |TRUSTED|, DUPLICATED)) <==> InServer(conf, o)
  {
    hide OccursAt, Total, Server, ServerOk, Apart, Accepts, DirectiveText, EndsUniquely;
    TrustedFacts();
    Around(conf, o);
    var a, c := conf[..o], conf[o + |TRUSTED|..];
    ApartDuplicated(a, c);
    ApartDuplicatedMarker(a, c);
    TrustedIsDirective();
    ApartOpening(a, TRUSTED, c);
    ApartMarker(a, TRUSTED, c);
    if !InServer(conf, o) {
      OutsideAccepted(a, TRUSTED, DUPLICATED, c);
    } else if Accepts(a + DUPLICATED + c) {
      var l, r := BothCounts(a, DUPLICATED, c);
      CountOriginal(l, r);
      CountDuplicated(l, r);
    }
  }

  /** A part of a text has at most as many occurrences. */
  lemma TotalOfPart(s: string, u: nat, v: nat)
    requires u <= v <= |s|
    ensures Total(s[u..v]) <= Total(s)
  {
    hide OccursAt, NumIn;
    var t, n := s[u..v], |TRUSTED|;
    forall j | 0 <= j < |t| + n && OccursAt(t, TRUSTED, j) ensures OccursAt(s, TRUSTED, j + u) {
      SubOccurs(s, u, v);
      OccursTrans(s, t, TRUSTED, u, j);
    }
    NumInMono(t, s, TRUSTED, 0, |t| + n, u);
    NumInSplit(s, TRUSTED, 0, u, |s| + n);
    NumInSplit(s, TRUSTED, u, |t| + n + u, |s| + n);
  }

  /** The server block that is cut out after a deletion lies inside what is left of the original one. */
  lemma ServerShrinks(a: string, x: string, c: string)
    requires x != [] && Within(a, x, c) && Apart(a, x, c, OPENING) && Apart(a, x, c, MARKER) && Server(a + [] + c).Some?
    ensures var (start, end) := Server(a + x + c).value;
            var (start', end') := Server(a + [] + c).value;
            start <= start' && end' <= end - |x|
  {
    hide OccursAt, Apart, Server;
    var conf, mutant := a + x + c, a + [] + c;
    var marker := ServerSlice(conf);
    var marker' := ServerSlice(mutant);
    SliceParts(conf, marker);
    SliceParts(mutant, marker');
    MarkerFacts();
    OpeningFacts();
    ApartAt(a, x, c, MARKER, marker);
    OccurrencesMove(a, x, [], c, MARKER, marker);
    var (start, end) := Server(conf).value;
    ApartAt(a, x, c, OPENING, start);
    ApartAt(a, x, c, OPENING, end);
    OccurrencesMove(a, x, [], c, OPENING, start);
    OccurrencesMove(a, x, [], c, OPENING, end);
  }

  /** Deleting the directive at `o` does not join the text on its two sides to a new one. */
  ghost predicate LeavesNone(conf: string, o: nat) {
    o + |TRUSTED| <= |conf| &&
    forall j: nat :: j < o < j + |TRUSTED| ==> !OccursAt(Replace(conf, o, |TRUSTED|, []), TRUSTED, j)
  }

  /** Deleting a directive of the apex server block is rejected, unless that makes a new one at the cut. */
  lemma DeleteRejected(conf: string, o: nat)
    requires Accepts(conf) && OccursAt(conf, TRUSTED, o) && InServer(conf, o) && LeavesNone(conf, o)
    ensures !Accepts(Replace(conf, o, |TRUSTED|, []))
  {
    hide OccursAt, Total, Server, ServerOk, Apart;
    Around(conf, o);
    TrustedIsDirective();
    var a, c := conf[..o], conf[o + |TRUSTED|..];
    ApartOpening(a, TRUSTED, c);
    ApartMarker(a, TRUSTED, c);
    var mutant := a + [] + c;
    if Accepts(mutant) {
      ServerShrinks(a, TRUSTED, c);
      SliceInside(conf);
      SliceInside(mutant);
      var (start, end) := Server(conf).value;
      var (start', end') := Server(mutant).value;
      var l, r := a[start..], c[..end - o - |TRUSTED|];
      MiddleSlice(a, TRUSTED, c, start, end);
      MiddleSlice(a, [], c, start, end - |TRUSTED|);
      AcceptedCount(conf);
      AcceptedCount(mutant);
      NoneInPart(conf, o, start, l, r);
      CountOriginal(l, r);
      CountDeleted(l, r);
      SliceOfSlice(mutant, start, end - |TRUSTED|, start', end');
      TotalOfPart(l + [] + r, start' - start, end' - start);
    }
  }

  lemma SliceOfSlice(s: string, u: nat, v: nat, u': nat, v': nat)
    requires u <= u' <= v' <= v <= |s|
    ensures s[u..v][u' - u..v' - u] == s[u'..v']
  {
    var t := s[u..v];
    assert forall k :: u' - u <= k < v' - u ==> t[k] == s[u + k];
    assert t[u' - u..v' - u] == s[u'..v'];
  }

  lemma NoneInPart(conf: string, o: nat, start: nat, l: string, r: string)
    requires LeavesNone(conf, o) && start <= o && l == conf[start..o] && r <= conf[o + |TRUSTED|..]
    ensures forall j: nat :: j < |l| < j + |TRUSTED| ==> !OccursAt(l + [] + r, TRUSTED, j)
  {
    hide OccursAt;
    var mutant := Replace(conf, o, |TRUSTED|, []);
    var s := l + [] + r;
    assert s == mutant[start..start + |s|];
    forall j: nat | j < |l| < j + |TRUSTED| && OccursAt(s, TRUSTED, j) ensures false {
      SubOccurs(mutant, start, start + |s|);
      OccursTrans(mutant, s, TRUSTED, start, j);
    }
  }

  lemma TrustedPlain(k: nat)
    requires k < |TRUSTED|
    ensures !LineBreak(TRUSTED[k]) && TRUSTED[k] != '{' && (k == 0 ==> !PySpace(TRUSTED[k]))
  {
    assert TRUSTED[0] == 'p' && !PySpace('p');
    hide PySpace;
    var a, b, c := "proxy_set_header ", "X-Forwarded-For ", "$remote_addr;";
    assert TRUSTED == a + b + c;
    if k < 17 { assert TRUSTED[k] == a[k]; }
    else if k < 33 { assert TRUSTED[k] == b[k - 17]; }
    else { assert TRUSTED[k] == c[k - 33]; }
  }

  /** No text that ends where a line starts, but for whitespace, ends with the front of the directive. */
  lemma NoFrontBefore(s: string, i: nat, j: nat)
    requires FirstOnLine(s, i) && j < i < j + |TRUSTED|
    ensures s[j..i] != TRUSTED[..i - j]
  {
    hide PySpace, LineBreak;
    var q: nat :| q <= i && (q == 0 || LineBreak(s[q - 1]) || s[q - 1] == '{') && All(PySpace, s[q..i]);
    var m := if q <= j then j else q - 1;
    assert q <= j ==> s[q..i][j - q] == s[j];
    TrustedPlain(m - j);
    SliceDiffers(s, j, i, m);
  }

  lemma SliceDiffers(s: string, j: nat, i: nat, m: nat)
    requires j <= m < i <= |s| && i <= j + |TRUSTED| && s[m] != TRUSTED[m - j]
    ensures s[j..i] != TRUSTED[..i - j]
  {
    assert s[j..i][m - j] == s[m] && TRUSTED[..i - j][m - j] == TRUSTED[m - j];
  }

  /** When no two blocks share a directive, deleting any directive of the apex server block is rejected. */
  lemma DeleteAlwaysRejected(conf: string, o: nat)
    requires Accepts(conf) && OccursAt(conf, TRUSTED, o) && InServer(conf, o)
    requires var (start, end) := Server(conf).value; Separate(conf[start..end])
    ensures o + |TRUSTED| <= |conf| && !Accepts(Replace(conf, o, |TRUSTED|, []))
  {
    hide OccursAt, Server, ServerOk, Separate, FirstOnLine, OneToOne, Accepts;
    Around(conf, o);
    AcceptedSlice(conf);
    var (start, end) := Server(conf).value;
    NotAnOpening(conf, o);
    InSlice(conf, start, end, o);
    OnItsLine(conf[start..end], o - start);
    forall j: nat | j < o < j + |TRUSTED| ensures !OccursAt(Replace(conf, o, |TRUSTED|, []), TRUSTED, j) {
      NoFront(conf, start, end, o, j);
      FrontOf(conf, o, j);
    }
    DeleteRejected(conf, o);
  }

  lemma AcceptedSlice(conf: string)
    requires Accepts(conf)
    ensures Server(conf).Some?
    ensures var (start, end) := Server(conf).value;
            start <= end <= |conf| && ServerOk(conf[start..end]) && OccursAt(conf, OPENING, start)
  {
    hide ServerOk, OccursAt, Server;
    var marker := ServerSlice(conf);
    SliceParts(conf, marker);
  }

  /** When no two blocks share a directive, every directive of the server is first on its line. */
  lemma OnItsLine(server: string, i: nat)
    requires ServerOk(server) && Separate(server) && OccursAt(server, TRUSTED, i)
    ensures FirstOnLine(server, i)
  {
    hide ServerOk, Separate, OccursAt, FirstOnLine, Inside;
    var places := WitnessesCorrespond(server);
    var b :| 0 <= b < 4 && places[b] == i;
  }

  lemma NoFront(conf: string, start: nat, end: nat, o: nat, j: nat)
    requires start < o <= end <= |conf| && FirstOnLine(conf[start..end], o - start)
    requires OccursAt(conf, OPENING, start) && j < o < j + |TRUSTED|
    ensures conf[j..o] != TRUSTED[..o - j]
  {
    hide OccursAt, FirstOnLine;
    if j >= start {
      NoFrontBefore(conf[start..end], o - start, j - start);
      SliceOfSlice(conf, start, end, j, o);
    } else {
      FrontHasNoBreak(conf, start, o, j);
    }
  }

  lemma NotAnOpening(conf: string, o: nat)
    requires OccursAt(conf, TRUSTED, o)
    ensures !OccursAt(conf, OPENING, o)
  {
    hide OccursAt, EndsUniquely;
    TrustedFacts();
    OpeningFacts();
    CharAt(conf, TRUSTED, o, 0);
    if OccursAt(conf, OPENING, o) {
      CharAt(conf, OPENING, o, 0);
    }
  }

  lemma InSlice(conf: string, start: nat, end: nat, o: nat)
    requires start <= o && o + |TRUSTED| <= end <= |conf| && OccursAt(conf, TRUSTED, o)
    ensures OccursAt(conf[start..end], TRUSTED, o - start)
  {
    SliceOfSlice(conf, start, end, o, o + |TRUSTED|);
  }

  lemma FrontOf(conf: string, o: nat, j: nat)
    requires o + |TRUSTED| <= |conf| && j < o < j + |TRUSTED|
    ensures OccursAt(Replace(conf, o, |TRUSTED|, []), TRUSTED, j) ==> conf[j..o] == TRUSTED[..o - j]
  {
    var mutant, n := Replace(conf, o, |TRUSTED|, []), |TRUSTED|;
    assert mutant[j..o] == conf[j..o];
    if OccursAt(mutant, TRUSTED, j) {
      assert mutant[j..j + n][..o - j] == mutant[j..o];
    }
  }

  /** The front of a directive does not reach back over the line break that opens the server block. */
  lemma FrontHasNoBreak(conf: string, start: nat, o: nat, j: nat)
    requires j < start < o <= |conf| && o <= j + |TRUSTED| && OccursAt(conf, OPENING, start)
    ensures conf[j..o] != TRUSTED[..o - j]
  {
    hide OccursAt, EndsUniquely;
    TrustedFacts();
    OpeningFacts();
    CharAt(conf, OPENING, start, 0);
    SliceDiffers(conf, j, o, start);
  }

  // ---------------------------------------------------------------------------------------------
  // Adding a limiter.

  const API := "location /api/ {"
  const LIMITED := API + "\n      " + "limit_req zone=unreviewed;"

  lemma ApartApi(a: string, c: string)
    ensures Apart(a, API, c, OPENING) && Apart(a, API, c, MARKER)
  {
    hide OccursAt;
    OpeningFacts();
    MarkerFacts();
    var s := a + API + c;
    forall j: nat | OccursAt(s, OPENING, j) ensures j + |OPENING| <= |a| || j >= |a| + |API| {
      if |a| <= j < |a| + |API| {
        CharOfMiddle(a, API, c, j - |a|);
        CharAt(s, OPENING, j, 0);
        assert false;
      }
      if j < |a| < j + |OPENING| {
        CharOfMiddle(a, API, c, 0);
        CharAt(s, OPENING, j, |a| - j);
        assert false;
      }
    }
    forall j: nat | OccursAt(s, MARKER, j) ensures j + |MARKER| <= |a| || j >= |a| + |API| {
      if |a| <= j < |a| + |API| {
        MarkerNotInApi(a, c, j);
        assert false;
      }
      if j < |a| < j + |MARKER| {
        CharOfMiddle(a, API, c, 0);
        MarkerHasNoL(|a| - j);
        CharAt(s, MARKER, j, |a| - j);
        assert false;
      }
    }
  }

  lemma MarkerHasNoL(k: nat)
    requires k < |MARKER|
    ensures MARKER[k] != 'l'
  {
    var a, b := "    server_name ", "masterbudet.ru;";
    if k < 16 { assert MARKER[k] == a[k]; } else { assert MARKER[k] == b[k - 16]; }
  }

  lemma MarkerNotInApi(a: string, c: string, j: nat)
    requires |a| <= j < |a| + |API|
    ensures !OccursAt(a + API + c, MARKER, j)
  {
    hide OccursAt;
    MarkerFacts();
    var s, k := a + API + c, j - |a|;
    assert MARKER[0] == ' ' && MARKER[1] == ' ';
    CharOfMiddle(a, API, c, k);
    if k + 1 < |API| {
      CharOfMiddle(a, API, c, k + 1);
    }
    if OccursAt(s, MARKER, j) {
      CharAt(s, MARKER, j, 0);
      CharAt(s, MARKER, j, 1);
    }
  }

  lemma LimitedChars(k: nat)
    requires k < |LIMITED| && k != |API|
    ensures LIMITED[k] != '\n'
  {
    var a, b, c := API, "\n      ", "limit_req zone=unreviewed;";
    assert LIMITED == a + b + c;
    if k < 16 { assert LIMITED[k] == a[k]; }
    else if k < 23 { assert LIMITED[k] == b[k - 16]; }
    else { assert LIMITED[k] == c[k - 23]; }
  }

  lemma ApartLimited(a: string, c: string)
    ensures Apart(a, LIMITED, c, OPENING)
  {
    hide OccursAt;
    OpeningFacts();
    var s, n := a + LIMITED + c, |API|;
    forall j: nat | OccursAt(s, OPENING, j) ensures j + |OPENING| <= |a| || j >= |a| + |LIMITED| {
      if |a| <= j < |a| + |LIMITED| {
        var k := j - |a|;
        CharOfMiddle(a, LIMITED, c, k);
        if k == n {
          CharOfMiddle(a, LIMITED, c, n + 3);
          assert LIMITED[n + 3] == ' ';
          CharAt(s, OPENING, j, 3);
        } else {
          LimitedChars(k);
          CharAt(s, OPENING, j, 0);
        }
        assert false;
      }
      if j < |a| < j + |OPENING| {
        CharOfMiddle(a, LIMITED, c, 0);
        CharAt(s, OPENING, j, |a| - j);
        assert false;
      }
    }
  }

  lemma LimitIn(u: string, gap: string, v: string)
    requires u != [] && u[|u| - 1] == '\n' && All(PySpace, gap) && v != [] && v[0] == ' '
    ensures HasLimit(u + gap + ("limit_req" + v))
  {
    var s, p, q := u + gap + ("limit_req" + v), |u|, |u| + |gap|;
    assert LineStart(s, p);
    assert s[p..q] == gap;
    assert s == (u + gap) + "limit_req" + v;
    assert OccursAt(s, "limit_req", q);
    assert s[q + 9] == ' ';
    assert WordAt(s, "limit_req", q);
  }

  lemma LimitFound(l: string, r: string)
    ensures HasLimit(l + LIMITED + r)
  {
    hide HasLimit;
    var u, gap, v := l + API + "\n", "      ", " zone=unreviewed;" + r;
    LimitIn(u, gap, v);
    assert "limit_req zone=unreviewed;" == "limit_req" + " zone=unreviewed;";
    assert "\n      " == "\n" + gap;
    Regroup(l, API, "\n", gap, "limit_req", " zone=unreviewed;", r);
  }

  lemma Regroup(l: string, a: string, b: string, c: string, d: string, e: string, r: string)
    ensures l + (a + (b + c) + (d + e)) + r == (l + a + b) + c + (d + (e + r))
  {
  }

  lemma LimitRejects(server: string)
    requires HasLimit(server)
    ensures !ServerOk(server)
  {
    hide HasLimit, LocationOk, ProxyLines, CountFrom, Contains;
  }

  lemma AroundApi(conf: string, o: nat)
    requires OccursAt(conf, API, o)
    ensures o + |API| <= |conf| && conf == conf[..o] + API + conf[o + |API|..]
  {
  }

  /** The API header at `o` lies in the apex server block. */
  predicate ApiInServer(conf: string, o: nat) {
    var s := Server(conf);
    s.Some? && s.value.0 <= o && o + |API| <= s.value.1
  }

  lemma LimitedSpaces(k: nat)
    requires |API| + 7 <= k < |LIMITED| - 1
    ensures LIMITED[k] != ' ' || LIMITED[k + 1] != ' '
  {
    var c := "limit_req zone=unreviewed;";
    assert LIMITED[k] == c[k - 23] && LIMITED[k + 1] == c[k - 22];
  }

  lemma MarkerNotInLimited(a: string, c: string, j: nat)
    ensures OccursAt(a + LIMITED + c, MARKER, j) ==> j + |MARKER| <= |a| || j >= |a| + |LIMITED|
  {
    hide OccursAt, EndsUniquely;
    MarkerFacts();
    var s, gap, w := a + LIMITED + c, "\n      ", "limit_req zone=unreviewed;";
    assert s == a + API + (gap + w + c) && |LIMITED| == 49;
    assert MARKER[0] == ' ' && MARKER[1] == ' ';
    assert s[|a|] == 'l' && s[|a| + 23] == LIMITED[23] == 'l' && s[|a| + 48] == LIMITED[48] == ';';
    if |a| <= j < |a| + |API| {
      MarkerNotInApi(a, gap + w + c, j);
    } else if j < |a| {
      MarkerLacksL(s, j, |a|);
    } else if j < |a| + 23 {
      MarkerLacksL(s, j, |a| + 23);
    } else if j < |a| + 48 {
      LimitedSpaces(j - |a|);
      assert s[j] == LIMITED[j - |a|] && s[j + 1] == LIMITED[j + 1 - |a|];
      if OccursAt(s, MARKER, j) {
        CharAt(s, MARKER, j, 1);
        CharAt(s, MARKER, j, 0);
      }
    } else if j == |a| + 48 && OccursAt(s, MARKER, j) {
      CharAt(s, MARKER, j, 0);
    }
  }

  lemma MarkerLacksL(s: string, j: nat, i: nat)
    requires j <= i < |s| && s[i] == 'l'
    ensures OccursAt(s, MARKER, j) ==> j + |MARKER| <= i
  {
    hide OccursAt;
    if i < j + |MARKER| {
      MarkerHasNoL(i - j);
      if OccursAt(s, MARKER, j) {
        CharAt(s, MARKER, j, i - j);
      }
    }
  }

  lemma ApartLimitedMarker(a: string, c: string)
    ensures Apart(a, LIMITED, c, MARKER)
  {
    hide OccursAt;
    forall j: nat | OccursAt(a + LIMITED + c, MARKER, j) ensures j + |MARKER| <= |a| || j >= |a| + |LIMITED| {
      MarkerNotInLimited(a, c, j);
    }
  }

  /** Adding a limiter to an API location is rejected exactly when that is in the apex server block. */
  lemma LimiterRejectedExactly(conf: string, o: nat)
    requires Accepts(conf) && OccursAt(conf, API, o)
    ensures o + |API| <= |conf|
    ensures !Accepts(Replace(conf, o, |API|, LIMITED)) <==> ApiInServer(conf, o)
  {
    hide OccursAt, Server, Apart, HasLimit, ServerOk;
    AroundApi(conf, o);
    var a, c := conf[..o], conf[o + |API|..];
    ApartApi(a, c);
    ApartLimited(a, c);
    ApartLimitedMarker(a, c);
    if !ApiInServer(conf, o) {
      OutsideAccepted(a, API, LIMITED, c);
    } else if Accepts(a + LIMITED + c) {
      var l, r := BothBlocks(a, API, LIMITED, c);
      LimitFound(l, r);
      LimitRejects(l + LIMITED + r);
    }
  }

  // ---------------------------------------------------------------------------------------------
  // The four mutants that the probe builds first.

  /**
  For an accepted configuration the loop builds four mutants, at four distinct occurrences, and each is
  rejected exactly when its occurrence is in the apex server block.
  */
  method AppendMutants(configuration: string) returns (mutants: seq<string>, places: seq<nat>)
    requires Accepts(configuration)
    ensures |mutants| == |places| == 4
    ensures forall i, j :: 0 <= i < j < 4 ==> places[i] != places[j]
    ensures forall i :: 0 <= i < 4 ==>
            OccursAt(configuration, TRUSTED, places[i]) && places[i] + |TRUSTED| <= |configuration|
    ensures forall i :: 0 <= i < 4 ==> mutants[i] == Replace(configuration, places[i], |TRUSTED|, APPENDED)
    ensures forall i :: 0 <= i < 4 ==> (!Accepts(mutants[i]) <==> InServer(configuration, places[i]))
  {
    hide OccursAt, NumIn, Accepts, InServer, Total;
    AcceptedHasFour(configuration);
    mutants, places := [], [];
    for index := 0 to 4
      invariant |mutants| == |places| == index
      invariant forall i :: 0 <= i < index ==>
                IsKth(configuration, i, places[i]) && places[i] + |TRUSTED| <= |configuration|
      invariant forall i :: 0 <= i < index ==> mutants[i] == Replace(configuration, places[i], |TRUSTED|, APPENDED)
      invariant forall i :: 0 <= i < index ==> (!Accepts(mutants[i]) <==> InServer(configuration, places[i]))
    {
      var start := FindLoop(configuration, index);
      AppendRejectedExactly(configuration, start);
      mutants := mutants + [Replace(configuration, start, |TRUSTED|, APPENDED)];
      places := places + [start];
    }
  }

  // ---------------------------------------------------------------------------------------------
  // Acceptance alone does not put the first occurrences into the apex server block.

  lemma ServerBehind(conf: string)
    requires Server(conf).Some?
    ensures Server(TRUSTED + conf) == Some((|TRUSTED| + Server(conf).value.0, |TRUSTED| + Server(conf).value.1))
  {
    hide OccursAt, Server;
    TrustedIsDirective();
    MarkerFacts();
    OpeningFacts();
    var marker := ServerSlice(conf);
    var (start, end) := Server(conf).value;
    ApartOpening([], TRUSTED, conf);
    ApartMarker([], TRUSTED, conf);
    assert [] + [] + conf == conf && [] + TRUSTED + conf == TRUSTED + conf;
    assert Apart([], [], conf, OPENING) && Apart([], [], conf, MARKER);
    forall j: nat | OccursAt([] + TRUSTED + conf, MARKER, j) ensures j == Moved([], [], TRUSTED, |MARKER|, marker) {
      ApartAt([], TRUSTED, conf, MARKER, j);
      OccurrencesMove([], [], TRUSTED, conf, MARKER, j - |TRUSTED|);
    }
    SliceMoves([], [], TRUSTED, conf, marker, start, end);
    ServerIs(TRUSTED + conf, marker + |TRUSTED|, start + |TRUSTED|, end + |TRUSTED|);
  }

  lemma AcceptedBehind(conf: string)
    requires Accepts(conf)
    ensures Accepts(TRUSTED + conf) && !InServer(TRUSTED + conf, 0) && OccursAt(TRUSTED + conf, TRUSTED, 0)
  {
    hide Server, ServerOk;
    ServerBehind(conf);
    var (start, end) := Server(conf).value;
    SliceInside(conf);
    assert (TRUSTED + conf)[|TRUSTED| + start..|TRUSTED| + end] == conf[start..end];
    TrustedFacts();
  }

  /**
  A directive in front of any accepted configuration is the first that the probe finds; the
  configuration is still accepted, and so is the mutant that appends there.
  */
  lemma MutantAccepted(conf: string)
    requires Accepts(conf)
    ensures var longer := TRUSTED + conf;
            && Accepts(longer) && IsKth(longer, 0, 0)
            && Accepts(Replace(longer, 0, |TRUSTED|, APPENDED))
  {
    hide OccursAt, Accepts, InServer;
    AcceptedBehind(conf);
    AppendRejectedExactly(TRUSTED + conf, 0);
  }
}
