/**
How the forwarding verifier cuts the apex server block out of the configuration, and what replacing a
stretch of text does to that cut.
*/
module NginxServer {
  import opened Wrappers
  import opened Text
  import opened Occurrences

  const MARKER := "    server_name " + "masterbudet.ru;"
  const OPENING := "\n  server {"

  /** Start and end of the apex server block: the opening before the marker, and the next one after it. */
  function Server(conf: string): Option<(nat, nat)> {
    if Count(conf, MARKER) != 1 then None
    else
      var marker := Find(conf, MARKER, 0);
      if marker < 0 then None
      else
        var start := RFind(conf, OPENING, marker);
        var end := Find(conf, OPENING, marker);
        if start >= 0 && end > start then Some((start, end)) else None
  }

  /** The only marker is at `marker`; `start` and `end` are the openings next to it. */
  ghost predicate Slice(conf: string, marker: nat, start: nat, end: nat) {
    && OccursAt(conf, MARKER, marker)
    && (forall j: nat :: OccursAt(conf, MARKER, j) ==> j == marker)
    && OccursAt(conf, OPENING, start) && start + |OPENING| <= marker
    && (forall j: nat :: j > start && j + |OPENING| <= marker ==> !OccursAt(conf, OPENING, j))
    && OccursAt(conf, OPENING, end) && marker <= end
    && (forall j: nat :: marker <= j < end ==> !OccursAt(conf, OPENING, j))
  }

  predicate Lacks(s: string, c: char) {
    forall i :: 0 <= i < |s| ==> s[i] != c
  }

  lemma MarkerFacts()
    ensures |MARKER| == 31 && EndsUniquely(MARKER) && MARKER[30] == ';' && MARKER[29] == 'u' && Lacks(MARKER, 'p')
  {
    var a, b := "    server_name ", "masterbudet.ru;";
    assert MARKER == a + b;
    forall i | 0 <= i < 31 ensures MARKER[i] != 'p' && (i < 30 ==> MARKER[i] != ';') {
      if i < 16 { assert MARKER[i] == a[i]; } else { assert MARKER[i] == b[i - 16]; }
    }
  }

  lemma OpeningFacts()
    ensures |OPENING| == 11 && OPENING[0] == '\n' && OPENING[3] == 's' && Lacks(OPENING, 'p')
    ensures forall i :: 1 <= i < |OPENING| ==> OPENING[i] != '\n'
  {
  }

  lemma {:induction false} NumInOne(s: string, p: string, lo: nat, hi: nat, i: nat)
    requires lo <= i < hi && OccursAt(s, p, i)
    requires NumIn(s, p, lo, hi) == 1
    ensures forall j :: lo <= j < hi && OccursAt(s, p, j) ==> j == i
  {
    hide OccursAt, NumIn;
    forall j | lo <= j < hi && OccursAt(s, p, j) ensures j == i {
      if j != i {
        var a, b := if j < i then j else i, if j < i then i else j;
        NumInSplit(s, p, lo, b, hi);
        NumInSome(s, p, lo, b, a);
        NumInSome(s, p, b, hi, b);
        assert false;
      }
    }
  }

  lemma {:induction false} NumInSome(s: string, p: string, lo: nat, hi: nat, i: nat)
    requires lo <= i < hi && OccursAt(s, p, i)
    ensures NumIn(s, p, lo, hi) >= 1
    decreases hi - lo
  {
    if lo < i {
      NumInSome(s, p, lo + 1, hi, i);
    }
  }

  lemma {:induction false} NumInUnique(s: string, p: string, lo: nat, hi: nat, i: nat)
    requires lo <= i < hi && OccursAt(s, p, i)
    requires forall j :: lo <= j < hi && OccursAt(s, p, j) ==> j == i
    ensures NumIn(s, p, lo, hi) == 1
  {
    hide OccursAt;
    NumInSplit(s, p, lo, i, hi);
    NumInNone(s, p, lo, i);
    NumInNone(s, p, i + 1, hi);
  }

  lemma UniqueIffCountOne(s: string, p: string, i: nat)
    requires EndsUniquely(p) && OccursAt(s, p, i)
    ensures Count(s, p) == 1 <==> forall j: nat :: OccursAt(s, p, j) ==> j == i
  {
    hide OccursAt, NumIn, CountFrom;
    CountsAll(s, p, 0);
    forall j: nat | OccursAt(s, p, j) ensures j < |s| + |p| { OccursInside(s, p, j); NonEmpty(p); }
    if Count(s, p) == 1 {
      NumInOne(s, p, 0, |s| + |p|, i);
    } else if forall j: nat :: OccursAt(s, p, j) ==> j == i {
      NumInUnique(s, p, 0, |s| + |p|, i);
    }
  }

  lemma NonEmpty(p: string)
    requires EndsUniquely(p)
    ensures |p| > 0
  {
  }

  /** The code's searches find the slice, exactly. */
  lemma ServerIs(conf: string, marker: nat, start: nat, end: nat)
    requires Slice(conf, marker, start, end)
    ensures Server(conf) == Some((start, end))
  {
    hide OccursAt, CountFrom, EndsUniquely;
    MarkerFacts();
    OpeningFacts();
    UniqueIffCountOne(conf, MARKER, marker);
    assert Find(conf, MARKER, 0) == marker;
    assert RFind(conf, OPENING, marker) == start;
    assert Find(conf, OPENING, marker) == end;
  }

  lemma ServerSlice(conf: string) returns (marker: nat)
    requires Server(conf).Some?
    ensures Slice(conf, marker, Server(conf).value.0, Server(conf).value.1)
  {
    hide OccursAt, CountFrom, EndsUniquely;
    MarkerFacts();
    marker := Find(conf, MARKER, 0);
    UniqueIffCountOne(conf, MARKER, marker);
  }

  // ---------------------------------------------------------------------------------------------
  // Replacing x by y in a + x + c.

  /** No occurrence of `p` in `a + x + c` touches `x` or the place where it is inserted. */
  ghost predicate Apart(a: string, x: string, c: string, p: string) {
    forall j: nat :: OccursAt(a + x + c, p, j) ==> j + |p| <= |a| || j >= |a| + |x|
  }

  lemma OccursLeft(a: string, x: string, c: string, p: string, j: nat)
    requires j + |p| <= |a|
    ensures OccursAt(a + x + c, p, j) <==> OccursAt(a, p, j)
  {
    assert (a + x + c)[j..j + |p|] == a[j..j + |p|];
  }

  lemma OccursRight(a: string, x: string, c: string, p: string, j: nat)
    ensures OccursAt(a + x + c, p, |a| + |x| + j) <==> OccursAt(c, p, j)
  {
    var s := a + x + c;
    if j + |p| <= |c| {
      assert s[|a| + |x| + j..|a| + |x| + j + |p|] == c[j..j + |p|];
    }
  }

  /** Where a position outside x goes when x becomes y. */
  function Moved(a: string, x: string, y: string, n: nat, j: nat): nat
    requires j + n <= |a| || j >= |a| + |x|
  {
    if j + n <= |a| then j else j - |x| + |y|
  }

  /** Occurrences that do not touch the replaced text stay, moved along with the text. */
  lemma OccurrencesMove(a: string, x: string, y: string, c: string, p: string, j: nat)
    requires p != [] && (j + |p| <= |a| || j >= |a| + |x|)
    ensures OccursAt(a + x + c, p, j) <==> OccursAt(a + y + c, p, Moved(a, x, y, |p|, j))
  {
    hide OccursAt;
    if j + |p| <= |a| {
      OccursLeft(a, x, c, p, j);
      OccursLeft(a, y, c, p, j);
    } else {
      OccursRight(a, x, c, p, j - |a| - |x|);
      OccursRight(a, y, c, p, j - |a| - |x|);
    }
  }

  /** The slice moves along with the text when neither old nor new text touches an opening or the marker. */
  lemma SliceMoves(a: string, x: string, y: string, c: string, marker: nat, start: nat, end: nat)
    requires Slice(a + x + c, marker, start, end)
    requires Apart(a, x, c, OPENING) && Apart(a, y, c, OPENING) && Apart(a, x, c, MARKER)
    requires forall j: nat :: OccursAt(a + y + c, MARKER, j) ==> j == Moved(a, x, y, |MARKER|, marker)
    ensures Slice(a + y + c, Moved(a, x, y, |MARKER|, marker), Moved(a, x, y, |OPENING|, start),
            Moved(a, x, y, |OPENING|, end))
  {
    hide OccursAt;
    MarkerFacts();
    OpeningFacts();
    var n := |OPENING|;
    var marker', start', end' := Moved(a, x, y, |MARKER|, marker), Moved(a, x, y, n, start), Moved(a, x, y, n, end);
    OccurrencesMove(a, x, y, c, MARKER, marker);
    OccurrencesMove(a, x, y, c, OPENING, start);
    OccurrencesMove(a, x, y, c, OPENING, end);
    forall j: nat | j > start' && j + n <= marker' ensures !OccursAt(a + y + c, OPENING, j) {
      if j + n <= |a| || j >= |a| + |y| {
        var i := Moved(a, y, x, n, j);
        OccurrencesMove(a, y, x, c, OPENING, j);
        assert i > start && i + n <= marker;
      }
    }
    forall j: nat | marker' <= j < end' ensures !OccursAt(a + y + c, OPENING, j) {
      if j + n <= |a| || j >= |a| + |y| {
        var i := Moved(a, y, x, n, j);
        OccurrencesMove(a, y, x, c, OPENING, j);
        assert marker <= i < end;
      }
    }
  }
}
