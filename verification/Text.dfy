/** Text operations shared by the models: whitespace sets, trimming and joining. */
module Text {

  /** What JavaScript's `String.prototype.trim` removes: WhiteSpace and LineTerminator of ECMA-262. */
  predicate JsSpace(c: char) {
    var n := c as int;
    9 <= n <= 13 || n == 32 || n == 0xA0 || n == 0x1680 || 0x2000 <= n <= 0x200A ||
    n == 0x2028 || n == 0x2029 || n == 0x202F || n == 0x205F || n == 0x3000 || n == 0xFEFF
  }

  /** What Python's `str.strip` removes and `\s` matches. */
  predicate PySpace(c: char) {
    var n := c as int;
    9 <= n <= 13 || 28 <= n <= 32 || n == 0x85 || n == 0xA0 || n == 0x1680 || 0x2000 <= n <= 0x200A ||
    n == 0x2028 || n == 0x2029 || n == 0x202F || n == 0x205F || n == 0x3000
  }

  /** The same, character by character. */
  lemma SpacesAre(c: char)
    ensures JsSpace(c) <==> c in JsSpaces()
    ensures PySpace(c) <==> c in PySpaces()
  {
  }

  function CommonSpaces(): set<char> {
    {'\t', '\n', '\U{000B}', '\U{000C}', '\r', ' ', '\U{00A0}', '\U{1680}', '\U{2000}', '\U{2001}', '\U{2002}',
     '\U{2003}', '\U{2004}', '\U{2005}', '\U{2006}', '\U{2007}', '\U{2008}', '\U{2009}', '\U{200A}', '\U{2028}',
     '\U{2029}', '\U{202F}', '\U{205F}', '\U{3000}'}
  }

  function JsSpaces(): set<char> {
    CommonSpaces() + {'\U{FEFF}'}
  }

  function PySpaces(): set<char> {
    CommonSpaces() + {'\U{001C}', '\U{001D}', '\U{001E}', '\U{001F}', '\U{0085}'}
  }

  predicate All(p: char -> bool, s: string) {
    forall i :: 0 <= i < |s| ==> p(s[i])
  }

  function TrimStart(space: char -> bool, s: string): string {
    if s != [] && space(s[0]) then TrimStart(space, s[1..]) else s
  }

  function TrimEnd(space: char -> bool, s: string): string {
    if s != [] && space(s[|s| - 1]) then TrimEnd(space, s[..|s| - 1]) else s
  }

  function Trim(space: char -> bool, s: string): string {
    TrimEnd(space, TrimStart(space, s))
  }

  predicate Trimmed(space: char -> bool, s: string) {
    s != [] ==> !space(s[0]) && !space(s[|s| - 1])
  }

  lemma {:induction false} TrimStartSuffix(space: char -> bool, s: string)
    ensures var r := TrimStart(space, s);
            && |r| <= |s| && s == s[..|s| - |r|] + r && All(space, s[..|s| - |r|])
            && (r != [] ==> !space(r[0]))
  {
    if s != [] && space(s[0]) {
      TrimStartSuffix(space, s[1..]);
      var r := TrimStart(space, s[1..]);
      assert s[..|s| - |r|] == [s[0]] + s[1..][..|s| - 1 - |r|];
    }
  }

  lemma {:induction false} TrimEndTakes(space: char -> bool, s: string)
    ensures var r := TrimEnd(space, s);
            && |r| <= |s| && r == s[..|r|] && (forall i :: |r| <= i < |s| ==> space(s[i]))
            && (r != [] ==> !space(r[|r| - 1]))
  {
    if s != [] && space(s[|s| - 1]) {
      var t := s[..|s| - 1];
      TrimEndTakes(space, t);
      var r := TrimEnd(space, t);
      assert t[..|r|] == s[..|r|];
      assert forall i :: |r| <= i < |t| ==> s[i] == t[i];
    }
  }

  lemma TrimEndPrefix(space: char -> bool, s: string)
    ensures var r := TrimEnd(space, s);
            && |r| <= |s| && s == r + s[|r|..] && All(space, s[|r|..])
            && (r != [] ==> !space(r[|r| - 1]) && r[0] == s[0])
  {
    hide TrimEnd;
    TrimEndTakes(space, s);
  }

  /** Trimming leaves a text without outer whitespace, and removes nothing but whitespace. */
  lemma TrimParts(space: char -> bool, s: string) returns (front: string, back: string)
    ensures s == front + Trim(space, s) + back
    ensures All(space, front) && All(space, back) && Trimmed(space, Trim(space, s))
  {
    var t := TrimStart(space, s);
    TrimStartSuffix(space, s);
    TrimEndPrefix(space, t);
    front, back := s[..|s| - |t|], t[|Trim(space, s)|..];
  }

  lemma TrimmedIsFixed(space: char -> bool, s: string)
    requires Trimmed(space, s)
    ensures Trim(space, s) == s
  {
  }

  lemma {:induction false} TrimStartFront(space: char -> bool, x: string, w: string)
    requires w != [] && !space(w[0])
    ensures TrimStart(space, x + w) == TrimStart(space, x) + w
    ensures TrimStart(space, x) == [] <==> All(space, x)
  {
    if x == [] {
      assert x + w == w;
    } else {
      assert (x + w)[0] == x[0] && (x + w)[1..] == x[1..] + w;
      TrimStartFront(space, x[1..], w);
      assert x == [x[0]] + x[1..];
    }
  }

  lemma {:induction false} TrimEndBack(space: char -> bool, w: string, y: string)
    requires w != [] && !space(w[|w| - 1])
    ensures TrimEnd(space, w + y) == w + TrimEnd(space, y)
  {
    if y == [] {
      assert w + y == w;
    } else {
      assert (w + y)[|w + y| - 1] == y[|y| - 1] && (w + y)[..|w + y| - 1] == w + y[..|y| - 1];
      TrimEndBack(space, w, y[..|y| - 1]);
    }
  }

  /** Trimming around a text without outer whitespace leaves that text. */
  lemma TrimAround(space: char -> bool, x: string, m: string, y: string)
    requires m != [] && Trimmed(space, m)
    ensures Trim(space, x + m + y) == TrimStart(space, x) + m + TrimEnd(space, y)
  {
    hide TrimStart, TrimEnd;
    assert x + m + y == x + (m + y);
    TrimStartFront(space, x, m + y);
    assert TrimStart(space, x) + (m + y) == TrimStart(space, x) + m + y;
    TrimEndBack(space, TrimStart(space, x) + m, y);
  }

  lemma {:induction false} TrimEndKeeps(space: char -> bool, s: string, i: nat)
    requires i < |s| && !space(s[i])
    ensures i < |TrimEnd(space, s)|
  {
    if space(s[|s| - 1]) {
      TrimEndKeeps(space, s[..|s| - 1], i);
    }
  }

  /** Trimming cannot cut a text down past two characters that are not whitespace. */
  lemma TrimKeepsInner(space: char -> bool, x: string, y: string)
    requires x != [] && !space(x[0]) && y != [] && !space(y[0])
    ensures |Trim(space, x + y)| > |x|
  {
    TrimEndKeeps(space, x + y, |x|);
  }

  /** The parts with `sep` between neighbours, as `Array.prototype.join` and `str.join` build it. */
  function Join(parts: seq<string>, sep: string): string {
    if parts == [] then []
    else if |parts| == 1 then parts[0]
    else parts[0] + sep + Join(parts[1..], sep)
  }

  /** `p` occurs in `s` at `i`. */
  predicate OccursAt(s: string, p: string, i: nat) {
    i + |p| <= |s| && s[i..i + |p|] == p
  }

  predicate Contains(s: string, p: string) {
    exists i :: 0 <= i <= |s| && OccursAt(s, p, i)
  }
}
