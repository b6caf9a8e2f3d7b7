/**
The block extractor of the forwarding verifier: finding a block by its header and matching its braces
outside quotes and comments.
*/
module NginxBlocks {
  import opened Wrappers
  import opened Text

  // ---------------------------------------------------------------------------------------------
  // Brace matching.

  datatype Lexical = Plain | Quote(mark: char, escaped: bool) | Comment

  function Step(l: Lexical, c: char): Lexical {
    match l
    case Comment => if c == '\n' then Plain else Comment
    case Quote(q, escaped) =>
      if escaped then Quote(q, false)
      else if c == '\\' then Quote(q, true)
      else if c == q then Plain
      else l
    case Plain =>
      if c == '#' then Comment
      else if c == '"' || c == '\'' then Quote(c, false)
      else Plain
  }

  function Depth(l: Lexical, depth: int, c: char): int {
    if l != Plain then depth else if c == '{' then depth + 1 else if c == '}' then depth - 1 else depth
  }

  /** Where the brace is that brings the depth to 0, when the text is read from state `l` at depth `depth`. */
  function Close(l: Lexical, depth: int, s: string): (r: Option<nat>)
    ensures r.Some? ==> r.value < |s|
    decreases |s|
  {
    if s == [] then None
    else if l == Plain && s[0] == '}' && depth == 1 then Some(0)
    else
      var r := Close(Step(l, s[0]), Depth(l, depth, s[0]), s[1..]);
      if r.None? then None else Some(r.value + 1)
  }

  function Shift(n: nat, r: Option<nat>): Option<nat> {
    if r.None? then None else Some(n + r.value)
  }

  /** The lexical state after reading `s`. */
  function StateAfter(l: Lexical, s: string): Lexical
    decreases |s|
  {
    if s == [] then l else StateAfter(Step(l, s[0]), s[1..])
  }

  function DepthAfter(l: Lexical, depth: int, s: string): int
    decreases |s|
  {
    if s == [] then depth else DepthAfter(Step(l, s[0]), Depth(l, depth, s[0]), s[1..])
  }

  // ---------------------------------------------------------------------------------------------
  // Balanced text, described by what it consists of rather than by a scan.

  datatype Piece = Literal(c: char) | Escape(c: char)

  datatype Body =
    | End
    | Other(c: char, rest: Body)
    | Quoted(mark: char, pieces: seq<Piece>, rest: Body)
    | Remark(text: string, rest: Body)
    | Braces(inner: Body, rest: Body)

  function PrintPiece(p: Piece): string {
    match p case Literal(c) => [c] case Escape(c) => ['\\', c]
  }

  function PrintPieces(ps: seq<Piece>): string {
    if ps == [] then "" else PrintPiece(ps[0]) + PrintPieces(ps[1..])
  }

  function Print(b: Body): string {
    match b
    case End => ""
    case Other(c, rest) => [c] + Print(rest)
    case Quoted(q, ps, rest) => [q] + (PrintPieces(ps) + [q]) + Print(rest)
    case Remark(text, rest) => "#" + (text + "\n") + Print(rest)
    case Braces(inner, rest) => "{" + Print(inner) + "}" + Print(rest)
  }

  predicate Balanced(b: Body) {
    match b
    case End => true
    case Other(c, rest) => c != '#' && c != '"' && c != '\'' && c != '{' && c != '}' && Balanced(rest)
    case Quoted(q, ps, rest) =>
      && (q == '"' || q == '\'')
      && (forall i :: 0 <= i < |ps| && ps[i].Literal? ==> ps[i].c != q && ps[i].c != '\\')
      && Balanced(rest)
    case Remark(text, rest) => (forall i :: 0 <= i < |text| ==> text[i] != '\n') && Balanced(rest)
    case Braces(inner, rest) => Balanced(inner) && Balanced(rest)
  }

  /** `s` is a balanced body. */
  ghost predicate IsBody(s: string) {
    exists b :: Balanced(b) && Print(b) == s
  }

  // ---------------------------------------------------------------------------------------------
  // Scanning over balanced text comes back to the same state.

  lemma UnfoldClose(l: Lexical, depth: int, c: char, t: string)
    ensures Close(l, depth, [c] + t) ==
            if l == Plain && c == '}' && depth == 1 then Some(0) else Shift(1, Close(Step(l, c), Depth(l, depth, c), t))
  {
    assert ([c] + t)[1..] == t;
  }

  lemma {:induction false} OverPieces(q: char, depth: int, ps: seq<Piece>, t: string)
    requires q == '"' || q == '\''
    requires forall i :: 0 <= i < |ps| && ps[i].Literal? ==> ps[i].c != q && ps[i].c != '\\'
    ensures Close(Quote(q, false), depth, PrintPieces(ps) + [q] + t)
            == Shift(|PrintPieces(ps)| + 1, Close(Plain, depth, t))
    decreases |ps|
  {
    hide Close;
    if ps == [] {
      assert PrintPieces(ps) + [q] + t == [q] + t;
      UnfoldClose(Quote(q, false), depth, q, t);
    } else {
      var rest := PrintPieces(ps[1..]) + [q] + t;
      OverPieces(q, depth, ps[1..], t);
      match ps[0]
      case Literal(c) =>
        assert PrintPieces(ps) + [q] + t == [c] + rest;
        UnfoldClose(Quote(q, false), depth, c, rest);
      case Escape(c) =>
        assert PrintPieces(ps) + [q] + t == ['\\'] + ([c] + rest);
        UnfoldClose(Quote(q, false), depth, '\\', [c] + rest);
        UnfoldClose(Quote(q, true), depth, c, rest);
    }
  }

  lemma {:induction false} OverRemark(depth: int, text: string, t: string)
    requires forall i :: 0 <= i < |text| ==> text[i] != '\n'
    ensures Close(Comment, depth, text + "\n" + t) == Shift(|text| + 1, Close(Plain, depth, t))
    decreases |text|
  {
    hide Close;
    if text == [] {
      assert text + "\n" + t == ['\n'] + t;
      UnfoldClose(Comment, depth, '\n', t);
    } else {
      assert text + "\n" + t == [text[0]] + (text[1..] + "\n" + t);
      UnfoldClose(Comment, depth, text[0], text[1..] + "\n" + t);
      OverRemark(depth, text[1..], t);
    }
  }

  /** A balanced text is read from depth d to depth d, never reaching 0 in between. */
  lemma {:induction false} OverBody(depth: int, b: Body, t: string)
    requires Balanced(b) && depth >= 1
    ensures Close(Plain, depth, Print(b) + t) == Shift(|Print(b)|, Close(Plain, depth, t))
    decreases b
  {
    hide Close, Print, PrintPieces;
    PrintThen(b, t);
    match b
    case End =>
    case Other(c, rest) =>
      UnfoldClose(Plain, depth, c, Print(rest) + t);
      OverBody(depth, rest, t);
    case Quoted(q, ps, rest) =>
      UnfoldClose(Plain, depth, q, PrintPieces(ps) + [q] + (Print(rest) + t));
      OverPieces(q, depth, ps, Print(rest) + t);
      OverBody(depth, rest, t);
    case Remark(text, rest) =>
      UnfoldClose(Plain, depth, '#', text + "\n" + (Print(rest) + t));
      OverRemark(depth, text, Print(rest) + t);
      OverBody(depth, rest, t);
    case Braces(inner, rest) =>
      var u := ['}'] + (Print(rest) + t);
      UnfoldClose(Plain, depth, '{', Print(inner) + u);
      OverBody(depth + 1, inner, u);
      UnfoldClose(Plain, depth + 1, '}', Print(rest) + t);
      OverBody(depth, rest, t);
  }

  /** What is printed for a body, followed by `t`, in the order in which it is read. */
  lemma PrintThen(b: Body, t: string)
    ensures match b
            case End => Print(b) == [] && Print(b) + t == t
            case Other(c, rest) => Print(b) + t == [c] + (Print(rest) + t) && |Print(b)| == 1 + |Print(rest)|
            case Quoted(q, ps, rest) =>
              && Print(b) + t == [q] + (PrintPieces(ps) + [q] + (Print(rest) + t))
              && |Print(b)| == |PrintPieces(ps)| + 2 + |Print(rest)|
            case Remark(text, rest) =>
              && Print(b) + t == ['#'] + (text + "\n" + (Print(rest) + t))
              && |Print(b)| == |text| + 2 + |Print(rest)|
            case Braces(inner, rest) =>
              && Print(b) + t == ['{'] + (Print(inner) + (['}'] + (Print(rest) + t)))
              && |Print(b)| == |Print(inner)| + 2 + |Print(rest)|
  {
    match b
    case End =>
    case Other(c, rest) =>
      Regroup([c], Print(rest), t);
    case Quoted(q, ps, rest) =>
      RegroupToken(q, PrintPieces(ps), [q], Print(rest), t);
    case Remark(text, rest) =>
      RegroupToken('#', text, "\n", Print(rest), t);
    case Braces(inner, rest) =>
      RegroupBraces(Print(inner), Print(rest), t);
  }

  lemma Regroup(a: string, b: string, c: string)
    ensures a + b + c == a + (b + c)
  {
  }

  lemma RegroupToken(c: char, a: string, b: string, rest: string, t: string)
    ensures ([c] + (a + b) + rest) + t == [c] + (a + b + (rest + t))
  {
  }

  lemma RegroupBraces(inner: string, rest: string, t: string)
    ensures ("{" + inner + "}" + rest) + t == ['{'] + (inner + (['}'] + (rest + t)))
  {
  }

  // ---------------------------------------------------------------------------------------------
  // Conversely, what a successful scan has read is balanced.

  lemma PiecesCons(p: Piece, ps: seq<Piece>, q: char)
    ensures PrintPieces([p] + ps) + [q] == PrintPiece(p) + (PrintPieces(ps) + [q])
  {
    assert ([p] + ps)[1..] == ps;
  }

  lemma {:induction false} QuoteEnds(q: char, escaped: bool, depth: int, s: string) returns (ps: seq<Piece>, n: nat)
    requires (q == '"' || q == '\'') && Close(Quote(q, escaped), depth, s).Some?
    ensures n <= |s| && Close(Quote(q, escaped), depth, s) == Shift(n, Close(Plain, depth, s[n..]))
    ensures forall i :: 0 <= i < |ps| && ps[i].Literal? ==> ps[i].c != q && ps[i].c != '\\'
    ensures PrintPieces(ps) + [q] == (if escaped then "\\" else "") + s[..n]
    decreases |s|
  {
    CloseNil(Quote(q, escaped), depth);
    hide Close;
    var c, t := s[0], s[1..];
    assert s == [c] + t;
    UnfoldClose(Quote(q, escaped), depth, c, t);
    if !escaped && c == q {
      ps, n := [], 1;
      assert s[1..] == t && s[..1] == [q];
    } else {
      var ps', n' := QuoteEnds(q, !escaped && c == '\\', depth, t);
      n := n' + 1;
      TakeCons(c, t, n');
      hide PrintPieces;
      if escaped {
        ps := [Escape(c)] + ps';
        PiecesCons(Escape(c), ps', q);
        assert "\\" + ([c] + t[..n']) == ['\\', c] + t[..n'];
      } else if c == '\\' {
        ps := ps';
      } else {
        ps := [Literal(c)] + ps';
        PiecesCons(Literal(c), ps', q);
      }
    }
  }

  lemma TakeCons(c: char, t: string, n: nat)
    requires n <= |t|
    ensures ([c] + t)[..n + 1] == [c] + t[..n] && ([c] + t)[n + 1..] == t[n..]
  {
  }

  lemma TakeToken(c: char, t: string, n: nat, k: nat)
    requires n <= k <= |t|
    ensures ([c] + t)[..k + 1] == [c] + t[..n] + t[n..][..k - n]
  {
  }

  lemma CloseNil(l: Lexical, depth: int)
    ensures Close(l, depth, []) == None
  {
  }

  lemma {:induction false} RemarkEnds(depth: int, s: string) returns (text: string, n: nat)
    requires Close(Comment, depth, s).Some?
    ensures n <= |s| && Close(Comment, depth, s) == Shift(n, Close(Plain, depth, s[n..]))
    ensures (forall i :: 0 <= i < |text| ==> text[i] != '\n') && text + "\n" == s[..n]
    decreases |s|
  {
    hide Close;
    CloseNil(Comment, depth);
    var c, t := s[0], s[1..];
    assert s == [c] + t;
    UnfoldClose(Comment, depth, c, t);
    if c == '\n' {
      text, n := [], 1;
      assert s[1..] == t && s[..1] == "\n";
    } else {
      var text', n' := RemarkEnds(depth, t);
      text, n := [c] + text', n' + 1;
      assert s[n..] == t[n'..] && s[..n] == [c] + t[..n'];
    }
  }

  /** The bodies of nested blocks, each followed by its closing brace. */
  function PrintAll(bs: seq<Body>): string {
    if bs == [] then "" else Print(bs[0]) + "}" + PrintAll(bs[1..])
  }

  ghost predicate AllBalanced(bs: seq<Body>) {
    forall i :: 0 <= i < |bs| ==> Balanced(bs[i])
  }

  /** A scan from depth d that succeeds has read d balanced bodies, each closed by a brace. */
  lemma {:induction false} Parse(depth: int, s: string) returns (bs: seq<Body>)
    requires depth >= 1 && Close(Plain, depth, s).Some?
    ensures |bs| == depth && AllBalanced(bs)
    ensures PrintAll(bs) == s[..Close(Plain, depth, s).value + 1]
    decreases |s|
  {
    hide Close, Print, Balanced, PrintAll, AllBalanced, PrintPieces;
    CloseNil(Plain, depth);
    var c, t := s[0], s[1..];
    assert s == [c] + t;
    UnfoldClose(Plain, depth, c, t);
    var k := Close(Plain, depth, s).value;
    TakeCons(c, t, k);
    if c == '}' && depth == 1 {
      bs := [End];
      PrintOne();
    } else if c == '}' {
      var bs' := Parse(depth - 1, t);
      bs := [End] + bs';
      PrintEnd(bs');
    } else if c == '{' {
      var bs' := Parse(depth + 1, t);
      bs := Nest(bs', t[..k]);
    } else if c == '"' || c == '\'' {
      var ps, n := QuoteEnds(c, false, depth, t);
      var bs' := Parse(depth, t[n..]);
      bs := PrependQuoted(c, ps, t[..n], bs', t[n..][..k - n]);
      TakeToken(c, t, n, k);
    } else if c == '#' {
      var text, n := RemarkEnds(depth, t);
      var bs' := Parse(depth, t[n..]);
      bs := PrependRemark(text, t[..n], bs', t[n..][..k - n]);
      TakeToken(c, t, n, k);
    } else {
      var bs' := Parse(depth, t);
      bs := PrependOther(c, bs', t[..k]);
    }
  }

  lemma PrintEnd(bs: seq<Body>)
    requires AllBalanced(bs)
    ensures PrintAll([End] + bs) == "}" + PrintAll(bs) && AllBalanced([End] + bs)
  {
    assert ([End] + bs)[1..] == bs;
  }

  lemma PrependOther(c: char, bs': seq<Body>, rest: string) returns (bs: seq<Body>)
    requires |bs'| >= 1 && AllBalanced(bs') && PrintAll(bs') == rest
    requires c != '#' && c != '"' && c != '\'' && c != '{' && c != '}'
    ensures |bs| == |bs'| && AllBalanced(bs) && PrintAll(bs) == [c] + rest
  {
    hide Balanced, Print, PrintAll;
    PrintOther(c, bs'[0]);
    bs := Prepend(Other(c, bs'[0]), [c], bs', rest);
  }

  lemma PrependQuoted(q: char, ps: seq<Piece>, text: string, bs': seq<Body>, rest: string) returns (bs: seq<Body>)
    requires |bs'| >= 1 && AllBalanced(bs') && PrintAll(bs') == rest
    requires (q == '"' || q == '\'') && PrintPieces(ps) + [q] == text
    requires forall i :: 0 <= i < |ps| && ps[i].Literal? ==> ps[i].c != q && ps[i].c != '\\'
    ensures |bs| == |bs'| && AllBalanced(bs) && PrintAll(bs) == [q] + text + rest
  {
    hide Balanced, Print, PrintAll, PrintPieces;
    PrintQuoted(q, ps, bs'[0], text);
    bs := Prepend(Quoted(q, ps, bs'[0]), [q] + text, bs', rest);
  }

  lemma PrependRemark(text: string, line: string, bs': seq<Body>, rest: string) returns (bs: seq<Body>)
    requires |bs'| >= 1 && AllBalanced(bs') && PrintAll(bs') == rest
    requires (forall i :: 0 <= i < |text| ==> text[i] != '\n') && text + "\n" == line
    ensures |bs| == |bs'| && AllBalanced(bs) && PrintAll(bs) == ['#'] + line + rest
  {
    hide Balanced, Print, PrintAll;
    PrintRemark(text, bs'[0], line);
    bs := Prepend(Remark(text, bs'[0]), "#" + line, bs', rest);
  }

  lemma PrintOne()
    ensures PrintAll([End]) == "}" && AllBalanced([End])
  {
  }

  lemma PrintOther(c: char, rest: Body)
    requires c != '#' && c != '"' && c != '\'' && c != '{' && c != '}' && Balanced(rest)
    ensures Print(Other(c, rest)) == [c] + Print(rest) && Balanced(Other(c, rest))
  {
  }

  lemma PrintQuoted(q: char, ps: seq<Piece>, rest: Body, text: string)
    requires (q == '"' || q == '\'') && Balanced(rest) && text == PrintPieces(ps) + [q]
    requires forall i :: 0 <= i < |ps| && ps[i].Literal? ==> ps[i].c != q && ps[i].c != '\\'
    ensures Print(Quoted(q, ps, rest)) == [q] + text + Print(rest) && Balanced(Quoted(q, ps, rest))
  {
  }

  lemma PrintRemark(text: string, rest: Body, line: string)
    requires (forall i :: 0 <= i < |text| ==> text[i] != '\n') && Balanced(rest) && line == text + "\n"
    ensures Print(Remark(text, rest)) == "#" + line + Print(rest) && Balanced(Remark(text, rest))
  {
  }

  /** The first body gets one more token in front of it. */
  lemma Prepend(b: Body, front: string, bs': seq<Body>, rest: string) returns (bs: seq<Body>)
    requires |bs'| >= 1 && AllBalanced(bs') && PrintAll(bs') == rest
    requires Print(b) == front + Print(bs'[0]) && Balanced(b)
    ensures |bs| == |bs'| && AllBalanced(bs) && PrintAll(bs) == front + rest
  {
    hide Balanced, Print;
    bs := [b] + bs'[1..];
    assert bs[1..] == bs'[1..];
    assert PrintAll(bs) == front + Print(bs'[0]) + "}" + PrintAll(bs'[1..]);
    assert rest == Print(bs'[0]) + "}" + PrintAll(bs'[1..]);
  }

  /** The first two bodies become one, with the first inside braces. */
  lemma Nest(bs': seq<Body>, rest: string) returns (bs: seq<Body>)
    requires |bs'| >= 2 && AllBalanced(bs') && PrintAll(bs') == rest
    ensures |bs| == |bs'| - 1 && AllBalanced(bs) && PrintAll(bs) == "{" + rest
  {
    var b := Braces(bs'[0], bs'[1]);
    bs := [b] + bs'[2..];
    assert bs[1..] == bs'[2..] == bs'[1..][1..] && bs'[1..][0] == bs'[1];
    var tail := PrintAll(bs'[2..]);
    assert rest == Print(bs'[0]) + "}" + (Print(bs'[1]) + "}" + tail);
    assert PrintAll(bs) == ("{" + Print(bs'[0]) + "}" + Print(bs'[1])) + "}" + tail;
  }

  /**
  The closing brace is the first one after a balanced text, and there is none exactly when no brace is
  preceded by such a text.
  */
  lemma CloseExactly(s: string, k: nat)
    ensures Close(Plain, 1, s) == Some(k) <==> k < |s| && s[k] == '}' && IsBody(s[..k])
  {
    hide Close, Print, Balanced;
    if Close(Plain, 1, s) == Some(k) {
      var bs := Parse(1, s);
      assert bs == [bs[0]] && bs[1..] == [];
      assert PrintAll([]) == "";
      var b := bs[0];
      assert Print(b) + "}" == s[..k + 1];
      assert |Print(b)| == k && Print(b) == (Print(b) + "}")[..k] == s[..k] && s[k] == (Print(b) + "}")[k] == '}';
      assert Balanced(b);
    } else if k < |s| && s[k] == '}' && IsBody(s[..k]) {
      var b :| Balanced(b) && Print(b) == s[..k];
      var t := s[k + 1..];
      assert s == Print(b) + (['}'] + t);
      OverBody(1, b, ['}'] + t);
      UnfoldClose(Plain, 1, '}', t);
    }
  }

  // ---------------------------------------------------------------------------------------------
  // Blocks nest.

  /** Skipping ahead in a scan that succeeds. */
  lemma {:induction false} CloseLater(l: Lexical, depth: int, s: string, i: nat)
    requires Close(l, depth, s).Some? && i <= Close(l, depth, s).value
    ensures Close(l, depth, s) == Shift(i, Close(StateAfter(l, s[..i]), DepthAfter(l, depth, s[..i]), s[i..]))
    decreases i
  {
    hide Close;
    if i == 0 {
      assert s[..0] == [] && s[0..] == s;
    } else {
      CloseNil(l, depth);
      var c, t := s[0], s[1..];
      assert s == [c] + t;
      UnfoldClose(l, depth, c, t);
      CloseLater(Step(l, c), Depth(l, depth, c), t, i - 1);
      TakeCons(c, t, i - 1);
      assert ([c] + t[..i - 1])[1..] == t[..i - 1];
    }
  }

  /** From a smaller depth the scan closes earlier. */
  lemma {:induction false} CloseShallower(l: Lexical, d: int, e: int, s: string)
    requires 1 <= d < e && Close(l, e, s).Some?
    ensures Close(l, d, s).Some? && Close(l, d, s).value < Close(l, e, s).value
    decreases |s|
  {
    hide Close;
    CloseNil(l, e);
    var c, t := s[0], s[1..];
    assert s == [c] + t;
    UnfoldClose(l, e, c, t);
    UnfoldClose(l, d, c, t);
    if !(l == Plain && c == '}' && d == 1) {
      CloseShallower(Step(l, c), Depth(l, d, c), Depth(l, e, c), t);
    }
  }

  /** While a scan has not come back to depth 0, its depth is at least 1. */
  lemma {:induction false} DepthStaysPositive(l: Lexical, depth: int, s: string, i: nat)
    requires depth >= 1 && Close(l, depth, s).Some? && i <= Close(l, depth, s).value
    ensures DepthAfter(l, depth, s[..i]) >= 1
    decreases i
  {
    hide Close;
    if i > 0 {
      CloseNil(l, depth);
      var c, t := s[0], s[1..];
      assert s == [c] + t;
      UnfoldClose(l, depth, c, t);
      DepthStaysPositive(Step(l, c), Depth(l, depth, c), t, i - 1);
      TakeCons(c, t, i - 1);
      assert ([c] + t[..i - 1])[1..] == t[..i - 1];
    }
  }

  /** An opening brace that the scan of a block reaches in plain mode opens a block that ends inside it. */
  lemma BlocksNest(s: string, i: nat)
    requires Close(Plain, 1, s).Some? && i < Close(Plain, 1, s).value
    requires s[i] == '{' && StateAfter(Plain, s[..i]) == Plain
    ensures var inner := Close(Plain, 1, s[i + 1..]);
            inner.Some? && i + 1 + inner.value < Close(Plain, 1, s).value
  {
    hide Close, StateAfter, DepthAfter;
    CloseLater(Plain, 1, s, i);
    DepthStaysPositive(Plain, 1, s, i);
    var d := DepthAfter(Plain, 1, s[..i]);
    assert s[i..] == ['{'] + s[i + 1..];
    UnfoldClose(Plain, d, '{', s[i + 1..]);
    CloseShallower(Plain, 1, d + 1, s[i + 1..]);
  }

  // ---------------------------------------------------------------------------------------------
  // Finding a block by its header.

  predicate Blank(c: char) {
    c == ' ' || c == '\t'
  }

  function Blanks(s: string): (n: nat)
    ensures n <= |s| && (n < |s| ==> !Blank(s[n]))
  {
    if s != [] && Blank(s[0]) then 1 + Blanks(s[1..]) else 0
  }

  /** Length of the match of the header's words, with blanks between them, up to and including the brace. */
  function MatchWords(s: string, words: seq<string>): (r: Option<nat>)
    requires words != []
    ensures r.Some? ==> 0 < r.value <= |s| && s[r.value - 1] == '{'
    decreases |words|
  {
    if !(words[0] <= s) then None
    else
      var n := |words[0]| + Blanks(s[|words[0]|..]);
      if |words| == 1 then
        if n < |s| && s[n] == '{' then Some(n + 1) else None
      else if n == |words[0]| then None
      else
        var r := MatchWords(s[n..], words[1..]);
        if r.None? then None else Some(n + r.value)
  }

  /** A header as the pattern describes it: the words with at least one blank between them, then blanks and a brace. */
  ghost predicate HeaderText(text: string, words: seq<string>)
    requires words != []
    decreases |words|
  {
    if |words| == 1 then exists b :: All(Blank, b) && text == words[0] + b + "{"
    else exists b, rest :: All(Blank, b) && b != [] && HeaderText(rest, words[1..]) && text == words[0] + b + rest
  }

  ghost predicate Words(words: seq<string>) {
    words != [] && forall i :: 0 <= i < |words| ==> words[i] != [] && !Blank(words[i][0])
  }

  lemma {:induction false} BlanksOf(b: string, t: string)
    requires All(Blank, b) && t != [] && !Blank(t[0])
    ensures Blanks(b + t) == |b|
  {
    if b == [] {
      assert b + t == t;
    } else {
      assert (b + t)[1..] == b[1..] + t;
      BlanksOf(b[1..], t);
    }
  }

  lemma {:induction false} BlanksAreBlank(s: string)
    ensures All(Blank, s[..Blanks(s)])
  {
    if s != [] && Blank(s[0]) {
      BlanksAreBlank(s[1..]);
      assert forall i :: 0 < i < Blanks(s) ==> s[..Blanks(s)][i] == s[1..][..Blanks(s[1..])][i - 1];
    }
  }

  lemma HeaderStarts(text: string, words: seq<string>)
    requires Words(words) && HeaderText(text, words)
    ensures text != [] && !Blank(text[0])
  {
  }

  lemma UnfoldMatch(s: string, words: seq<string>)
    requires words != []
    ensures MatchWords(s, words).Some? ==> words[0] <= s
    ensures words[0] <= s ==>
              var n := |words[0]| + Blanks(s[|words[0]|..]);
              if |words| == 1 then MatchWords(s, words) == if n < |s| && s[n] == '{' then Some(n + 1) else None
              else MatchWords(s, words) == if n == |words[0]| then None else Shift(n, MatchWords(s[n..], words[1..]))
  {
    hide Blanks;
  }

  lemma HeaderOne(words: seq<string>, b: string)
    requires |words| == 1 && All(Blank, b)
    ensures HeaderText(words[0] + b + "{", words)
  {
  }

  lemma HeaderCons(words: seq<string>, b: string, rest: string)
    requires |words| > 1 && All(Blank, b) && b != [] && HeaderText(rest, words[1..])
    ensures HeaderText(words[0] + b + rest, words)
  {
  }

  lemma {:induction false} MatchIsHeader(s: string, words: seq<string>, n: nat)
    requires words != [] && n <= |s| && MatchWords(s, words) == Some(n)
    ensures HeaderText(s[..n], words)
    decreases |words|
  {
    hide MatchWords, HeaderText, Blanks;
    UnfoldMatch(s, words);
    var w := words[0];
    var tail := s[|w|..];
    var m := |w| + Blanks(tail);
    var b := tail[..Blanks(tail)];
    BlanksAreBlank(tail);
    if |words| == 1 {
      HeaderOne(words, b);
      assert s[..n] == w + b + "{";
    } else {
      MatchIsHeader(s[m..], words[1..], n - m);
      HeaderCons(words, b, s[m..][..n - m]);
      assert s[..n] == w + b + s[m..][..n - m];
    }
  }

  lemma Splice(s: string, n: nat, w: string, b: string, rest: string)
    requires n <= |s| && s[..n] == w + b + rest
    ensures w <= s && s[|w|..] == b + (rest + s[n..]) && s[|w| + |b|..] == rest + s[n..]
    ensures n == |w| + |b| + |rest| && (rest + s[n..])[..|rest|] == rest
  {
    assert s == s[..n] + s[n..];
  }

  lemma {:induction false} HeaderIsMatch(s: string, words: seq<string>, n: nat)
    requires Words(words) && n <= |s| && HeaderText(s[..n], words)
    ensures MatchWords(s, words) == Some(n)
    decreases |words|
  {
    hide MatchWords, Blanks, HeaderText;
    UnfoldMatch(s, words);
    var w := words[0];
    var b, rest := HeaderParts(s[..n], words);
    Splice(s, n, w, b, rest);
    BlanksOf(b, rest + s[n..]);
    if |words| == 1 {
      assert s[|w| + |b|..][0] == '{';
    } else {
      HeaderIsMatch(s[|w| + |b|..], words[1..], |rest|);
    }
  }

  lemma HeaderParts(text: string, words: seq<string>) returns (b: string, rest: string)
    requires Words(words) && HeaderText(text, words)
    ensures All(Blank, b) && text == words[0] + b + rest && rest != [] && !Blank(rest[0])
    ensures if |words| == 1 then rest == "{" else b != [] && HeaderText(rest, words[1..])
  {
    if |words| == 1 {
      b :| All(Blank, b) && text == words[0] + b + "{";
      rest := "{";
    } else {
      b, rest :| All(Blank, b) && b != [] && HeaderText(rest, words[1..]) && text == words[0] + b + rest;
      HeaderStarts(rest, words[1..]);
    }
  }

  /** Matching greedily from the left finds exactly the headers of the pattern. */
  lemma MatchWordsExactly(s: string, words: seq<string>, n: nat)
    requires Words(words) && n <= |s|
    ensures MatchWords(s, words) == Some(n) <==> HeaderText(s[..n], words)
  {
    hide MatchWords, HeaderText;
    if MatchWords(s, words) == Some(n) {
      MatchIsHeader(s, words, n);
    }
    if HeaderText(s[..n], words) {
      HeaderIsMatch(s, words, n);
    }
  }

  /** The opening brace of a header that starts on the line beginning at `p`. */
  function HeaderAt(conf: string, words: seq<string>, p: nat): (r: Option<nat>)
    requires words != [] && p <= |conf|
    ensures r.Some? ==> p <= r.value < |conf| && conf[r.value] == '{'
  {
    if p > 0 && conf[p - 1] != '\n' then None
    else
      var q := p + Blanks(conf[p..]);
      var r := MatchWords(conf[q..], words);
      if r.None? then None else Some(q + r.value - 1)
  }

  function Headers(conf: string, words: seq<string>, p: nat): (r: seq<nat>)
    requires words != [] && p <= |conf|
    ensures forall i :: 0 <= i < |r| ==> r[i] < |conf| && conf[r[i]] == '{'
    decreases |conf| - p
  {
    var here := HeaderAt(conf, words, p);
    var rest := if p == |conf| then [] else Headers(conf, words, p + 1);
    (if here.Some? then [here.value] else []) + rest
  }

  datatype ExtractError = NotUnique(found: nat) | NotClosed

  /** Opening and closing brace of the block with the given header. */
  function FindBlock(conf: string, words: seq<string>): (r: Result<(nat, nat), ExtractError>)
    requires words != []
    ensures r.Ok? ==> r.value.0 < r.value.1 < |conf| && conf[r.value.0] == '{'
  {
    var headers := Headers(conf, words, 0);
    if |headers| != 1 then Err(NotUnique(|headers|))
    else
      var k := Close(Plain, 1, conf[headers[0] + 1..]);
      if k.None? then Err(NotClosed) else Ok((headers[0], headers[0] + 1 + k.value))
  }

  /**
  What the extractor returns is exactly the balanced text between the brace of the only header and its
  closing brace.
  */
  lemma ExtractsBalancedBody(conf: string, words: seq<string>, body: string)
    requires words != [] && |Headers(conf, words, 0)| == 1
    ensures var open := Headers(conf, words, 0)[0];
            (FindBlock(conf, words).Ok? && conf[open + 1..FindBlock(conf, words).value.1] == body)
            <==> IsBody(body) && body + "}" <= conf[open + 1..]
  {
    hide Close, Print, Balanced, Headers;
    var open := Headers(conf, words, 0)[0];
    var s := conf[open + 1..];
    var r := FindBlock(conf, words);
    if r.Ok? {
      var k := Close(Plain, 1, s).value;
      CloseExactly(s, k);
      assert conf[open + 1..r.value.1] == s[..k];
      assert s[..k] + "}" == s[..k + 1];
    }
    if IsBody(body) && body + "}" <= s {
      assert body == s[..|body|] && s[|body|] == (body + "}")[|body|] == '}';
      CloseExactly(s, |body|);
      assert Close(Plain, 1, s) == Some(|body|);
      assert conf[open + 1..r.value.1] == s[..|body|];
    }
  }

  /** The extractor, as the verifier runs it. */
  method ExtractUniqueBlock(configuration: string, words: seq<string>) returns (r: Result<string, ExtractError>)
    requires words != []
    ensures FindBlock(configuration, words).Err? ==> r == Err(FindBlock(configuration, words).error)
    ensures FindBlock(configuration, words).Ok? ==>
              var (open, close) := FindBlock(configuration, words).value; r == Ok(configuration[open + 1..close])
  {
    hide Close, Headers;
    var matches := Headers(configuration, words, 0);
    if |matches| != 1 {
      return Err(NotUnique(|matches|));
    }
    var openingBrace := matches[0];
    var depth := 0;
    var quote: Option<char> := None;
    var escaped := false;
    var inComment := false;
    ghost var s := configuration[openingBrace + 1..];
    for index := openingBrace to |configuration|
      invariant index == openingBrace ==> depth == 0 && quote.None? && !inComment
      invariant quote.None? ==> !escaped
      invariant inComment ==> quote.None?
      invariant index > openingBrace ==>
                Close(Plain, 1, s) ==
                Shift(index - openingBrace - 1,
                      Close(Reading(quote, escaped, inComment), depth, configuration[index..]))
      invariant index > openingBrace ==> depth >= 1
    {
      var character := configuration[index];
      assert configuration[index..] == [character] + configuration[index + 1..];
      UnfoldClose(Reading(quote, escaped, inComment), depth, character, configuration[index + 1..]);
      if inComment {
        if character == '\n' {
          inComment := false;
        }
      } else if quote.Some? {
        if escaped {
          escaped := false;
        } else if character == '\\' {
          escaped := true;
        } else if character == quote.value {
          quote := None;
        }
      } else if character == '#' {
        inComment := true;
      } else if character == '"' || character == '\'' {
        quote := Some(character);
      } else if character == '{' {
        depth := depth + 1;
      } else if character == '}' {
        depth := depth - 1;
        if depth == 0 {
          return Ok(configuration[openingBrace + 1..index]);
        }
      }
    }
    assert configuration[|configuration|..] == [];
    CloseNil(Reading(quote, escaped, inComment), depth);
    return Err(NotClosed);
  }

  /** The state that the extractor's variables stand for. */
  function Reading(quote: Option<char>, escaped: bool, inComment: bool): Lexical {
    if inComment then Comment else if quote.Some? then Quote(quote.value, escaped) else Plain
  }
}
