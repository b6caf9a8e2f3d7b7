/**
What the splitters take for quoted text, dollar-quoted text and comments, as a grammar of scripts rather
than as a scan (sections 4.1.1, 4.1.2.1, 4.1.2.4 and 4.1.5 of the PostgreSQL manual): the cuts are exactly
the semicolons among the bare characters.
*/
module SqlGrammar {
  import opened Text
  import opened SqlSplitter

  predicate Letter(c: char) {
    'a' <= c <= 'z' || 'A' <= c <= 'Z' || c == '_'
  }

  predicate Digit(c: char) {
    '0' <= c <= '9'
  }

  /** A tag is empty or an identifier. */
  predicate IsTag(tag: string) {
    tag != [] ==> Letter(tag[0]) && forall i :: 0 <= i < |tag| ==> Letter(tag[i]) || Digit(tag[i])
  }

  function Delimiter(tag: string): string {
    "$" + tag + "$"
  }

  /** `s` starts with quoted text or, where comments are known, with a comment. */
  ghost predicate Opens(d: Dialect, s: string) {
    || (s != [] && (s[0] == '\'' || s[0] == '"'))
    || (d.Runner? && ("--" <= s || "/*" <= s))
    || (exists tag :: IsTag(tag) && Delimiter(tag) <= s)
  }

  datatype Item = Character(c: char) | Doubled

  datatype Remark = RemarkEnd | RemarkChar(c: char, rest: Remark) | Nested(inner: Remark, rest: Remark)

  datatype Script =
    | Finish
    | Bare(c: char, rest: Script)
    | Quotation(mark: char, items: seq<Item>, rest: Script)
    | DollarQuotation(tag: string, body: string, rest: Script)
    | LineRemark(text: string, rest: Script)
    | BlockRemark(remark: Remark, rest: Script)

  function PrintItems(mark: char, items: seq<Item>): string {
    if items == [] then ""
    else (if items[0].Doubled? then [mark, mark] else [items[0].c]) + PrintItems(mark, items[1..])
  }

  function PrintRemark(r: Remark): string {
    match r
    case RemarkEnd => ""
    case RemarkChar(c, rest) => [c] + PrintRemark(rest)
    case Nested(inner, rest) => "/*" + (PrintRemark(inner) + "*/") + PrintRemark(rest)
  }

  /** The first token of a script. */
  function First(t: Script): string {
    match t
    case Finish => ""
    case Bare(c, _) => [c]
    case Quotation(mark, items, _) => [mark] + (PrintItems(mark, items) + [mark])
    case DollarQuotation(tag, body, _) => Delimiter(tag) + (body + Delimiter(tag))
    case LineRemark(text, _) => "--" + (text + "\n")
    case BlockRemark(remark, _) => "/*" + (PrintRemark(remark) + "*/")
  }

  function Print(t: Script): string {
    if t.Finish? then "" else First(t) + Print(t.rest)
  }

  /** No character of a block comment starts what opens or closes one. */
  predicate RemarkOk(r: Remark) {
    match r
    case RemarkEnd => true
    case RemarkChar(c, rest) =>
      var s := [c] + (PrintRemark(rest) + "*/");
      !("/*" <= s) && !("*/" <= s) && RemarkOk(rest)
    case Nested(inner, rest) => RemarkOk(inner) && RemarkOk(rest)
  }

  ghost predicate ItemsOk(mark: char, items: seq<Item>) {
    forall i :: 0 <= i < |items| && items[i].Character? ==> items[i].c != mark
  }

  /** The delimiter does not occur before the end of the body. */
  ghost predicate BodyOk(delimiter: string, body: string) {
    forall i: nat :: i < |body| ==> !OccursAt(body + delimiter, delimiter, i)
  }

  ghost predicate WellFormed(d: Dialect, t: Script) {
    match t
    case Finish => true
    case Bare(c, rest) => !Opens(d, [c] + Print(rest)) && WellFormed(d, rest)
    case Quotation(mark, items, rest) =>
      && (mark == '\'' || mark == '"') && ItemsOk(mark, items)
      && (Print(rest) != [] ==> Print(rest)[0] != mark) && WellFormed(d, rest)
    case DollarQuotation(tag, body, rest) => IsTag(tag) && BodyOk(Delimiter(tag), body) && WellFormed(d, rest)
    case LineRemark(text, rest) => d.Runner? && '\n' !in text && WellFormed(d, rest)
    case BlockRemark(remark, rest) => d.Runner? && RemarkOk(remark) && WellFormed(d, rest)
  }

  /** The pieces of a script between its bare semicolons. */
  function Cuts(t: Script): (r: seq<string>)
    ensures r != []
  {
    match t
    case Finish => [[]]
    case Bare(c, rest) => if c == ';' then [[]] + Cuts(rest) else Glue([c], Cuts(rest))
    case _ => Glue(First(t), Cuts(t.rest))
  }

  // ---------------------------------------------------------------------------------------------
  // Delimiters.

  lemma {:induction false} TagRunIs(u: string, rest: string)
    requires (forall i :: 0 <= i < |u| ==> TagBody(u[i])) && rest != [] && !TagBody(rest[0])
    ensures TagRun(u + rest) == |u|
  {
    if u == [] {
      assert u + rest == rest;
    } else {
      assert (u + rest)[0] == u[0] && (u + rest)[1..] == u[1..] + rest;
      TagRunIs(u[1..], rest);
    }
  }

  lemma TagIsFound(s: string, tag: string)
    requires IsTag(tag) && Delimiter(tag) <= s
    ensures TagLength(s) == |tag| + 2
  {
    var dl := Delimiter(tag);
    assert s == dl + s[|dl|..];
    assert s[0] == '$';
    if tag == [] {
      assert s[1] == dl[1] == '$';
    } else {
      var u, rest := tag[1..], "$" + s[|dl|..];
      assert s[1] == dl[1] == tag[0];
      assert s[2..] == u + rest;
      assert forall i :: 0 <= i < |u| ==> u[i] == tag[i + 1];
      TagRunIs(u, rest);
      assert s[|tag| + 1] == dl[|tag| + 1] == '$';
    }
  }

  lemma FoundIsTag(s: string)
    requires TagLength(s) > 0
    ensures var n := TagLength(s); IsTag(s[1..n - 1]) && Delimiter(s[1..n - 1]) == s[..n] <= s
  {
    var n := TagLength(s);
    var tag := s[1..n - 1];
    if n > 2 {
      var k := TagRun(s[2..]);
      assert forall i :: 0 <= i < k ==> s[2..][..k][i] == s[2 + i];
      assert forall i :: 0 < i < |tag| ==> tag[i] == s[2 + (i - 1)];
      assert tag[0] == s[1];
    }
    assert s[..n] == [s[0]] + tag + [s[n - 1]];
  }

  // ---------------------------------------------------------------------------------------------
  // Reading what a token prints.

  /** Reading `x` in mode `m` ends in mode `m'` without a cut, whatever comes behind it. */
  ghost predicate Over(d: Dialect, m: Mode, x: string, m': Mode, rest: string)
    requires m.Valid() && m'.Valid()
  {
    && Segments(d, m, x + rest) == Glue(x, Segments(d, m', rest))
    && EndMode(d, m, x + rest) == EndMode(d, m', rest)
  }

  lemma OverOne(d: Dialect, m: Mode, x: string, m': Mode, rest: string)
    requires m.Valid() && x != [] && !CutHere(m, x + rest) && Lex(d, m, x + rest) == Token(|x|, m')
    ensures m'.Valid() && Over(d, m, x, m', rest)
  {
    hide Lex, Segments, EndMode;
    Unfold(d, m, x + rest);
    assert (x + rest)[..|x|] == x && (x + rest)[|x|..] == rest;
  }

  lemma OverThen(d: Dialect, m: Mode, x: string, m': Mode, y: string, m'': Mode, rest: string)
    requires m.Valid() && m'.Valid() && m''.Valid()
    requires Over(d, m, x, m', y + rest) && Over(d, m', y, m'', rest)
    ensures Over(d, m, x + y, m'', rest)
  {
    hide Segments, EndMode;
    assert x + y + rest == x + (y + rest);
    GlueGlue(x, y, Segments(d, m'', rest));
  }

  lemma {:induction false} OverItems(d: Dialect, q: char, items: seq<Item>, rest: string)
    requires (q == '\'' || q == '"') && ItemsOk(q, items) && (rest != [] ==> rest[0] != q)
    ensures Over(d, Quoted(q), PrintItems(q, items) + [q], Plain, rest)
    decreases |items|
  {
    hide Segments, EndMode, Over;
    var m := Quoted(q);
    if items == [] {
      assert PrintItems(q, items) + [q] == [q];
      assert ([q] + rest)[0] == q && (rest != [] ==> ([q] + rest)[1] == rest[0]);
      OverOne(d, m, [q], Plain, rest);
    } else {
      var x := if items[0].Doubled? then [q, q] else [items[0].c];
      var y := PrintItems(q, items[1..]) + [q];
      OverItems(d, q, items[1..], rest);
      assert (x + (y + rest))[0] == x[0];
      if items[0].Doubled? {
        assert (x + (y + rest))[1] == q;
      }
      OverOne(d, m, x, m, y + rest);
      OverThen(d, m, x, m, y, Plain, rest);
      assert x + y == PrintItems(q, items) + [q];
    }
  }

  lemma TagMode(tag: string)
    requires IsTag(tag)
    ensures Mode.Dollar(Delimiter(tag)).Valid()
  {
    var dl := Delimiter(tag);
    forall i | 0 <= i < |dl| ensures TagChar(dl[i]) {
      if 0 < i < |dl| - 1 {
        assert dl[i] == tag[i - 1];
      }
    }
  }

  lemma {:induction false} OverBody(d: Dialect, dl: string, body: string, rest: string)
    requires Mode.Dollar(dl).Valid() && BodyOk(dl, body)
    ensures Over(d, Mode.Dollar(dl), body + dl, Plain, rest)
    decreases |body|
  {
    hide Segments, EndMode, Over;
    var m := Mode.Dollar(dl);
    if body == [] {
      assert body + dl == dl && dl <= dl + rest;
      OverOne(d, m, dl, Plain, rest);
    } else {
      var x, y := [body[0]], body[1..] + dl;
      assert body + dl == x + y;
      assert !OccursAt(body + dl, dl, 0);
      assert (x + (y + rest))[..|dl|] == (body + dl)[0..|dl|];
      BodyTail(dl, body);
      OverBody(d, dl, body[1..], rest);
      OverOne(d, m, x, m, y + rest);
      OverThen(d, m, x, m, y, Plain, rest);
    }
  }

  lemma BodyTail(dl: string, body: string)
    requires BodyOk(dl, body) && body != []
    ensures BodyOk(dl, body[1..])
  {
    forall i: nat | i < |body[1..]| ensures !OccursAt(body[1..] + dl, dl, i) {
      assert !OccursAt(body + dl, dl, i + 1);
      assert body[1..] + dl == (body + dl)[1..];
      assert i + |dl| <= |body[1..] + dl| ==> (body[1..] + dl)[i..i + |dl|] == (body + dl)[i + 1..i + 1 + |dl|];
    }
  }

  lemma {:induction false} OverLine(d: Dialect, text: string, rest: string)
    requires '\n' !in text
    ensures Over(d, LineComment, text + "\n", Plain, rest)
    decreases |text|
  {
    hide Segments, EndMode, Over;
    if text == [] {
      assert text + "\n" == "\n";
      OverOne(d, LineComment, "\n", Plain, rest);
    } else {
      var x, y := [text[0]], text[1..] + "\n";
      assert text + "\n" == x + y && text[0] in text;
      OverLine(d, text[1..], rest);
      OverOne(d, LineComment, x, LineComment, y + rest);
      OverThen(d, LineComment, x, LineComment, y, Plain, rest);
    }
  }

  /** The mode behind a block comment at depth k. */
  function Outside(k: nat): Mode
    requires k > 0
  {
    if k == 1 then Plain else BlockComment(k - 1)
  }

  lemma {:induction false} OverRemark(d: Dialect, k: nat, r: Remark, rest: string)
    requires k > 0 && RemarkOk(r)
    ensures Over(d, BlockComment(k), PrintRemark(r) + "*/", Outside(k), rest)
    decreases r
  {
    hide Segments, EndMode, Over;
    var m := BlockComment(k);
    match r
    case RemarkEnd =>
      assert PrintRemark(r) + "*/" == "*/";
      var s := "*/" + rest;
      assert s[..2] == "*/" && "*/" <= s;
      OtherStart("/*", s);
      OverOne(d, m, "*/", Outside(k), rest);
    case RemarkChar(c, r') =>
      var x, y := [c], PrintRemark(r') + "*/";
      assert PrintRemark(r) + "*/" == x + y;
      TwoAhead(c, y, rest);
      OverRemark(d, k, r', rest);
      OverOne(d, m, x, m, y + rest);
      OverThen(d, m, x, m, y, Outside(k), rest);
    case Nested(inner, r') =>
      var x, y, z := "/*", PrintRemark(inner) + "*/", PrintRemark(r') + "*/";
      var m1 := BlockComment(k + 1);
      assert PrintRemark(r) + "*/" == x + y + z;
      OverRemark(d, k + 1, inner, z + rest);
      OverRemark(d, k, r', rest);
      assert x <= x + (y + (z + rest));
      OverOne(d, m, x, m1, y + (z + rest));
      OverThen(d, m, x, m1, y, m, z + rest);
      OverThen(d, m, x + y, m, z, Outside(k), rest);
  }

  lemma OtherStart(p: string, s: string)
    requires p != [] && s != [] && p[0] != s[0]
    ensures !(p <= s)
  {
  }

  lemma TwoAhead(c: char, y: string, rest: string)
    requires y != []
    ensures "/*" <= [c] + (y + rest) <==> "/*" <= [c] + y
    ensures "*/" <= [c] + (y + rest) <==> "*/" <= [c] + y
  {
    var s, t := [c] + (y + rest), [c] + y;
    assert s[0] == t[0] && s[1] == t[1];
  }

  // ---------------------------------------------------------------------------------------------
  // Reading a script.

  lemma BareToken(d: Dialect, c: char, rest: string)
    requires !Opens(d, [c] + rest)
    ensures Lex(d, Plain, [c] + rest) == Token(1, Plain)
  {
    var s := [c] + rest;
    if TagLength(s) > 0 {
      FoundIsTag(s);
      assert false;
    }
  }

  /** A token other than a bare character is read to its end, whatever it holds, and cuts nothing. */
  lemma OverToken(d: Dialect, t: Script)
    requires WellFormed(d, t) && !t.Finish? && !t.Bare?
    ensures Over(d, Plain, First(t), Plain, Print(t.rest))
  {
    hide Segments, EndMode, Over, TagLength;
    var rest := Print(t.rest);
    match t
    case Quotation(q, items, _) =>
      var y := PrintItems(q, items) + [q];
      OverItems(d, q, items, rest);
      OpensQuote(d, q, y + rest);
      OverOne(d, Plain, [q], Quoted(q), y + rest);
      OverThen(d, Plain, [q], Quoted(q), y, Plain, rest);
    case DollarQuotation(tag, body, _) =>
      var dl := Delimiter(tag);
      TagMode(tag);
      OverBody(d, dl, body, rest);
      OpensDollar(d, tag, (body + dl) + rest);
      OverOne(d, Plain, dl, Mode.Dollar(dl), (body + dl) + rest);
      OverThen(d, Plain, dl, Mode.Dollar(dl), body + dl, Plain, rest);
    case LineRemark(text, _) =>
      OverLine(d, text, rest);
      assert "--" <= "--" + ((text + "\n") + rest);
      OverOne(d, Plain, "--", LineComment, (text + "\n") + rest);
      OverThen(d, Plain, "--", LineComment, text + "\n", Plain, rest);
    case BlockRemark(r, _) =>
      var y := PrintRemark(r) + "*/";
      OverRemark(d, 1, r, rest);
      var s := "/*" + (y + rest);
      assert s[..2] == "/*" && "/*" <= s;
      OtherStart("--", s);
      OverOne(d, Plain, "/*", BlockComment(1), y + rest);
      OverThen(d, Plain, "/*", BlockComment(1), y, Plain, rest);
  }

  lemma OpensQuote(d: Dialect, q: char, y: string)
    requires q == '\'' || q == '"'
    ensures Lex(d, Plain, [q] + y) == Token(1, Quoted(q))
  {
    assert ([q] + y)[0] == q;
  }

  lemma OpensDollar(d: Dialect, tag: string, y: string)
    requires IsTag(tag)
    ensures Lex(d, Plain, Delimiter(tag) + y) == Token(|Delimiter(tag)|, Mode.Dollar(Delimiter(tag)))
  {
    var dl := Delimiter(tag);
    var s := dl + y;
    assert s[0] == '$' && s[..|dl|] == dl && dl <= s;
    TagIsFound(s, tag);
  }

  /** The splitters cut a well-formed script exactly at its bare semicolons, and its end is in plain mode. */
  lemma {:induction false} ScriptCuts(d: Dialect, t: Script)
    requires WellFormed(d, t)
    ensures Segments(d, Plain, Print(t)) == Cuts(t) && EndMode(d, Plain, Print(t)) == Plain
    decreases t
  {
    hide Segments, EndMode, Lex, Opens;
    if t.Finish? {
      UnfoldNil(d, Plain);
    } else {
      var s, rest := Print(t), Print(t.rest);
      ScriptCuts(d, t.rest);
      if t.Bare? {
        BareToken(d, t.c, rest);
        Unfold(d, Plain, s);
        assert s[0] == t.c && s[1..] == rest && s[..1] == [t.c];
      } else {
        OverToken(d, t);
      }
    }
  }

  // ---------------------------------------------------------------------------------------------
  // Conversely, every text that ends in plain mode is a well-formed script.

  lemma Take(c: char, t: string, n: nat)
    requires n <= |t|
    ensures ([c] + t)[..n + 1] == [c] + t[..n] && ([c] + t)[n + 1..] == t[n..]
  {
  }

  lemma {:induction false} ParseItems(d: Dialect, q: char, s: string) returns (items: seq<Item>, n: nat)
    requires (q == '\'' || q == '"') && EndMode(d, Quoted(q), s) == Plain
    ensures n <= |s| && s[..n] == PrintItems(q, items) + [q] && ItemsOk(q, items)
    ensures (n < |s| ==> s[n] != q) && EndMode(d, Plain, s[n..]) == Plain
    decreases |s|
  {
    hide EndMode, Segments;
    UnfoldNil(d, Quoted(q));
    Unfold(d, Quoted(q), s);
    if s[0] != q {
      var items', n' := ParseItems(d, q, s[1..]);
      items, n := [Character(s[0])] + items', n' + 1;
      assert s == [s[0]] + s[1..] && items[1..] == items';
      Take(s[0], s[1..], n');
      assert [s[0]] + (PrintItems(q, items') + [q]) == PrintItems(q, items) + [q];
    } else if |s| > 1 && s[1] == q {
      var items', n' := ParseItems(d, q, s[2..]);
      items, n := [Doubled] + items', n' + 2;
      assert items[1..] == items' && s[..n] == [q, q] + s[2..][..n'] && s[n..] == s[2..][n'..];
      assert [q, q] + (PrintItems(q, items') + [q]) == PrintItems(q, items) + [q];
    } else {
      items, n := [], 1;
      assert s[..1] == [q];
    }
  }

  lemma {:induction false} ParseBody(d: Dialect, dl: string, s: string) returns (body: string)
    requires Mode.Dollar(dl).Valid() && EndMode(d, Mode.Dollar(dl), s) == Plain
    ensures body + dl <= s && BodyOk(dl, body) && EndMode(d, Plain, s[|body + dl|..]) == Plain
    decreases |s|
  {
    hide EndMode, Segments;
    var m := Mode.Dollar(dl);
    UnfoldNil(d, m);
    Unfold(d, m, s);
    if dl <= s {
      body := [];
      assert body + dl == dl;
    } else {
      var b := ParseBody(d, dl, s[1..]);
      body := [s[0]] + b;
      assert body + dl == [s[0]] + (b + dl) && s == [s[0]] + s[1..];
      Take(s[0], s[1..], |b + dl|);
      BodyCons(dl, s[0], b, s);
    }
  }

  lemma BodyCons(dl: string, c: char, b: string, s: string)
    requires BodyOk(dl, b) && !(dl <= s) && [c] + b + dl <= s
    ensures BodyOk(dl, [c] + b)
  {
    var t := [c] + b + dl;
    forall i: nat | i < |[c] + b| ensures !OccursAt(t, dl, i) {
      if i == 0 {
        assert t[0..|dl|] == s[..|dl|];
      } else {
        assert !OccursAt(b + dl, dl, i - 1);
        assert i + |dl| <= |t| ==> t[i..i + |dl|] == (b + dl)[i - 1..i - 1 + |dl|];
      }
    }
  }

  lemma {:induction false} ParseLine(d: Dialect, s: string) returns (text: string)
    requires EndMode(d, LineComment, s) == Plain
    ensures text + "\n" <= s && '\n' !in text && EndMode(d, Plain, s[|text| + 1..]) == Plain
    decreases |s|
  {
    hide EndMode, Segments;
    UnfoldNil(d, LineComment);
    Unfold(d, LineComment, s);
    if s[0] == '\n' {
      text := [];
      assert text + "\n" == "\n";
    } else {
      var t := ParseLine(d, s[1..]);
      text := [s[0]] + t;
      assert text + "\n" == [s[0]] + (t + "\n") && s == [s[0]] + s[1..];
      Take(s[0], s[1..], |t| + 1);
    }
  }

  /** Remarks from the inside out, each with what closes it. */
  function PrintRemarks(rs: seq<Remark>): string {
    if rs == [] then "" else PrintRemark(rs[0]) + "*/" + PrintRemarks(rs[1..])
  }

  ghost predicate RemarksOk(rs: seq<Remark>) {
    forall i :: 0 <= i < |rs| ==> RemarkOk(rs[i])
  }

  lemma {:induction false} ParseRemarks(d: Dialect, k: nat, s: string) returns (rs: seq<Remark>)
    requires k > 0 && EndMode(d, BlockComment(k), s) == Plain
    ensures |rs| == k && RemarksOk(rs) && PrintRemarks(rs) <= s
    ensures EndMode(d, Plain, s[|PrintRemarks(rs)|..]) == Plain
    decreases |s|
  {
    hide EndMode, Segments, PrintRemarks;
    UnfoldNil(d, BlockComment(k));
    Unfold(d, BlockComment(k), s);
    if "/*" <= s {
      var rs' := ParseRemarks(d, k + 1, s[2..]);
      rs := [Nested(rs'[0], rs'[1])] + rs'[2..];
      PrintNested(rs');
      assert s == "/*" + s[2..];
      assert s[|PrintRemarks(rs)|..] == s[2..][|PrintRemarks(rs')|..];
    } else if "*/" <= s {
      assert s == "*/" + s[2..];
      if k == 1 {
        rs := [RemarkEnd];
        PrintClosed([]);
        PrintNone();
        assert [RemarkEnd] + [] == rs && "*/" + "" == "*/";
      } else {
        var rs' := ParseRemarks(d, k - 1, s[2..]);
        rs := [RemarkEnd] + rs';
        PrintClosed(rs');
        assert s[|PrintRemarks(rs)|..] == s[2..][|PrintRemarks(rs')|..];
      }
    } else {
      var rs' := ParseRemarks(d, k, s[1..]);
      rs := [RemarkChar(s[0], rs'[0])] + rs'[1..];
      PrintChar(s[0], rs');
      assert s == [s[0]] + s[1..];
      CharIsOk(s, rs');
      assert s[|PrintRemarks(rs)|..] == s[1..][|PrintRemarks(rs')|..];
    }
  }

  lemma PrintNone()
    ensures PrintRemarks([]) == ""
  {
  }

  lemma PrintClosed(rs: seq<Remark>)
    ensures PrintRemarks([RemarkEnd] + rs) == "*/" + PrintRemarks(rs)
  {
    assert ([RemarkEnd] + rs)[1..] == rs;
  }

  lemma PrintChar(c: char, rs: seq<Remark>)
    requires rs != []
    ensures PrintRemarks([RemarkChar(c, rs[0])] + rs[1..]) == [c] + PrintRemarks(rs)
  {
    var xs := [RemarkChar(c, rs[0])] + rs[1..];
    assert xs[1..] == rs[1..];
    var a, b := PrintRemark(rs[0]), PrintRemarks(rs[1..]);
    assert [c] + a + "*/" + b == [c] + (a + "*/" + b);
  }

  lemma UnfoldRemarks(r: Remark, rs: seq<Remark>)
    ensures PrintRemarks([r] + rs) == PrintRemark(r) + "*/" + PrintRemarks(rs)
  {
    assert ([r] + rs)[1..] == rs;
  }

  lemma PrintNested(rs: seq<Remark>)
    requires |rs| >= 2
    ensures PrintRemarks([Nested(rs[0], rs[1])] + rs[2..]) == "/*" + PrintRemarks(rs)
  {
    hide PrintRemarks, PrintRemark;
    var r, r', rest := rs[0], rs[1], rs[2..];
    assert rs == [r] + ([r'] + rest);
    UnfoldRemarks(Nested(r, r'), rest);
    UnfoldNested(r, r');
    UnfoldRemarks(r', rest);
    UnfoldRemarks(r, [r'] + rest);
    Regroup("/*", PrintRemark(r), "*/", PrintRemark(r'), PrintRemarks(rest));
  }

  lemma UnfoldNested(r: Remark, r': Remark)
    ensures PrintRemark(Nested(r, r')) == "/*" + (PrintRemark(r) + "*/") + PrintRemark(r')
  {
  }

  lemma Regroup(o: string, a: string, e: string, b: string, c: string)
    ensures o + (a + e) + b + e + c == o + (a + e + (b + e + c))
  {
  }

  lemma CharIsOk(s: string, rs: seq<Remark>)
    requires rs != [] && RemarksOk(rs) && s != [] && PrintRemarks(rs) <= s[1..] && !("/*" <= s) && !("*/" <= s)
    ensures RemarksOk([RemarkChar(s[0], rs[0])] + rs[1..])
  {
    hide PrintRemarks, PrintRemark;
    var y := PrintRemark(rs[0]) + "*/";
    assert rs == [rs[0]] + rs[1..];
    UnfoldRemarks(rs[0], rs[1..]);
    Rejoin(s, y, PrintRemarks(rs[1..]));
    TwoAhead(s[0], y, s[1 + |y|..]);
    assert RemarkOk(rs[0]);
    forall i | 0 < i < |rs| ensures RemarkOk(([RemarkChar(s[0], rs[0])] + rs[1..])[i]) {
      assert ([RemarkChar(s[0], rs[0])] + rs[1..])[i] == rs[i];
    }
  }

  lemma Rejoin(s: string, y: string, z: string)
    requires s != [] && y + z <= s[1..]
    ensures 1 + |y| <= |s| && s == [s[0]] + (y + s[1 + |y|..])
  {
    assert s[1..][..|y|] == y;
    assert s == [s[0]] + s[1..] && s[1..] == s[1..][..|y|] + s[1 + |y|..];
  }

  /** Whatever well-formed script follows, the token `t` in front of it makes one. */
  ghost predicate Fits(d: Dialect, t: Script, s: string) {
    !t.Finish? && forall rest :: WellFormed(d, rest) && Print(rest) == s ==> WellFormed(d, t.(rest := rest))
  }

  lemma ParseQuotation(d: Dialect, s: string) returns (t: Script, n: nat)
    requires s != [] && EndMode(d, Plain, s) == Plain && (s[0] == '\'' || s[0] == '"')
    ensures 0 < n <= |s| && EndMode(d, Plain, s[n..]) == Plain && s[..n] == First(t) && Fits(d, t, s[n..])
  {
    hide EndMode, Segments, PrintItems;
    Unfold(d, Plain, s);
    NoComment(s);
    var items, k := ParseItems(d, s[0], s[1..]);
    t, n := Quotation(s[0], items, Finish), k + 1;
    assert s == [s[0]] + s[1..];
    Take(s[0], s[1..], k);
  }

  lemma ParseLineRemark(d: Dialect, s: string) returns (t: Script, n: nat)
    requires EndMode(d, Plain, s) == Plain && d.Runner? && "--" <= s
    ensures 0 < n <= |s| && EndMode(d, Plain, s[n..]) == Plain && s[..n] == First(t) && Fits(d, t, s[n..])
  {
    hide EndMode, Segments;
    Unfold(d, Plain, s);
    var text := ParseLine(d, s[2..]);
    t, n := LineRemark(text, Finish), |text| + 3;
    Prefixed("--", s, text + "\n");
  }

  /** A text `o` and then `y` at the start of `s`. */
  lemma Prefixed(o: string, s: string, y: string)
    requires o <= s && y <= s[|o|..]
    ensures |o| + |y| <= |s| && s[..|o| + |y|] == o + y && s[|o| + |y|..] == s[|o|..][|y|..]
  {
  }

  lemma ParseBlockRemark(d: Dialect, s: string) returns (t: Script, n: nat)
    requires EndMode(d, Plain, s) == Plain && d.Runner? && "/*" <= s
    ensures 0 < n <= |s| && EndMode(d, Plain, s[n..]) == Plain && s[..n] == First(t) && Fits(d, t, s[n..])
  {
    hide EndMode, Segments, PrintRemark, PrintRemarks;
    OtherStart("--", s);
    Unfold(d, Plain, s);
    var rs := ParseRemarks(d, 1, s[2..]);
    var y := PrintRemark(rs[0]) + "*/";
    PrintSingle(rs);
    t, n := BlockRemark(rs[0], Finish), |y| + 2;
    Prefixed("/*", s, y);
  }

  lemma ParseDollar(d: Dialect, s: string) returns (t: Script, n: nat)
    requires EndMode(d, Plain, s) == Plain && TagLength(s) > 0
    ensures 0 < n <= |s| && EndMode(d, Plain, s[n..]) == Plain && s[..n] == First(t) && Fits(d, t, s[n..])
  {
    hide EndMode, Segments;
    OtherStart("--", s);
    OtherStart("/*", s);
    Unfold(d, Plain, s);
    var k := TagLength(s);
    FoundIsTag(s);
    hide TagLength;
    var tag, dl := s[1..k - 1], s[..k];
    var body := ParseBody(d, dl, s[k..]);
    t, n := DollarQuotation(tag, body, Finish), k + |body + dl|;
    Prefixed(dl, s, body + dl);
  }

  lemma ParseBare(d: Dialect, s: string) returns (t: Script)
    requires s != [] && EndMode(d, Plain, s) == Plain && !Opens(d, s)
    ensures EndMode(d, Plain, s[1..]) == Plain && s[..1] == First(t) && Fits(d, t, s[1..])
  {
    hide EndMode, Segments, Lex, Opens;
    assert s == [s[0]] + s[1..];
    BareToken(d, s[0], s[1..]);
    Unfold(d, Plain, s);
    t := Bare(s[0], Finish);
  }

  /** The token at the start of a text that ends in plain mode. */
  lemma ParseToken(d: Dialect, s: string) returns (t: Script, n: nat)
    requires s != [] && EndMode(d, Plain, s) == Plain
    ensures 0 < n <= |s| && EndMode(d, Plain, s[n..]) == Plain && s[..n] == First(t) && Fits(d, t, s[n..])
  {
    hide EndMode, TagLength, Fits, First;
    if s[0] == '\'' || s[0] == '"' {
      t, n := ParseQuotation(d, s);
    } else if d.Runner? && "--" <= s {
      t, n := ParseLineRemark(d, s);
    } else if d.Runner? && "/*" <= s {
      t, n := ParseBlockRemark(d, s);
    } else if TagLength(s) > 0 {
      t, n := ParseDollar(d, s);
    } else {
      NoTag(s);
      t := ParseBare(d, s);
      n := 1;
    }
  }

  lemma NoComment(s: string)
    requires s != [] && (s[0] == '\'' || s[0] == '"')
    ensures !("--" <= s) && !("/*" <= s)
  {
    OtherStart("--", s);
    OtherStart("/*", s);
  }

  lemma NoTag(s: string)
    requires TagLength(s) == 0
    ensures !exists tag :: IsTag(tag) && Delimiter(tag) <= s
  {
    forall tag | IsTag(tag) ensures !(Delimiter(tag) <= s) {
      if Delimiter(tag) <= s {
        TagIsFound(s, tag);
      }
    }
  }

  lemma PrintSingle(rs: seq<Remark>)
    requires |rs| == 1
    ensures PrintRemarks(rs) == PrintRemark(rs[0]) + "*/"
  {
    PrintNone();
    assert rs[1..] == [];
  }

  lemma {:induction false} ParseScript(d: Dialect, s: string) returns (t: Script)
    requires EndMode(d, Plain, s) == Plain
    ensures WellFormed(d, t) && Print(t) == s
    decreases |s|
  {
    hide EndMode, WellFormed, Segments;
    if s == [] {
      t := Finish;
      FinishIsWellFormed(d);
    } else {
      var t', n := ParseToken(d, s);
      var rest := ParseScript(d, s[n..]);
      t := t'.(rest := rest);
      assert s == s[..n] + s[n..];
    }
  }

  lemma FinishIsWellFormed(d: Dialect)
    ensures WellFormed(d, Finish)
  {
  }

  /** A text ends outside quotes and comments if and only if it is a well-formed script. */
  lemma PlainExactly(d: Dialect, s: string)
    ensures EndMode(d, Plain, s) == Plain <==> exists t :: WellFormed(d, t) && Print(t) == s
  {
    hide EndMode, WellFormed, Print;
    if EndMode(d, Plain, s) == Plain {
      var t := ParseScript(d, s);
    }
    if t :| WellFormed(d, t) && Print(t) == s {
      ScriptCuts(d, t);
    }
  }
}
