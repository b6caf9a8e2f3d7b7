/**
The two SQL statement splitters: the one of the migration runner, which knows SQL comments, and the
one of the capability snapshot smoke, which does not. Both cut a script at the semicolons that are
outside quotes (and comments), trim the pieces and drop the empty ones.
*/
module SqlSplitter {
  import opened Text

  /** `Runner` recognises `--` and nested block comments; `Smoke` treats them as ordinary text. */
  datatype Dialect = Smoke | Runner

  datatype Mode = Plain | Quoted(quote: char) | Dollar(tag: string) | LineComment | BlockComment(depth: nat) {
    predicate Valid() {
      match this
      case Dollar(tag) => |tag| >= 2 && All(TagChar, tag)
      case Quoted(q) => q == '\'' || q == '"'
      case BlockComment(k) => k > 0
      case _ => true
    }
  }

  predicate TagStart(c: char) {
    'a' <= c <= 'z' || 'A' <= c <= 'Z' || c == '_'
  }

  predicate TagBody(c: char) {
    TagStart(c) || '0' <= c <= '9'
  }

  predicate TagChar(c: char) {
    c == '$' || TagBody(c)
  }

  function TagRun(s: string): (n: nat)
    ensures n <= |s| && All(TagBody, s[..n])
    ensures n < |s| ==> !TagBody(s[n])
  {
    if s != [] && TagBody(s[0]) then 1 + TagRun(s[1..]) else 0
  }

  /** Length of the dollar-quote delimiter at the start of `s`, 0 when there is none. */
  function TagLength(s: string): (n: nat)
    ensures n > 0 ==> 2 <= n <= |s| && All(TagChar, s[..n])
  {
    if |s| < 2 || s[0] != '$' then 0
    else if s[1] == '$' then 2
    else if !TagStart(s[1]) then 0
    else
      var n := 2 + TagRun(s[2..]);
      if n < |s| && s[n] == '$' then n + 1 else 0
  }

  datatype Token = Token(length: nat, next: Mode)

  /** The token at the start of `s` in mode `m`, and the mode after it. */
  function Lex(d: Dialect, m: Mode, s: string): (t: Token)
    requires m.Valid() && s != []
    ensures 0 < t.length <= |s| && t.next.Valid()
  {
    match m
    case Dollar(tag) =>
      if tag <= s then Token(|tag|, Plain) else Token(1, m)
    case Quoted(q) =>
      if s[0] != q then Token(1, m)
      else if |s| > 1 && s[1] == q then Token(2, m)
      else Token(1, Plain)
    case LineComment =>
      Token(1, if s[0] == '\n' then Plain else m)
    case BlockComment(k) =>
      if "/*" <= s then Token(2, BlockComment(k + 1))
      else if "*/" <= s then Token(2, if k == 1 then Plain else BlockComment(k - 1))
      else Token(1, m)
    case Plain =>
      if d.Runner? && "--" <= s then Token(2, LineComment)
      else if d.Runner? && "/*" <= s then Token(2, BlockComment(1))
      else if s[0] == '\'' || s[0] == '"' then Token(1, Quoted(s[0]))
      else if TagLength(s) > 0 then Token(TagLength(s), Dollar(s[..TagLength(s)]))
      else Token(1, Plain)
  }

  predicate CutHere(m: Mode, s: string) {
    m.Plain? && s != [] && s[0] == ';'
  }

  function Glue(prefix: string, segments: seq<string>): seq<string>
    requires segments != []
  {
    [prefix + segments[0]] + segments[1..]
  }

  lemma GlueGlue(a: string, b: string, segments: seq<string>)
    requires segments != []
    ensures Glue(a, Glue(b, segments)) == Glue(a + b, segments)
    ensures Glue([], segments) == segments
    ensures Glue(a, [[]] + segments) == [a] + segments
    ensures Glue(a, [[]]) == [a]
  {
    assert a + (b + segments[0]) == (a + b) + segments[0];
    assert [] + segments[0] == segments[0];
    assert a + [] == a;
  }

  lemma GlueSlices(s: string, start: nat, index: nat, n: nat, segments: seq<string>)
    requires start <= index && index + n <= |s| && segments != []
    ensures Glue(s[start..index], Glue(s[index..][..n], segments)) == Glue(s[start..index + n], segments)
  {
    assert s[start..index] + s[index..][..n] == s[start..index + n];
    GlueGlue(s[start..index], s[index..][..n], segments);
  }

  /** The raw pieces of `s` between the semicolons that the lexer reaches in plain mode. */
  function Segments(d: Dialect, m: Mode, s: string): (r: seq<string>)
    requires m.Valid()
    ensures r != []
    decreases |s|
  {
    if s == [] then [[]]
    else if CutHere(m, s) then [[]] + Segments(d, Plain, s[1..])
    else
      var t := Lex(d, m, s);
      Glue(s[..t.length], Segments(d, t.next, s[t.length..]))
  }

  /** The mode in which lexing `s` from mode `m` ends. */
  function EndMode(d: Dialect, m: Mode, s: string): (r: Mode)
    requires m.Valid()
    ensures r.Valid()
    decreases |s|
  {
    if s == [] then m
    else if CutHere(m, s) then EndMode(d, Plain, s[1..])
    else
      var t := Lex(d, m, s);
      EndMode(d, t.next, s[t.length..])
  }

  lemma UnfoldNil(d: Dialect, m: Mode)
    requires m.Valid()
    ensures Segments(d, m, []) == [[]] && EndMode(d, m, []) == m
  {
  }

  lemma Unfold(d: Dialect, m: Mode, s: string)
    requires m.Valid() && s != []
    ensures CutHere(m, s) ==> && Segments(d, m, s) == [[]] + Segments(d, Plain, s[1..])
                              && EndMode(d, m, s) == EndMode(d, Plain, s[1..])
    ensures !CutHere(m, s) ==> var t := Lex(d, m, s);
                               && Segments(d, m, s) == Glue(s[..t.length], Segments(d, t.next, s[t.length..]))
                               && EndMode(d, m, s) == EndMode(d, t.next, s[t.length..])
  {
    hide Lex;
  }

  /** What is pushed for a raw piece: its trimmed text, or nothing when that is empty. */
  function Kept(segment: string): seq<string> {
    var t := Trim(JsSpace, segment);
    if t == [] then [] else [t]
  }

  function Clean(segments: seq<string>): seq<string> {
    if segments == [] then [] else Kept(segments[0]) + Clean(segments[1..])
  }

  function Split(d: Dialect, s: string): seq<string> {
    Clean(Segments(d, Plain, s))
  }

  // ---------------------------------------------------------------------------------------------
  // The loops of the two scripts refine Split.

  function Flags(singleQuoted: bool, doubleQuoted: bool, dollarQuote: string): Mode {
    if dollarQuote != [] then Dollar(dollarQuote)
    else if singleQuoted then Quoted('\'')
    else if doubleQuoted then Quoted('"')
    else Plain
  }

  predicate Exclusive(singleQuoted: bool, doubleQuoted: bool, dollarQuote: string) {
    !(singleQuoted && doubleQuoted) && (dollarQuote != [] ==> !singleQuoted && !doubleQuoted)
  }

  /** The raw pieces that a scan at `index` in mode `m` has still to cut, when it last cut before `start`. */
  function Pieces(d: Dialect, sql: string, m: Mode, start: nat, index: nat): (r: seq<string>)
    requires m.Valid() && start <= index <= |sql|
    ensures r != []
    decreases |sql| - index
  {
    if index == |sql| then [sql[start..]]
    else if CutHere(m, sql[index..]) then [sql[start..index]] + Pieces(d, sql, Plain, index + 1, index + 1)
    else
      var t := Lex(d, m, sql[index..]);
      Pieces(d, sql, t.next, start, index + t.length)
  }

  lemma UnfoldLast(d: Dialect, sql: string, m: Mode, start: nat)
    requires m.Valid() && start <= |sql|
    ensures Pieces(d, sql, m, start, |sql|) == [sql[start..]]
  {
  }

  lemma UnfoldPieces(d: Dialect, sql: string, m: Mode, start: nat, index: nat)
    requires m.Valid() && start <= index < |sql|
    ensures CutHere(m, sql[index..]) ==>
              Pieces(d, sql, m, start, index) == [sql[start..index]] + Pieces(d, sql, Plain, index + 1, index + 1)
    ensures !CutHere(m, sql[index..]) ==>
              var t := Lex(d, m, sql[index..]);
              Pieces(d, sql, m, start, index) == Pieces(d, sql, t.next, start, index + t.length)
  {
    hide Lex;
  }

  /** Scanning in place by index cuts the segments of the recursive lexer. */
  lemma {:induction false} PiecesAreSegments(d: Dialect, sql: string, m: Mode, start: nat, index: nat)
    requires m.Valid() && start <= index <= |sql|
    ensures Pieces(d, sql, m, start, index) == Glue(sql[start..index], Segments(d, m, sql[index..]))
    decreases |sql| - index
  {
    hide Segments, Pieces, Lex, Glue;
    if index == |sql| {
      UnfoldLast(d, sql, m, start);
      assert sql[start..index] == sql[start..] && sql[index..] == [];
      UnfoldNil(d, m);
      GlueGlue(sql[start..], [], [[]]);
    } else {
      Unfold(d, m, sql[index..]);
      UnfoldPieces(d, sql, m, start, index);
      if CutHere(m, sql[index..]) {
        assert sql[index..][1..] == sql[index + 1..];
        PiecesAreSegments(d, sql, Plain, index + 1, index + 1);
        assert sql[index + 1..index + 1] == [];
        GlueGlue(sql[start..index], [], Segments(d, Plain, sql[index + 1..]));
      } else {
        var t := Lex(d, m, sql[index..]);
        assert sql[index..][t.length..] == sql[index + t.length..];
        PiecesAreSegments(d, sql, t.next, start, index + t.length);
        GlueSlices(sql, start, index, t.length, Segments(d, t.next, sql[index + t.length..]));
      }
    }
  }

  lemma PiecesOfWhole(d: Dialect, sql: string)
    ensures Clean(Pieces(d, sql, Plain, 0, 0)) == Split(d, sql)
  {
    PiecesAreSegments(d, sql, Plain, 0, 0);
    assert sql[0..] == sql && sql[0..0] == [];
    GlueGlue([], [], Segments(d, Plain, sql));
  }

  /** Cutting at a semicolon moves one piece from what is still to come to what has been pushed. */
  lemma PushPiece(d: Dialect, sql: string, start: nat, index: nat, pushed: seq<string>)
    requires start <= index < |sql| && sql[index] == ';'
    ensures pushed + Clean(Pieces(d, sql, Plain, start, index))
            == (pushed + Kept(sql[start..index])) + Clean(Pieces(d, sql, Plain, index + 1, index + 1))
  {
    var rest := Pieces(d, sql, Plain, index + 1, index + 1);
    assert Clean([sql[start..index]] + rest) == Kept(sql[start..index]) + Clean(rest);
  }

  lemma PushLast(d: Dialect, sql: string, m: Mode, start: nat)
    requires m.Valid() && start <= |sql|
    ensures Clean(Pieces(d, sql, m, start, |sql|)) == Kept(sql[start..])
  {
    UnfoldLast(d, sql, m, start);
  }

  method PushTrimmed(statements: seq<string>, raw: string) returns (r: seq<string>)
    ensures r == statements + Kept(raw)
  {
    var statement := Trim(JsSpace, raw);
    r := if statement != [] then statements + [statement] else statements;
  }

  /** One pass through the loop body of the smoke's splitter: where it goes on, and with which flags. */
  method ScanSmoke(sql: string, index: nat, singleQuoted: bool, doubleQuoted: bool, dollarQuote: string)
    returns (cut: bool, index': nat, singleQuoted': bool, doubleQuoted': bool, dollarQuote': string)
    requires index < |sql| && Flags(singleQuoted, doubleQuoted, dollarQuote).Valid()
    requires Exclusive(singleQuoted, doubleQuoted, dollarQuote)
    ensures Exclusive(singleQuoted', doubleQuoted', dollarQuote')
    ensures var m := Flags(singleQuoted, doubleQuoted, dollarQuote);
            && index < index' <= |sql|
            && cut == CutHere(m, sql[index..])
            && Token(index' - index, Flags(singleQuoted', doubleQuoted', dollarQuote'))
               == if cut then Token(1, Plain) else Lex(Smoke, m, sql[index..])
  {
    var character := sql[index];
    cut, index' := false, index;
    singleQuoted', doubleQuoted', dollarQuote' := singleQuoted, doubleQuoted, dollarQuote;
    if dollarQuote != [] {
      if dollarQuote <= sql[index..] {
        index' := index + |dollarQuote| - 1;
        dollarQuote' := "";
      }
    } else if singleQuoted {
      if character == '\'' && index + 1 < |sql| && sql[index + 1] == '\'' {
        index' := index + 1;
      } else if character == '\'' {
        singleQuoted' := false;
      }
    } else if doubleQuoted {
      if character == '"' && index + 1 < |sql| && sql[index + 1] == '"' {
        index' := index + 1;
      } else if character == '"' {
        doubleQuoted' := false;
      }
    } else if character == '\'' {
      singleQuoted' := true;
    } else if character == '"' {
      doubleQuoted' := true;
    } else if TagLength(sql[index..]) > 0 {
      dollarQuote' := sql[index..][..TagLength(sql[index..])];
      index' := index + |dollarQuote'| - 1;
    } else if character == ';' {
      cut := true;
    }
    index' := index' + 1;
  }

  /** The splitter of the capability snapshot smoke. */
  method SplitSmoke(sql: string) returns (statements: seq<string>)
    ensures statements == Split(Smoke, sql)
  {
    hide Pieces, Clean, Lex, Kept, Segments;
    statements := [];
    var start: nat, index: nat := 0, 0;
    var singleQuoted, doubleQuoted, dollarQuote := false, false, "";
    PiecesOfWhole(Smoke, sql);
    ghost var m, left := Plain, Split(Smoke, sql);
    while index < |sql|
      invariant start <= index <= |sql| && Exclusive(singleQuoted, doubleQuoted, dollarQuote)
      invariant m.Valid() && m == Flags(singleQuoted, doubleQuoted, dollarQuote)
      invariant left == Clean(Pieces(Smoke, sql, m, start, index))
      invariant Split(Smoke, sql) == statements + left
      decreases |sql| - index
    {
      var from := index;
      var cut;
      cut, index, singleQuoted, doubleQuoted, dollarQuote :=
        ScanSmoke(sql, index, singleQuoted, doubleQuoted, dollarQuote);
      ghost var next := Flags(singleQuoted, doubleQuoted, dollarQuote);
      if cut {
        PushPiece(Smoke, sql, start, from, statements);
        statements := PushTrimmed(statements, sql[start..from]);
        start := index;
        left := Clean(Pieces(Smoke, sql, Plain, start, index));
      } else {
        UnfoldPieces(Smoke, sql, m, start, from);
      }
      m := next;
    }
    PushLast(Smoke, sql, m, start);
    statements := PushTrimmed(statements, sql[start..]);
  }

  /** The mode that the migration runner's variables stand for. */
  function RunnerMode(quote: string, dollarQuote: string, lineComment: bool, blockCommentDepth: nat): Mode {
    if lineComment then LineComment
    else if blockCommentDepth > 0 then BlockComment(blockCommentDepth)
    else if dollarQuote != [] then Dollar(dollarQuote)
    else if quote != [] then Quoted(quote[0])
    else Plain
  }

  /** At most one of the runner's variables is set. */
  predicate RunnerState(quote: string, dollarQuote: string, lineComment: bool, blockCommentDepth: nat) {
    && (lineComment ==> blockCommentDepth == 0)
    && (lineComment || blockCommentDepth > 0 ==> dollarQuote == [])
    && (lineComment || blockCommentDepth > 0 || dollarQuote != [] ==> quote == [])
    && |quote| <= 1
  }

  /** One pass through the loop body of the migration runner's splitter. */
  method ScanRunner(sql: string, index: nat, quote: string, dollarQuote: string, lineComment: bool,
      blockCommentDepth: nat)
    returns (cut: bool, index': nat, quote': string, dollarQuote': string, lineComment': bool, blockCommentDepth': nat)
    requires index < |sql| && RunnerMode(quote, dollarQuote, lineComment, blockCommentDepth).Valid()
    requires RunnerState(quote, dollarQuote, lineComment, blockCommentDepth)
    ensures RunnerState(quote', dollarQuote', lineComment', blockCommentDepth')
    ensures var m := RunnerMode(quote, dollarQuote, lineComment, blockCommentDepth);
            && index < index' <= |sql|
            && cut == CutHere(m, sql[index..])
            && Token(index' - index, RunnerMode(quote', dollarQuote', lineComment', blockCommentDepth'))
               == if cut then Token(1, Plain) else Lex(Runner, m, sql[index..])
  {
    cut, index' := false, index + 1;
    quote', dollarQuote', lineComment', blockCommentDepth' := quote, dollarQuote, lineComment, blockCommentDepth;
    if lineComment {
      if sql[index] == '\n' {
        lineComment' := false;
      }
    } else if blockCommentDepth > 0 {
      if "/*" <= sql[index..] {
        blockCommentDepth' := blockCommentDepth + 1;
        index' := index + 2;
      } else if "*/" <= sql[index..] {
        blockCommentDepth' := blockCommentDepth - 1;
        index' := index + 2;
      }
    } else if dollarQuote != [] {
      if dollarQuote <= sql[index..] {
        index' := index + |dollarQuote|;
        dollarQuote' := "";
      }
    } else if quote != [] {
      if sql[index] == quote[0] {
        if index + 1 < |sql| && sql[index + 1] == quote[0] {
          index' := index + 2;
        } else {
          quote' := "";
        }
      }
    } else if "--" <= sql[index..] {
      lineComment' := true;
      index' := index + 2;
    } else if "/*" <= sql[index..] {
      blockCommentDepth' := 1;
      index' := index + 2;
    } else if sql[index] == '\'' || sql[index] == '"' {
      quote' := [sql[index]];
    } else if TagLength(sql[index..]) > 0 {
      dollarQuote' := sql[index..][..TagLength(sql[index..])];
      index' := index + |dollarQuote'|;
    } else if sql[index] == ';' {
      cut := true;
    }
  }

  /** The splitter of the migration runner. */
  method SplitRunner(sql: string) returns (statements: seq<string>)
    ensures statements == Split(Runner, sql)
  {
    hide Pieces, Clean, Lex, Kept, Segments;
    statements := [];
    var start: nat, index: nat := 0, 0;
    var quote, dollarQuote, lineComment, blockCommentDepth: nat := "", "", false, 0;
    PiecesOfWhole(Runner, sql);
    ghost var m, left := Plain, Split(Runner, sql);
    while index < |sql|
      invariant start <= index <= |sql| && RunnerState(quote, dollarQuote, lineComment, blockCommentDepth)
      invariant m.Valid() && m == RunnerMode(quote, dollarQuote, lineComment, blockCommentDepth)
      invariant left == Clean(Pieces(Runner, sql, m, start, index))
      invariant Split(Runner, sql) == statements + left
      decreases |sql| - index
    {
      var from := index;
      var cut;
      cut, index, quote, dollarQuote, lineComment, blockCommentDepth :=
        ScanRunner(sql, index, quote, dollarQuote, lineComment, blockCommentDepth);
      ghost var next := RunnerMode(quote, dollarQuote, lineComment, blockCommentDepth);
      if cut {
        PushPiece(Runner, sql, start, from, statements);
        statements := PushTrimmed(statements, sql[start..from]);
        start := index;
        left := Clean(Pieces(Runner, sql, Plain, start, index));
      } else {
        UnfoldPieces(Runner, sql, m, start, from);
      }
      m := next;
    }
    PushLast(Runner, sql, m, start);
    statements := PushTrimmed(statements, sql[start..]);
  }
}
