/** A script read as plain characters, quotes, comments and semicolons, and what splitting makes of it. */
module SqlScripts {
  import opened SqlSplit

  /** What a script is made of, each with its delimiters. */
  datatype Token =
    | Char(c: char)
    | Quoted(quote: char, body: string)
    | Semicolon
    | Line(body: string)
    | Block(body: string)

  /** How a script ends: between tokens, or inside one that is never closed. */
  datatype Tail =
    | Closed
    | OpenQuote(quote: char, body: string)
    | OpenLine(body: string)
    | OpenBlock(body: string)

  function Text(t: Token): string {
    match t
    case Char(c) => [c]
    case Quoted(q, body) => [q] + (body + [q])
    case Semicolon => ";"
    case Line(body) => "--" + (body + "\n")
    case Block(body) => "/*" + (body + "*/")
  }

  function TailText(tail: Tail): string {
    match tail
    case Closed => ""
    case OpenQuote(q, body) => [q] + body
    case OpenLine(body) => "--" + body
    case OpenBlock(body) => "/*" + body
  }

  function Written(ts: seq<Token>): string {
    if ts == [] then "" else Text(ts[0]) + Written(ts[1..])
  }

  predicate IsQuote(c: char) {
    c == '\'' || c == '"'
  }

  predicate NoClose(body: string) {
    forall i :: 0 <= i < |body| - 1 ==> body[i] != '*' || body[i + 1] != '/'
  }

  /** A line comment has no newline inside, a block comment no end, a quote none of its own kind. */
  predicate TokenOk(t: Token) {
    match t
    case Char(c) => !IsQuote(c) && c != ';'
    case Quoted(q, body) => IsQuote(q) && q !in body
    case Semicolon => true
    case Line(body) => '\n' !in body
    case Block(body) => NoClose(body)
  }

  predicate TailOk(tail: Tail) {
    match tail
    case Closed => true
    case OpenQuote(q, body) => IsQuote(q) && q !in body
    case OpenLine(body) => '\n' !in body
    case OpenBlock(body) => NoClose(body)
  }

  /** The character would open a comment with what follows it. */
  predicate Glues(c: char, rest: string) {
    rest != "" && ((c == '-' && rest[0] == '-') || (c == '/' && rest[0] == '*'))
  }

  /** The tokens, followed by `rest`, are read back as these tokens. */
  predicate Reads(ts: seq<Token>, rest: string) {
    ts == [] || (TokenOk(ts[0]) && (ts[0].Char? ==> !Glues(ts[0].c, Written(ts[1..]) + rest)) && Reads(ts[1..], rest))
  }

  predicate IsReading(ts: seq<Token>, tail: Tail, sql: string) {
    sql == Written(ts) + TailText(tail) && Reads(ts, TailText(tail)) && TailOk(tail)
  }

  // ----- what is kept

  /** A line comment leaves its newline, a block comment nothing. */
  function Kept(t: Token): string {
    match t
    case Line(_) => "\n"
    case Block(_) => ""
    case _ => Text(t)
  }

  function KeptTail(tail: Tail): string {
    if tail.OpenQuote? then TailText(tail) else ""
  }

  /** The statements: what is kept between semicolons, trimmed, empty ones left out. */
  function Statements(current: string, ts: seq<Token>, tail: Tail): seq<string>
    decreases |ts|
  {
    if ts == [] then Emit(current + KeptTail(tail))
    else if ts[0].Semicolon? then Emit(current) + Statements("", ts[1..], tail)
    else Statements(current + Kept(ts[0]), ts[1..], tail)
  }

  // ----- inside quotes and comments

  lemma {:induction false} InLine(st: State, body: string, rest: string)
    requires st.mode.LineComment? && '\n' !in body
    ensures Scan(st, body) == st
    ensures Scan(st, body + "\n" + rest) == Scan(State(Outside, st.current + "\n", st.out), rest)
    decreases |body|
  {
    if body == "" {
      assert (body + "\n" + rest)[1..] == rest;
    } else {
      assert (body + "\n" + rest)[1..] == body[1..] + "\n" + rest;
      InLine(st, body[1..], rest);
    }
  }

  lemma {:induction false} InBlock(st: State, body: string, rest: string)
    requires st.mode.BlockComment? && NoClose(body)
    ensures Scan(st, body) == st
    ensures Scan(st, body + "*/" + rest) == Scan(st.(mode := Outside), rest)
    decreases |body|
  {
    var s := body + "*/" + rest;
    if body == "" {
      assert s[2..] == rest;
    } else {
      assert s[1..] == body[1..] + "*/" + rest;
      assert !StartsWith(s, '*', '/') && !StartsWith(body, '*', '/');
      forall i | 0 <= i < |body[1..]| - 1 ensures body[1..][i] != '*' || body[1..][i + 1] != '/' {
        assert body[i + 1] != '*' || body[i + 1 + 1] != '/';
      }
      InBlock(st, body[1..], rest);
    }
  }

  function QuoteMode(q: char): Mode {
    if q == '"' then DoubleQuote else SingleQuote
  }

  /** A quote closes; one of the same kind right after it comes to the same. */
  lemma QuoteCloses(st: State, q: char, rest: string)
    requires IsQuote(q) && st.mode == QuoteMode(q)
    ensures Scan(st, [q] + rest) == Scan(State(Outside, st.current + [q], st.out), rest)
  {
    var s := [q] + rest;
    assert s[1..] == rest;
    if StartsWith(s, '\'', '\'') && q == '\'' {
      assert s[..2] == [q] + [q] && s[2..] == rest[1..];
      assert st.current + ([q] + [q]) == st.current + [q] + [q];
    }
  }

  lemma ConcatOne(a: string, c: char, b: string)
    ensures a + [c] + b == a + ([c] + b)
  {
  }

  /** One more character inside a quote. */
  lemma QuoteStep(st: State, q: char, c: char, rest: string)
    requires IsQuote(q) && st.mode == QuoteMode(q) && c != q
    ensures Scan(st, [c] + rest) == Scan(st.(current := st.current + [c]), rest)
  {
    assert ([c] + rest)[1..] == rest;
  }

  lemma {:induction false} InQuote(st: State, q: char, body: string, rest: string)
    requires IsQuote(q) && st.mode == QuoteMode(q) && q !in body
    ensures Scan(st, body + rest) == Scan(st.(current := st.current + body), rest)
    decreases |body|
  {
    if body == "" {
      assert st.current + body == st.current && body + rest == rest;
    } else {
      assert body == [body[0]] + body[1..];
      assert body + rest == [body[0]] + (body[1..] + rest);
      QuoteStep(st, q, body[0], body[1..] + rest);
      InQuote(st.(current := st.current + [body[0]]), q, body[1..], rest);
      ConcatOne(st.current, body[0], body[1..]);
    }
  }

  // ----- token by token

  /** The scanner's state once a token has been read. */
  function After(st: State, t: Token): State {
    if t.Semicolon? then State(Outside, "", st.out + Emit(st.current)) else st.(current := st.current + Kept(t))
  }

  lemma OpenQuoteScanned(st: State, q: char, body: string, rest: string)
    requires st.mode.Outside? && IsQuote(q) && q !in body
    ensures Scan(st, [q] + body + rest) == Scan(State(QuoteMode(q), st.current + ([q] + body), st.out), rest)
  {
    var inside := State(QuoteMode(q), st.current + [q], st.out);
    assert ([q] + body + rest)[1..] == body + rest;
    InQuote(inside, q, body, rest);
    ConcatOne(st.current, q, body);
  }

  lemma ScanQuoted(st: State, q: char, body: string, rest: string)
    requires st.mode.Outside? && TokenOk(Quoted(q, body))
    ensures Scan(st, Text(Quoted(q, body)) + rest) == Scan(After(st, Quoted(q, body)), rest)
  {
    OpenQuoteScanned(st, q, body, [q] + rest);
    QuoteCloses(State(QuoteMode(q), st.current + ([q] + body), st.out), q, rest);
    assert Text(Quoted(q, body)) + rest == [q] + body + ([q] + rest);
    assert st.current + ([q] + body) + [q] == st.current + Text(Quoted(q, body));
  }

  lemma ScanComment(st: State, body: string, rest: string)
    requires st.mode.Outside?
    ensures '\n' !in body ==> Scan(st, "--" + (body + "\n") + rest) == Scan(st.(current := st.current + "\n"), rest)
    ensures '\n' !in body ==> Scan(st, "--" + body) == st.(mode := LineComment)
    ensures NoClose(body) ==> Scan(st, "/*" + (body + "*/") + rest) == Scan(st, rest)
    ensures NoClose(body) ==> Scan(st, "/*" + body) == st.(mode := BlockComment)
  {
    if '\n' !in body {
      assert ("--" + (body + "\n") + rest)[2..] == body + "\n" + rest && ("--" + body)[2..] == body;
      InLine(st.(mode := LineComment), body, rest);
    }
    if NoClose(body) {
      assert ("/*" + (body + "*/") + rest)[2..] == body + "*/" + rest && ("/*" + body)[2..] == body;
      InBlock(st.(mode := BlockComment), body, rest);
    }
  }

  lemma ScanToken(st: State, t: Token, rest: string)
    requires st.mode.Outside? && TokenOk(t) && (t.Char? ==> !Glues(t.c, rest))
    ensures Scan(st, Text(t) + rest) == Scan(After(st, t), rest)
  {
    match t {
      case Char(c) =>
        assert (Text(t) + rest)[1..] == rest;
      case Quoted(q, body) =>
        ScanQuoted(st, q, body, rest);
      case Semicolon =>
        assert (Text(t) + rest)[1..] == rest;
      case Line(body) =>
        ScanComment(st, body, rest);
      case Block(body) =>
        ScanComment(st, body, rest);
        assert st.current + "" == st.current;
    }
  }

  function AfterAll(st: State, ts: seq<Token>): State
    decreases |ts|
  {
    if ts == [] then st else AfterAll(After(st, ts[0]), ts[1..])
  }

  lemma {:induction false} ScanTokens(st: State, ts: seq<Token>, rest: string)
    requires st.mode.Outside? && Reads(ts, rest)
    ensures AfterAll(st, ts).mode.Outside? && Scan(st, Written(ts) + rest) == Scan(AfterAll(st, ts), rest)
    decreases |ts|
  {
    if ts == [] {
      assert Written(ts) + rest == rest;
    } else {
      assert Written(ts) + rest == Text(ts[0]) + (Written(ts[1..]) + rest);
      ScanToken(st, ts[0], Written(ts[1..]) + rest);
      ScanTokens(After(st, ts[0]), ts[1..], rest);
    }
  }

  lemma ScanTail(st: State, tail: Tail)
    requires st.mode.Outside? && TailOk(tail)
    ensures var end := Scan(st, TailText(tail));
            && end.current == st.current + KeptTail(tail) && end.out == st.out
            && (end.mode.Outside? <==> tail.Closed?)
  {
    match tail {
      case Closed =>
        assert st.current + "" == st.current;
      case OpenQuote(q, body) =>
        OpenQuoteScanned(st, q, body, "");
        assert [q] + body + "" == [q] + body;
      case OpenLine(body) =>
        ScanComment(st, body, "");
        assert st.current + "" == st.current;
      case OpenBlock(body) =>
        ScanComment(st, body, "");
        assert st.current + "" == st.current;
    }
  }

  lemma {:induction false} FinishAll(st: State, ts: seq<Token>, tail: Tail)
    ensures var end := AfterAll(st, ts);
            end.out + Emit(end.current + KeptTail(tail)) == st.out + Statements(st.current, ts, tail)
    decreases |ts|
  {
    if ts != [] {
      FinishAll(After(st, ts[0]), ts[1..], tail);
      if ts[0].Semicolon? {
        var more := Statements("", ts[1..], tail);
        assert st.out + Emit(st.current) + more == st.out + (Emit(st.current) + more);
      }
    }
  }

  /** However a script is put together, splitting gives its statements: comments are gone but for the
      newline of a line comment, quotes are kept whole, and semicolons separate only outside both. */
  lemma SplitExact(ts: seq<Token>, tail: Tail, sql: string)
    requires IsReading(ts, tail, sql)
    ensures Split(sql) == Statements("", ts, tail) && (EndsOutside(sql) <==> tail.Closed?)
  {
    ScanTokens(START, ts, TailText(tail));
    ScanTail(AfterAll(START, ts), tail);
    FinishAll(START, ts, tail);
    assert [] + Statements("", ts, tail) == Statements("", ts, tail);
  }

  // ----- every script can be read

  /** The first place where `mark` stands. */
  lemma {:induction false} FirstChar(s: string, mark: char) returns (i: nat)
    ensures i <= |s| && mark !in s[..i] && (i < |s| ==> s[i] == mark)
    decreases |s|
  {
    if s == "" || s[0] == mark {
      i := 0;
    } else {
      var j := FirstChar(s[1..], mark);
      i := j + 1;
      assert s[..i] == [s[0]] + s[1..][..j];
    }
  }

  lemma {:induction false} FirstClose(s: string) returns (i: nat)
    ensures i <= |s| && NoClose(s[..i])
    ensures i < |s| ==> i + 1 < |s| && s[i] == '*' && s[i + 1] == '/'
    decreases |s|
  {
    if s == "" || StartsWith(s, '*', '/') {
      i := 0;
    } else {
      var j := FirstClose(s[1..]);
      i := j + 1;
      forall k | 0 <= k < i - 1 ensures s[..i][k] != '*' || s[..i][k + 1] != '/' {
        if k > 0 {
          assert s[1..][..j][k - 1] == s[k] && s[1..][..j][k] == s[k + 1];
        }
      }
    }
  }

  /** The script opens with this token, or, if `n` is 0, is inside this tail to its end. */
  ghost predicate OpensWith(sql: string, t: Token, n: nat, tail: Tail) {
    if n > 0 then n <= |sql| && TokenOk(t) && sql == Text(t) + sql[n..] && (t.Char? ==> !Glues(t.c, sql[n..]))
    else TailOk(tail) && sql == TailText(tail)
  }

  lemma FirstLine(sql: string) returns (t: Token, n: nat, tail: Tail)
    requires StartsWith(sql, '-', '-')
    ensures OpensWith(sql, t, n, tail)
  {
    var i := FirstChar(sql[2..], '\n');
    var body := sql[2..][..i];
    t, n, tail := Line(body), if i + 2 < |sql| then i + 3 else 0, OpenLine(body);
    assert sql == "--" + body + sql[i + 2..];
  }

  lemma FirstBlock(sql: string) returns (t: Token, n: nat, tail: Tail)
    requires StartsWith(sql, '/', '*')
    ensures OpensWith(sql, t, n, tail)
  {
    var i := FirstClose(sql[2..]);
    var body := sql[2..][..i];
    t, n, tail := Block(body), if i + 2 < |sql| then i + 4 else 0, OpenBlock(body);
    assert sql == "/*" + body + sql[i + 2..];
  }

  lemma FirstQuote(sql: string) returns (t: Token, n: nat, tail: Tail)
    requires sql != "" && IsQuote(sql[0])
    ensures OpensWith(sql, t, n, tail)
  {
    var i := FirstChar(sql[1..], sql[0]);
    var body := sql[1..][..i];
    t, n, tail := Quoted(sql[0], body), if i + 1 < |sql| then i + 2 else 0, OpenQuote(sql[0], body);
    assert sql == [sql[0]] + body + sql[i + 1..];
  }

  /** The first token of a script, if it is closed. */
  lemma FirstToken(sql: string) returns (t: Token, n: nat, tail: Tail)
    requires sql != ""
    ensures OpensWith(sql, t, n, tail)
  {
    if StartsWith(sql, '-', '-') {
      t, n, tail := FirstLine(sql);
    } else if StartsWith(sql, '/', '*') {
      t, n, tail := FirstBlock(sql);
    } else if IsQuote(sql[0]) {
      t, n, tail := FirstQuote(sql);
    } else {
      t, n, tail := if sql[0] == ';' then Semicolon else Char(sql[0]), 1, Closed;
    }
  }

  lemma ReadingCons(t: Token, n: nat, ts: seq<Token>, tail: Tail, sql: string)
    requires n <= |sql| && TokenOk(t) && sql == Text(t) + sql[n..] && (t.Char? ==> !Glues(t.c, sql[n..]))
    requires IsReading(ts, tail, sql[n..])
    ensures IsReading([t] + ts, tail, sql)
  {
    var all := [t] + ts;
    assert all[1..] == ts;
    assert Written(all) + TailText(tail) == Text(t) + (Written(ts) + TailText(tail));
  }

  /** Every script, well-formed or not, is made of tokens and a tail. */
  lemma {:induction false} EveryScriptReads(sql: string) returns (ts: seq<Token>, tail: Tail)
    ensures IsReading(ts, tail, sql)
    decreases |sql|
  {
    if sql == "" {
      return [], Closed;
    }
    var t, n, open := FirstToken(sql);
    if n == 0 {
      return [], open;
    }
    var rest, end := EveryScriptReads(sql[n..]);
    ReadingCons(t, n, rest, end, sql);
    return [t] + rest, end;
  }

  // ----- comments

  predicate EndsWith(a: string, c: char) {
    a != "" && a[|a| - 1] == c
  }

  /** The last character of `a` opens no comment with the first of `b`. */
  predicate Apart(a: string, b: string) {
    b != "" ==> !(EndsWith(a, '-') && b[0] == '-') && !(EndsWith(a, '/') && b[0] == '*')
  }

  lemma ApartTail(a: string, more: string, b: string)
    requires Apart(a + more, b)
    ensures Apart(more, b)
  {
    assert more != "" ==> (a + more)[|a + more| - 1] == more[|more| - 1];
  }

  lemma NotGlued(c: char, more: string, rest: string)
    requires Apart([c] + more, rest) && !Glues(c, more)
    ensures !Glues(c, more + rest)
  {
    assert more == "" ==> more + rest == rest && [c] + more == [c];
  }

  /** Tokens are read the same before other text that opens no comment with their last character. */
  lemma {:induction false} ReadsBefore(ts: seq<Token>, rest: string)
    requires Reads(ts, "") && Apart(Written(ts), rest)
    ensures Reads(ts, rest)
    decreases |ts|
  {
    if ts != [] {
      var more := Written(ts[1..]);
      assert more + "" == more;
      ApartTail(Text(ts[0]), more, rest);
      if ts[0].Char? {
        NotGlued(ts[0].c, more, rest);
      }
      ReadsBefore(ts[1..], rest);
    }
  }

  lemma ScanAfter(ts: seq<Token>, rest: string)
    requires Reads(ts, "") && Apart(Written(ts), rest)
    ensures AfterAll(START, ts).mode.Outside?
    ensures Scan(START, Written(ts) + rest) == Scan(AfterAll(START, ts), rest)
  {
    ReadsBefore(ts, rest);
    ScanTokens(START, ts, rest);
  }

  lemma ScanAll(ts: seq<Token>)
    requires Reads(ts, "")
    ensures AfterAll(START, ts).mode.Outside? && Scan(START, Written(ts)) == AfterAll(START, ts)
  {
    ScanAfter(ts, "");
    assert Written(ts) + "" == Written(ts);
  }

  lemma LineText(a: string, c: string, b: string)
    ensures a + "--" + c + "\n" + b == a + ("--" + (c + "\n") + b)
    ensures a + "\n" + b == a + ("\n" + b) && a + "--" + c == a + ("--" + c)
  {
  }

  lemma ScanLine(st: State, c: string, b: string)
    requires st.mode.Outside? && '\n' !in c
    ensures Scan(st, "--" + (c + "\n") + b) == Scan(st, "\n" + b)
  {
    ScanComment(st, c, b);
    ScanToken(st, Char('\n'), b);
  }

  /** A line comment after any script that is not inside anything counts as its newline. */
  lemma LineCommentGoes(ts: seq<Token>, c: string, b: string)
    requires Reads(ts, "") && !EndsWith(Written(ts), '-') && '\n' !in c
    ensures Split(Written(ts) + "--" + c + "\n" + b) == Split(Written(ts) + "\n" + b)
  {
    LineText(Written(ts), c, b);
    ScanAfter(ts, "--" + (c + "\n") + b);
    ScanAfter(ts, "\n" + b);
    ScanLine(AfterAll(START, ts), c, b);
  }

  lemma BlockText(a: string, c: string, b: string)
    ensures a + "/*" + c + "*/" + b == a + ("/*" + (c + "*/") + b) && a + "/*" + c == a + ("/*" + c)
  {
  }

  /** After any script that is not inside anything, what follows a block comment is read as if there were
      no comment. */
  lemma BlockCommentScanned(ts: seq<Token>, c: string, b: string)
    requires Reads(ts, "") && NoClose(c)
    ensures Scan(START, Written(ts) + "/*" + c + "*/" + b) == Scan(Scan(START, Written(ts)), b)
  {
    BlockText(Written(ts), c, b);
    ScanAll(ts);
    ScanAfter(ts, "/*" + (c + "*/") + b);
    ScanComment(AfterAll(START, ts), c, b);
  }

  /** A block comment there counts for nothing, unless it keeps two dashes, or slash and star, apart. */
  lemma BlockCommentGoes(ts: seq<Token>, c: string, b: string)
    requires Reads(ts, "") && NoClose(c) && Apart(Written(ts), b)
    ensures Split(Written(ts) + "/*" + c + "*/" + b) == Split(Written(ts) + b)
  {
    BlockCommentScanned(ts, c, b);
    ScanAll(ts);
    ScanAfter(ts, b);
  }

  lemma OpenScanned(ts: seq<Token>, open: string, mode: Mode)
    requires Reads(ts, "") && Apart(Written(ts), open)
    requires AfterAll(START, ts).mode.Outside? ==>
               Scan(AfterAll(START, ts), open) == AfterAll(START, ts).(mode := mode)
    ensures Split(Written(ts) + open) == Split(Written(ts))
  {
    ScanAll(ts);
    ScanAfter(ts, open);
  }

  /** A line comment that never ends takes only the rest of the script. */
  lemma OpenLineGoes(ts: seq<Token>, c: string)
    requires Reads(ts, "") && !EndsWith(Written(ts), '-') && '\n' !in c
    ensures Split(Written(ts) + "--" + c) == Split(Written(ts))
  {
    LineText(Written(ts), c, "");
    ScanAll(ts);
    ScanComment(AfterAll(START, ts), c, "");
    OpenScanned(ts, "--" + c, LineComment);
  }

  /** So does a block comment that never ends. */
  lemma OpenBlockGoes(ts: seq<Token>, c: string)
    requires Reads(ts, "") && NoClose(c)
    ensures Split(Written(ts) + "/*" + c) == Split(Written(ts))
  {
    BlockText(Written(ts), c, "");
    ScanAll(ts);
    ScanComment(AfterAll(START, ts), c, "");
    OpenScanned(ts, "/*" + c, BlockComment);
  }
}
