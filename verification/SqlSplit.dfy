/** Splitting a migration script into SQL statements. */
module SqlSplit {
  // ----- trimming

  /** The Unicode White_Space property. */
  predicate IsWhitespace(c: char) {
    || '\U{0009}' <= c <= '\U{000D}' || c == ' ' || c == '\U{0085}' || c == '\U{00A0}' || c == '\U{1680}'
    || '\U{2000}' <= c <= '\U{200A}' || c == '\U{2028}' || c == '\U{2029}' || c == '\U{202F}'
    || c == '\U{205F}' || c == '\U{3000}'
  }

  function TrimStart(s: string): string {
    if s != "" && IsWhitespace(s[0]) then TrimStart(s[1..]) else s
  }

  function TrimEnd(s: string): string {
    if s != "" && IsWhitespace(s[|s| - 1]) then TrimEnd(s[..|s| - 1]) else s
  }

  function Trim(s: string): string {
    TrimEnd(TrimStart(s))
  }

  predicate IsTrimmed(s: string) {
    s != "" ==> !IsWhitespace(s[0]) && !IsWhitespace(s[|s| - 1])
  }

  lemma TrimmedUnchanged(s: string)
    requires IsTrimmed(s)
    ensures Trim(s) == s
  {
  }

  lemma {:induction false} TrimEndTrims(s: string)
    requires s != "" ==> !IsWhitespace(s[0])
    ensures IsTrimmed(TrimEnd(s))
    decreases |s|
  {
    if s != "" && IsWhitespace(s[|s| - 1]) {
      TrimEndTrims(s[..|s| - 1]);
    }
  }

  lemma {:induction false} TrimTrims(s: string)
    ensures IsTrimmed(Trim(s))
    decreases |s|
  {
    if s != "" && IsWhitespace(s[0]) {
      TrimTrims(s[1..]);
    } else {
      TrimEndTrims(s);
    }
  }

  predicate IsBlank(s: string) {
    forall i :: 0 <= i < |s| ==> IsWhitespace(s[i])
  }

  lemma {:induction false} TrimEndExact(s: string) returns (after: string)
    ensures s == TrimEnd(s) + after && IsBlank(after)
    decreases |s|
  {
    if s != "" && IsWhitespace(s[|s| - 1]) {
      after := TrimEndExact(s[..|s| - 1]);
      assert s == TrimEnd(s) + (after + [s[|s| - 1]]);
      after := after + [s[|s| - 1]];
    } else {
      after := "";
    }
  }

  /** Trimming takes whitespace off both ends and nothing else. */
  lemma {:induction false} TrimExact(s: string) returns (before: string, after: string)
    ensures s == before + Trim(s) + after && IsBlank(before) && IsBlank(after)
    decreases |s|
  {
    if s != "" && IsWhitespace(s[0]) {
      before, after := TrimExact(s[1..]);
      assert s == [s[0]] + before + Trim(s) + after;
      before := [s[0]] + before;
    } else {
      before := "";
      after := TrimEndExact(s);
      assert s == "" + TrimEnd(s) + after;
    }
  }

  // ----- the scanner

  /** The four flags of the source; at most one is ever set. */
  datatype Mode = Outside | SingleQuote | DoubleQuote | LineComment | BlockComment

  datatype State = State(mode: Mode, current: string, out: seq<string>)

  function Emit(current: string): seq<string> {
    var stmt := Trim(current);
    if stmt == "" then [] else [stmt]
  }

  predicate StartsWith(s: string, a: char, b: char) {
    |s| >= 2 && s[0] == a && s[1] == b
  }

  /** How many characters one turn of the loop takes. */
  function Width(m: Mode, s: string): (n: nat)
    requires s != ""
    ensures 1 <= n <= |s|
  {
    match m
    case LineComment => 1
    case BlockComment => if StartsWith(s, '*', '/') then 2 else 1
    case SingleQuote => if StartsWith(s, '\'', '\'') then 2 else 1
    case DoubleQuote => 1
    case Outside => if StartsWith(s, '-', '-') || StartsWith(s, '/', '*') then 2 else 1
  }

  function Step(st: State, s: string): State
    requires s != ""
  {
    var c := s[0];
    match st.mode
    case LineComment => if c == '\n' then State(Outside, st.current + [c], st.out) else st
    case BlockComment => if StartsWith(s, '*', '/') then st.(mode := Outside) else st
    case SingleQuote =>
      if StartsWith(s, '\'', '\'') then st.(current := st.current + s[..2])
      else State(if c == '\'' then Outside else SingleQuote, st.current + [c], st.out)
    case DoubleQuote => State(if c == '"' then Outside else DoubleQuote, st.current + [c], st.out)
    case Outside =>
      if StartsWith(s, '-', '-') then st.(mode := LineComment)
      else if StartsWith(s, '/', '*') then st.(mode := BlockComment)
      else if c == '\'' then State(SingleQuote, st.current + [c], st.out)
      else if c == '"' then State(DoubleQuote, st.current + [c], st.out)
      else if c == ';' then State(Outside, "", st.out + Emit(st.current))
      else st.(current := st.current + [c])
  }

  function Scan(st: State, s: string): State
    decreases |s|
  {
    if s == "" then st else Scan(Step(st, s), s[Width(st.mode, s)..])
  }

  const START := State(Outside, "", [])

  function Finish(st: State): seq<string> {
    st.out + Emit(st.current)
  }

  function Split(sql: string): seq<string> {
    Finish(Scan(START, sql))
  }

  function ModeOf(single: bool, double: bool, line: bool, block: bool): Mode {
    if line then LineComment else if block then BlockComment
    else if single then SingleQuote else if double then DoubleQuote else Outside
  }

  /** The character loop with its four flags. */
  method SplitSqlStatements(sql: string) returns (out: seq<string>)
    ensures out == Split(sql)
  {
    out := [];
    var current := "";
    var i := 0;
    var inSingle, inDouble, inLine, inBlock := false, false, false, false;
    while i < |sql|
      invariant 0 <= i <= |sql|
      invariant !(inSingle && inDouble) && !(inLine && inBlock)
      invariant (inLine || inBlock) ==> !inSingle && !inDouble
      invariant Scan(State(ModeOf(inSingle, inDouble, inLine, inBlock), current, out), sql[i..]) == Scan(START, sql)
    {
      ghost var st, rest := State(ModeOf(inSingle, inDouble, inLine, inBlock), current, out), sql[i..];
      assert Scan(st, rest) == Scan(Step(st, rest), rest[Width(st.mode, rest)..]);
      var ch := sql[i];
      var peek := if i + 1 < |sql| then [sql[i + 1]] else [];
      assert forall c :: peek == [c] <==> |rest| >= 2 && rest[1] == c;
      i := i + 1;
      assert sql[i..] == rest[1..];
      assert i < |sql| ==> sql[i + 1..] == rest[2..];
      if inLine {
        if ch == '\n' {
          inLine := false;
          current := current + [ch];
        }
      } else if inBlock {
        if ch == '*' && peek == ['/'] {
          i := i + 1;
          inBlock := false;
        }
      } else if !inSingle && !inDouble && ch == '-' && peek == ['-'] {
        i := i + 1;
        inLine := true;
      } else if !inSingle && !inDouble && ch == '/' && peek == ['*'] {
        i := i + 1;
        inBlock := true;
      } else if ch == '\'' && !inDouble {
        if inSingle && peek == ['\''] {
          current := current + [ch] + peek;
          i := i + 1;
          assert rest[..2] == [ch] + peek;
        } else {
          inSingle := !inSingle;
          current := current + [ch];
        }
      } else if ch == '"' && !inSingle {
        inDouble := !inDouble;
        current := current + [ch];
      } else if ch == ';' && !inSingle && !inDouble {
        out := out + Emit(current);
        current := "";
      } else {
        current := current + [ch];
      }
      assert State(ModeOf(inSingle, inDouble, inLine, inBlock), current, out) == Step(st, rest);
    }
    out := out + Emit(current);
  }

  // ----- splitting at a semicolon

  /** A character that never completes a two-character token begun before it. */
  predicate Inert(c: char) {
    c != '-' && c != '*' && c != '/' && c != '\''
  }

  lemma StepLocal(st: State, a: string, rest: string)
    requires a != "" && rest != "" && Inert(rest[0])
    ensures Step(st, a + rest) == Step(st, a) && Width(st.mode, a + rest) == Width(st.mode, a)
  {
    assert |a| >= 2 ==> (a + rest)[..2] == a[..2];
  }

  /** Text is scanned the same way before an inert character as on its own. */
  lemma {:induction false} ScanPrefix(st: State, a: string, rest: string)
    requires rest != "" && Inert(rest[0])
    ensures Scan(st, a + rest) == Scan(Scan(st, a), rest)
    decreases |a|
  {
    if a == "" {
      assert a + rest == rest;
    } else {
      StepLocal(st, a, rest);
      var n := Width(st.mode, a);
      assert (a + rest)[n..] == a[n..] + rest;
      ScanPrefix(Step(st, a), a[n..], rest);
    }
  }

  /** Statements already out are never looked at again. */
  lemma {:induction false} ScanOutPrefix(st: State, s: string, done: seq<string>)
    ensures Scan(st.(out := done + st.out), s) == Scan(st, s).(out := done + Scan(st, s).out)
    decreases |s|
  {
    if s != "" {
      var n := Width(st.mode, s);
      ScanOutPrefix(Step(st, s), s[n..], done);
      assert done + st.out + Emit(st.current) == done + (st.out + Emit(st.current));
      assert Step(st.(out := done + st.out), s) == Step(st, s).(out := done + Step(st, s).out);
    }
  }

  predicate EndsOutside(a: string) {
    Scan(START, a).mode == Outside
  }

  /** A semicolon outside quotes and comments separates completely. */
  lemma SplitAtSemicolon(a: string, b: string)
    requires EndsOutside(a)
    ensures Split(a + ";" + b) == Split(a) + Split(b)
  {
    var st := Scan(START, a);
    assert a + ";" + b == a + (";" + b);
    ScanPrefix(START, a, ";" + b);
    assert (";" + b)[1..] == b;
    var after := State(Outside, "", Finish(st));
    assert Step(st, ";" + b) == after;
    ScanOutPrefix(START, b, Finish(st));
    assert START.(out := Finish(st) + START.out) == after;
    var e := Scan(START, b);
    assert Finish(st) + e.out + Emit(e.current) == Finish(st) + (e.out + Emit(e.current));
  }

  // ----- joining and splitting again

  /** Quote-balanced, comment-free text without a top-level semicolon, read one character at a time. */
  predicate Plain(m: Mode, s: string)
    decreases |s|
  {
    if s == "" then m == Outside
    else
      match m
      case Outside =>
        && s[0] != ';' && !StartsWith(s, '-', '-') && !StartsWith(s, '/', '*')
        && Plain(if s[0] == '\'' then SingleQuote else if s[0] == '"' then DoubleQuote else Outside, s[1..])
      case SingleQuote => Plain(if s[0] == '\'' then Outside else SingleQuote, s[1..])
      case DoubleQuote => Plain(if s[0] == '"' then Outside else DoubleQuote, s[1..])
      case _ => false
  }

  lemma PlainStep(st: State, s: string)
    requires s != "" && Plain(st.mode, s)
    ensures var n, next := Width(st.mode, s), Step(st, s);
            && Plain(next.mode, s[n..])
            && next == State(next.mode, st.current + s[..n], st.out)
  {
    if Width(st.mode, s) == 2 {
      assert Plain(Outside, s[1..]);
      assert Plain(SingleQuote, s[1..][1..]);
      assert s[2..] == s[1..][1..];
    } else {
      assert s[..1] == [s[0]];
    }
  }

  lemma TakeDrop(done: string, s: string, n: nat)
    requires n <= |s|
    ensures done + s[..n] + s[n..] == done + s
  {
    assert s[..n] + s[n..] == s;
  }

  /** Plain text passes through the scanner whole; doubled quotes need no rule of their own. */
  lemma {:induction false} PlainScan(st: State, s: string)
    requires Plain(st.mode, s)
    ensures Scan(st, s) == State(Outside, st.current + s, st.out)
    decreases |s|
  {
    if s != "" {
      var n := Width(st.mode, s);
      PlainStep(st, s);
      PlainScan(Step(st, s), s[n..]);
      TakeDrop(st.current, s, n);
    } else {
      assert st.current + s == st.current;
    }
  }

  predicate IsStatement(s: string) {
    s != "" && IsTrimmed(s) && Plain(Outside, s)
  }

  function Join(stmts: seq<string>): string {
    if stmts == [] then "" else if |stmts| == 1 then stmts[0] else stmts[0] + ";" + Join(stmts[1..])
  }

  lemma SplitOne(s: string)
    requires IsStatement(s)
    ensures EndsOutside(s) && Split(s) == [s]
  {
    PlainScan(START, s);
    TrimmedUnchanged(s);
    assert "" + s == s;
  }

  lemma JoinCons(stmts: seq<string>)
    requires |stmts| > 1
    ensures Join(stmts) == stmts[0] + ";" + Join(stmts[1..]) && stmts == [stmts[0]] + stmts[1..]
  {
  }

  /** Joining statements with semicolons and splitting again gives them back. */
  lemma {:induction false} SplitJoin(stmts: seq<string>)
    requires forall i :: 0 <= i < |stmts| ==> IsStatement(stmts[i])
    ensures Split(Join(stmts)) == stmts
    decreases |stmts|
  {
    if stmts != [] {
      SplitOne(stmts[0]);
      if |stmts| > 1 {
        JoinCons(stmts);
        SplitAtSemicolon(stmts[0], Join(stmts[1..]));
        SplitJoin(stmts[1..]);
      }
    }
  }

  /** Whatever the script, every statement that comes out is trimmed and not empty. */
  lemma {:induction false} OutputTrimmed(st: State, s: string)
    requires forall i :: 0 <= i < |st.out| ==> st.out[i] != "" && IsTrimmed(st.out[i])
    ensures var out := Finish(Scan(st, s));
            forall i :: 0 <= i < |out| ==> out[i] != "" && IsTrimmed(out[i])
    decreases |s|
  {
    TrimTrims(st.current);
    if s == "" {
      assert Scan(st, s) == st;
    } else {
      var next, rest := Step(st, s), s[Width(st.mode, s)..];
      OutputTrimmed(next, rest);
      assert Scan(st, s) == Scan(next, rest);
    }
  }
}
