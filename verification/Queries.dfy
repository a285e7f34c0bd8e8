/** Filters of the log and audit lists compiled to SQL text with values, and what the database then sees. */
module Queries {
  import opened Collections
  import opened Placeholders

  /** Times are unset when zero, texts when empty, numbers when not positive. */
  datatype LogFilter = LogFilter(
    start: Option<int>,
    end: Option<int>,
    httpMethod: string,
    path: string,
    statusMin: int,
    statusMax: int,
    minDuration: int,
    keyword: string,
    backend: string,
    requestID: string,
    page: int,
    pageSize: int)

  datatype AuditFilter = AuditFilter(
    start: Option<int>,
    end: Option<int>,
    username: string,
    keyword: string,
    ip: string,
    page: int,
    pageSize: int)

  // ----- What a filter asks for -----

  datatype Column = CreatedAt | Method | Path | Status | Duration | RequestBody | ResponseBody | BackendURL | RequestID
    | Username | IP | Action

  datatype Op = AtLeast | AtMost | Equal | Like

  function Name(column: Column): string {
    match column
    case CreatedAt => "created_at"
    case Method => "method"
    case Path => "path"
    case Status => "status"
    case Duration => "duration"
    case RequestBody => "request_body"
    case ResponseBody => "response_body"
    case BackendURL => "backend_url"
    case RequestID => "request_id"
    case Username => "username"
    case IP => "ip"
    case Action => "action"
  }

  function Symbol(op: Op): string {
    match op
    case AtLeast => ">="
    case AtMost => "<="
    case Equal => "="
    case Like => "LIKE"
  }

  /** One condition on a row: a column compared with a value, or one of two such comparisons. */
  datatype Test = Compare(column: Column, op: Op, value: Arg) | Either(first: Test, second: Test)

  function Contains(text: string): Arg {
    TextArg("%" + text + "%")
  }

  function Moment(time: Option<int>): Arg {
    TimeArg(if time.Some? then time.value else 0)
  }

  function Asked(on: bool, test: Test): seq<Test> {
    if on then [test] else []
  }

  function TimeTests(start: Option<int>, end: Option<int>): seq<Test> {
    Asked(start.Some?, Compare(CreatedAt, AtLeast, Moment(start)))
    + Asked(end.Some?, Compare(CreatedAt, AtMost, Moment(end)))
  }

  function RequestTests(f: LogFilter): seq<Test> {
    Asked(f.httpMethod != "", Compare(Method, Equal, TextArg(f.httpMethod)))
    + Asked(f.path != "", Compare(Path, Like, Contains(f.path)))
  }

  function OutcomeTests(f: LogFilter): seq<Test> {
    Asked(f.statusMin > 0, Compare(Status, AtLeast, NumberArg(f.statusMin)))
    + Asked(f.statusMax > 0, Compare(Status, AtMost, NumberArg(f.statusMax)))
    + Asked(f.minDuration > 0, Compare(Duration, AtLeast, NumberArg(f.minDuration)))
  }

  function OriginTests(f: LogFilter): seq<Test> {
    Asked(f.keyword != "", Either(Compare(RequestBody, Like, Contains(f.keyword)),
                                  Compare(ResponseBody, Like, Contains(f.keyword))))
    + Asked(f.backend != "", Compare(BackendURL, Equal, TextArg(f.backend)))
    + Asked(f.requestID != "", Compare(RequestID, Equal, TextArg(f.requestID)))
  }

  function LogTests(f: LogFilter): seq<Test> {
    TimeTests(f.start, f.end) + RequestTests(f) + OutcomeTests(f) + OriginTests(f)
  }

  function PersonTests(f: AuditFilter): seq<Test> {
    Asked(f.username != "", Compare(Username, Equal, TextArg(f.username)))
    + Asked(f.ip != "", Either(Compare(IP, Equal, TextArg(f.ip)), Compare(IP, Like, TextArg(f.ip + "%"))))
    + Asked(f.keyword != "", Compare(Action, Like, Contains(f.keyword)))
  }

  function AuditTests(f: AuditFilter): seq<Test> {
    TimeTests(f.start, f.end) + PersonTests(f)
  }

  /** A value behind a blank. */
  function Given(v: Arg): seq<Piece> {
    [Char(' '), Bound(v)]
  }

  /** A condition with its values in place. */
  function Shown(t: Test): seq<Piece> {
    match t
    case Compare(column, op, value) => Texts(Name(column) + " " + Symbol(op)) + Given(value)
    case Either(a, b) => Texts("(") + Shown(a) + Texts(" OR ") + Shown(b) + Texts(")")
  }

  function ShownAll(tests: seq<Test>): seq<Piece> {
    if |tests| == 0 then []
    else if |tests| == 1 then Shown(tests[0])
    else ShownAll(tests[..|tests| - 1]) + Texts(" AND ") + Shown(tests[|tests| - 1])
  }

  function ShownWhere(tests: seq<Test>): seq<Piece> {
    if tests == [] then [] else Texts("WHERE ") + ShownAll(tests)
  }

  // ----- Text that fits its values -----

  predicate PlainChar(c: char) {
    'a' <= c <= 'z' || 'A' <= c <= 'Z' || c == '_' || c == ' ' || c == ',' || c == '(' || c == ')' || c == '*'
    || '<' <= c <= '?'
  }

  /** Letters, `_`, blanks, commas, parentheses, stars, comparison signs and marks: nothing in the text starts
      a quotation, a comment or a parameter of another kind. */
  predicate Plain(s: string) {
    forall i :: 0 <= i < |s| ==> PlainChar(s[i])
  }

  predicate Markless(s: string) {
    forall i :: 0 <= i < |s| ==> s[i] != '?'
  }

  predicate AfterMark(c: char) {
    c == ' ' || c == ')'
  }

  /** Every mark stands behind a blank, and before a blank, a `)` or the end. */
  predicate Spaced(s: string) {
    forall i :: 0 <= i < |s| && s[i] == '?' ==>
      i > 0 && s[i - 1] == ' ' && (i + 1 < |s| ==> AfterMark(s[i + 1]))
  }

  /** The text shows exactly `pieces` once its marks hold `args`, one each; the marks stand free. */
  predicate Fits(text: string, args: seq<Arg>, pieces: seq<Piece>) {
    Plain(text) && Spaced(text) && Marks(text) == |args| && Bind(text, args) == pieces
  }

  /** No mark of `a` stands right before a character of `b` that it must not meet. */
  predicate Joins(a: string, b: string) {
    a == "" || a[|a| - 1] != '?' || b == "" || AfterMark(b[0])
  }

  lemma SpacedAppend(a: string, b: string)
    requires Spaced(a) && Spaced(b) && Joins(a, b)
    ensures Spaced(a + b)
  {
    var s := a + b;
    forall i | 0 <= i < |s| && s[i] == '?'
      ensures i > 0 && s[i - 1] == ' ' && (i + 1 < |s| ==> AfterMark(s[i + 1]))
    {
      if i < |a| {
        assert a[i] == '?';
        if i + 1 == |a| && b != "" {
          assert s[i + 1] == b[0];
        }
      } else {
        assert b[i - |a|] == '?';
      }
    }
  }

  lemma {:induction false} MarklessFits(text: string)
    requires Plain(text) && Markless(text)
    ensures Fits(text, [], Texts(text))
    decreases |text|
  {
    if text != "" {
      MarklessFits(text[1..]);
      assert Texts(text) == [Char(text[0])] + Texts(text[1..]);
    }
  }

  lemma FitsAppend(a: string, x: seq<Arg>, p: seq<Piece>, b: string, y: seq<Arg>, q: seq<Piece>)
    requires Fits(a, x, p) && Fits(b, y, q) && Joins(a, b)
    ensures Fits(a + b, x + y, p + q)
  {
    SpacedAppend(a, b);
    MarksAppend(a, b);
    BindAppend(a, x, b, y);
  }

  lemma MarkFits(v: Arg)
    ensures Fits(" ?", [v], Given(v))
  {
    var s := " ?";
    assert s[1..][1..] == "" && [v][1..] == [];
    assert Marks(s[1..]) == 1 && Bind(s[1..], [v]) == [Bound(v)] + Bind(s[1..][1..], [v][1..]);
    assert Bind(s, [v]) == [Char(' ')] + Bind(s[1..], [v]);
  }

  predicate Early(column: Column) {
    column in {CreatedAt, Method, Path, Status, Duration, RequestBody}
  }

  lemma EarlyNamePlain(column: Column)
    requires Early(column)
    ensures Plain(Name(column)) && Markless(Name(column))
  {
  }

  lemma LateNamePlain(column: Column)
    requires !Early(column)
    ensures Plain(Name(column)) && Markless(Name(column))
  {
  }

  lemma NamePlain(column: Column)
    ensures Plain(Name(column)) && Markless(Name(column))
  {
    if Early(column) {
      EarlyNamePlain(column);
    } else {
      LateNamePlain(column);
    }
  }

  lemma SymbolPlain(op: Op)
    ensures Plain(Symbol(op)) && Markless(Symbol(op))
  {
  }

  function CompareText(column: Column, op: Op): string {
    Name(column) + " " + Symbol(op) + " ?"
  }

  lemma CompareFits(column: Column, op: Op, v: Arg)
    ensures Fits(CompareText(column, op), [v], Shown(Compare(column, op, v)))
  {
    NamePlain(column);
    SymbolPlain(op);
    var text := Name(column) + " " + Symbol(op);
    MarklessFits(text);
    MarkFits(v);
    FitsAppend(text, [], Texts(text), " ?", [v], Given(v));
    assert [] + [v] == [v];
  }

  /** Two texts that fit, with plain text between them. */
  lemma FitsBetween(a: string, x: seq<Arg>, p: seq<Piece>, sep: string, b: string, y: seq<Arg>, q: seq<Piece>)
    requires Fits(a, x, p) && Fits(b, y, q) && Plain(sep) && Markless(sep) && sep != "" && AfterMark(sep[0])
    ensures Fits(a + sep + b, x + y, p + Texts(sep) + q)
  {
    MarklessFits(sep);
    FitsAppend(a, x, p, sep, [], Texts(sep));
    FitsAppend(a + sep, x + [], p + Texts(sep), b, y, q);
    assert x + [] == x;
  }

  /** A text that fits, with plain text around it. */
  lemma FitsInside(left: string, a: string, x: seq<Arg>, p: seq<Piece>, right: string)
    requires Fits(a, x, p) && Plain(left) && Markless(left)
    requires Plain(right) && Markless(right) && right != "" && AfterMark(right[0])
    ensures Fits(left + a + right, x, Texts(left) + p + Texts(right))
  {
    MarklessFits(left);
    MarklessFits(right);
    FitsAppend(left, [], Texts(left), a, x, p);
    FitsAppend(left + a, [] + x, Texts(left) + p, right, [], Texts(right));
    assert [] + x + [] == x;
  }

  lemma Reassociate<T>(a: seq<T>, b: seq<T>, c: seq<T>, d: seq<T>, e: seq<T>)
    ensures a + (b + c + d) + e == a + b + c + d + e
  {
  }

  lemma EitherFits(a: string, x: Arg, s: Test, b: string, y: Arg, t: Test)
    requires Fits(a, [x], Shown(s)) && Fits(b, [y], Shown(t))
    ensures Fits("(" + a + " OR " + b + ")", [x, y], Shown(Either(s, t)))
  {
    FitsBetween(a, [x], Shown(s), " OR ", b, [y], Shown(t));
    FitsInside("(", a + " OR " + b, [x] + [y], Shown(s) + Texts(" OR ") + Shown(t), ")");
    Reassociate("(", a, " OR ", b, ")");
    Reassociate(Texts("("), Shown(s), Texts(" OR "), Shown(t), Texts(")"));
    assert [x] + [y] == [x, y];
  }

  // ----- The WHERE clause -----

  function Join(parts: seq<string>, sep: string): string {
    if |parts| == 0 then ""
    else if |parts| == 1 then parts[0]
    else Join(parts[..|parts| - 1], sep) + sep + parts[|parts| - 1]
  }

  /** The conditions collected so far show the tests asked for so far. */
  ghost predicate Collected(conds: seq<string>, args: seq<Arg>, tests: seq<Test>) {
    |conds| == |tests| && Fits(Join(conds, " AND "), args, ShownAll(tests))
  }

  lemma JoinGrows(parts: seq<string>, sep: string, part: string)
    ensures Join(parts + [part], sep) == if parts == [] then part else Join(parts, sep) + sep + part
  {
    assert (parts + [part])[..|parts|] == parts;
  }

  lemma ShownGrows(tests: seq<Test>, test: Test)
    ensures ShownAll(tests + [test]) == if tests == [] then Shown(test) else ShownAll(tests) + Texts(" AND ") + Shown(test)
  {
    assert (tests + [test])[..|tests|] == tests;
  }

  lemma Collect(conds: seq<string>, args: seq<Arg>, tests: seq<Test>, text: string, values: seq<Arg>, test: Test)
    requires Collected(conds, args, tests) && Fits(text, values, Shown(test))
    ensures Collected(conds + [text], args + values, tests + [test])
  {
    JoinGrows(conds, " AND ", text);
    ShownGrows(tests, test);
    if conds == [] {
      assert args == [];
      assert args + values == values;
    } else {
      CollectNext(Join(conds, " AND "), args, ShownAll(tests), text, values, Shown(test));
    }
  }

  lemma CollectNext(a: string, x: seq<Arg>, p: seq<Piece>, b: string, y: seq<Arg>, q: seq<Piece>)
    requires Fits(a, x, p) && Fits(b, y, q)
    ensures Fits(a + " AND " + b, x + y, p + Texts(" AND ") + q)
  {
    FitsBetween(a, x, p, " AND ", b, y, q);
  }

  lemma WhereFits(conds: seq<string>, args: seq<Arg>, tests: seq<Test>)
    requires Collected(conds, args, tests) && conds != []
    ensures Fits("WHERE " + Join(conds, " AND "), args, ShownWhere(tests))
  {
    MarklessFits("WHERE ");
    FitsAppend("WHERE ", [], Texts("WHERE "), Join(conds, " AND "), args, ShownAll(tests));
    assert [] + args == args;
  }

  lemma Regroup(a: seq<Test>, b: seq<Test>, c: seq<Test>, d: seq<Test>)
    ensures a + b + c + d == a + (b + c + d)
  {
  }

  /** Appends a condition and its value if it is asked for. */
  method AddCompare(conds: seq<string>, args: seq<Arg>, ghost tests: seq<Test>, on: bool, column: Column, op: Op, v: Arg)
    returns (conds': seq<string>, args': seq<Arg>)
    requires Collected(conds, args, tests)
    ensures Collected(conds', args', tests + Asked(on, Compare(column, op, v)))
  {
    if on {
      CompareFits(column, op, v);
      Collect(conds, args, tests, CompareText(column, op), [v], Compare(column, op, v));
      return conds + [CompareText(column, op)], args + [v];
    }
    assert tests + [] == tests;
    return conds, args;
  }

  /** Appends the choice of two conditions and their two values if it is asked for. */
  method AddEither(conds: seq<string>, args: seq<Arg>, ghost tests: seq<Test>, on: bool,
                   a: Column, opA: Op, v: Arg, b: Column, opB: Op, w: Arg)
    returns (conds': seq<string>, args': seq<Arg>)
    requires Collected(conds, args, tests)
    ensures Collected(conds', args', tests + Asked(on, Either(Compare(a, opA, v), Compare(b, opB, w))))
  {
    if on {
      var text := "(" + CompareText(a, opA) + " OR " + CompareText(b, opB) + ")";
      CompareFits(a, opA, v);
      CompareFits(b, opB, w);
      EitherFits(CompareText(a, opA), v, Compare(a, opA, v), CompareText(b, opB), w, Compare(b, opB, w));
      Collect(conds, args, tests, text, [v, w], Either(Compare(a, opA, v), Compare(b, opB, w)));
      return conds + [text], args + [v, w];
    }
    assert tests + [] == tests;
    return conds, args;
  }

  method WhereText(conds: seq<string>, args: seq<Arg>, ghost tests: seq<Test>) returns (where: string)
    requires Collected(conds, args, tests)
    ensures Fits(where, args, ShownWhere(tests))
    ensures where == "" <==> tests == []
  {
    if conds == [] {
      return "";
    }
    WhereFits(conds, args, tests);
    where := "WHERE " + Join(conds, " AND ");
    assert where[0] == 'W';
  }

  method AddTimes(conds: seq<string>, args: seq<Arg>, ghost tests: seq<Test>, start: Option<int>, end: Option<int>)
    returns (conds': seq<string>, args': seq<Arg>)
    requires Collected(conds, args, tests)
    ensures Collected(conds', args', tests + TimeTests(start, end))
  {
    ghost var t1 := Asked(start.Some?, Compare(CreatedAt, AtLeast, Moment(start)));
    ghost var t2 := Asked(end.Some?, Compare(CreatedAt, AtMost, Moment(end)));
    conds', args' := AddCompare(conds, args, tests, start.Some?, CreatedAt, AtLeast, Moment(start));
    conds', args' := AddCompare(conds', args', tests + t1, end.Some?, CreatedAt, AtMost, Moment(end));
    assert tests + t1 + t2 == tests + (t1 + t2);
  }

  method AddRequest(conds: seq<string>, args: seq<Arg>, ghost tests: seq<Test>, f: LogFilter)
    returns (conds': seq<string>, args': seq<Arg>)
    requires Collected(conds, args, tests)
    ensures Collected(conds', args', tests + RequestTests(f))
  {
    ghost var t1 := Asked(f.httpMethod != "", Compare(Method, Equal, TextArg(f.httpMethod)));
    ghost var t2 := Asked(f.path != "", Compare(Path, Like, Contains(f.path)));
    conds', args' := AddCompare(conds, args, tests, f.httpMethod != "", Method, Equal, TextArg(f.httpMethod));
    conds', args' := AddCompare(conds', args', tests + t1, f.path != "", Path, Like, Contains(f.path));
    assert tests + t1 + t2 == tests + (t1 + t2);
  }

  method AddOutcome(conds: seq<string>, args: seq<Arg>, ghost tests: seq<Test>, f: LogFilter)
    returns (conds': seq<string>, args': seq<Arg>)
    requires Collected(conds, args, tests)
    ensures Collected(conds', args', tests + OutcomeTests(f))
  {
    ghost var t1 := Asked(f.statusMin > 0, Compare(Status, AtLeast, NumberArg(f.statusMin)));
    ghost var t2 := Asked(f.statusMax > 0, Compare(Status, AtMost, NumberArg(f.statusMax)));
    ghost var t3 := Asked(f.minDuration > 0, Compare(Duration, AtLeast, NumberArg(f.minDuration)));
    conds', args' := AddCompare(conds, args, tests, f.statusMin > 0, Status, AtLeast, NumberArg(f.statusMin));
    conds', args' := AddCompare(conds', args', tests + t1, f.statusMax > 0, Status, AtMost, NumberArg(f.statusMax));
    conds', args' := AddCompare(conds', args', tests + t1 + t2, f.minDuration > 0, Duration, AtLeast, NumberArg(f.minDuration));
    Regroup(tests, t1, t2, t3);
  }

  method AddOrigin(conds: seq<string>, args: seq<Arg>, ghost tests: seq<Test>, f: LogFilter)
    returns (conds': seq<string>, args': seq<Arg>)
    requires Collected(conds, args, tests)
    ensures Collected(conds', args', tests + OriginTests(f))
  {
    ghost var inRequest := Compare(RequestBody, Like, Contains(f.keyword));
    ghost var inResponse := Compare(ResponseBody, Like, Contains(f.keyword));
    ghost var t1 := Asked(f.keyword != "", Either(inRequest, inResponse));
    ghost var t2 := Asked(f.backend != "", Compare(BackendURL, Equal, TextArg(f.backend)));
    ghost var t3 := Asked(f.requestID != "", Compare(RequestID, Equal, TextArg(f.requestID)));
    conds', args' := AddEither(conds, args, tests, f.keyword != "",
                               RequestBody, Like, Contains(f.keyword), ResponseBody, Like, Contains(f.keyword));
    conds', args' := AddCompare(conds', args', tests + t1, f.backend != "", BackendURL, Equal, TextArg(f.backend));
    conds', args' := AddCompare(conds', args', tests + t1 + t2, f.requestID != "", RequestID, Equal, TextArg(f.requestID));
    Regroup(tests, t1, t2, t3);
  }

  /** The conditions and the values of a log filter, appended one after the other. */
  method BuildWhere(f: LogFilter) returns (where: string, args: seq<Arg>)
    ensures Fits(where, args, ShownWhere(LogTests(f)))
    ensures where == "" <==> LogTests(f) == []
  {
    ghost var times := TimeTests(f.start, f.end);
    assert [] + times == times;
    var conds: seq<string>;
    conds, args := AddTimes([], [], [], f.start, f.end);
    conds, args := AddRequest(conds, args, times, f);
    conds, args := AddOutcome(conds, args, times + RequestTests(f), f);
    conds, args := AddOrigin(conds, args, times + RequestTests(f) + OutcomeTests(f), f);
    where := WhereText(conds, args, LogTests(f));
  }

  method AddPerson(conds: seq<string>, args: seq<Arg>, ghost tests: seq<Test>, f: AuditFilter)
    returns (conds': seq<string>, args': seq<Arg>)
    requires Collected(conds, args, tests)
    ensures Collected(conds', args', tests + PersonTests(f))
  {
    ghost var same, starts := Compare(IP, Equal, TextArg(f.ip)), Compare(IP, Like, TextArg(f.ip + "%"));
    ghost var t1 := Asked(f.username != "", Compare(Username, Equal, TextArg(f.username)));
    ghost var t2 := Asked(f.ip != "", Either(same, starts));
    ghost var t3 := Asked(f.keyword != "", Compare(Action, Like, Contains(f.keyword)));
    conds', args' := AddCompare(conds, args, tests, f.username != "", Username, Equal, TextArg(f.username));
    conds', args' := AddEither(conds', args', tests + t1, f.ip != "", IP, Equal, TextArg(f.ip), IP, Like, TextArg(f.ip + "%"));
    conds', args' := AddCompare(conds', args', tests + t1 + t2, f.keyword != "", Action, Like, Contains(f.keyword));
    Regroup(tests, t1, t2, t3);
  }

  method BuildAuditWhere(f: AuditFilter) returns (where: string, args: seq<Arg>)
    ensures Fits(where, args, ShownWhere(AuditTests(f)))
    ensures where == "" <==> AuditTests(f) == []
  {
    ghost var times := TimeTests(f.start, f.end);
    assert [] + times == times;
    var conds: seq<string>;
    conds, args := AddTimes([], [], [], f.start, f.end);
    conds, args := AddPerson(conds, args, times, f);
    where := WhereText(conds, args, AuditTests(f));
  }

  // ----- Whole queries -----

  const REQUEST_COLUMNS := ["id", "method", "path", "query", "request_headers", "request_body"]
  const RESPONSE_COLUMNS := ["status", "response_headers", "response_body", "duration"]
  const ORIGIN_COLUMNS := ["client_ip", "user_agent", "referer", "backend_url", "request_id", "created_at"]
  const LOG_COLUMNS := REQUEST_COLUMNS + RESPONSE_COLUMNS + ORIGIN_COLUMNS

  const AUDIT_COLUMNS := ["id", "username", "action", "ip", "created_at"]

  function Select(columns: seq<string>, table: string): string {
    "SELECT " + Join(columns, ", ") + " FROM " + table
  }

  lemma {:induction false} JoinPlain(parts: seq<string>)
    requires forall p :: p in parts ==> Plain(p) && Markless(p)
    ensures Plain(Join(parts, ", ")) && Markless(Join(parts, ", "))
    decreases |parts|
  {
    if |parts| > 1 {
      JoinPlain(parts[..|parts| - 1]);
    }
    if |parts| > 0 {
      assert parts[|parts| - 1] in parts;
    }
  }

  lemma SelectPlain(columns: seq<string>, table: string)
    requires (forall p :: p in columns ==> Plain(p) && Markless(p)) && Plain(table) && Markless(table)
    ensures Plain(Select(columns, table)) && Markless(Select(columns, table))
  {
    JoinPlain(columns);
  }

  function Page(page: int): (r: int)
    ensures r >= 1
  {
    if page < 1 then 1 else page
  }

  function Size(pageSize: int): (r: int)
    ensures 1 <= r <= 200
  {
    if pageSize < 1 || pageSize > 200 then 50 else pageSize
  }

  function Offset(page: int, pageSize: int): int {
    (Page(page) - 1) * Size(pageSize)
  }

  lemma MultiplesApart(m: int, q: int, n: int)
    requires n > 0 && m < q
    ensures m * n + n <= q * n
  {
    assert q * n - (m * n + n) == (q - m - 1) * n;
    assert (q - m - 1) * n >= 0;
  }

  lemma QuotientWindow(row: nat, n: int)
    requires n > 0
    ensures row / n * n <= row < row / n * n + n
  {
    assert row == n * (row / n) + row % n;
  }

  /** Reading the pages 1, 2, ... returns every row, and each of them once. */
  lemma EveryRowOnOnePage(row: nat, pageSize: int, page: int)
    requires page >= 1
    ensures Size(pageSize) == if 1 <= pageSize <= 200 then pageSize else 50
    ensures Offset(page, pageSize) <= row < Offset(page, pageSize) + Size(pageSize) <==> page == row / Size(pageSize) + 1
  {
    var n := Size(pageSize);
    var q := row / n;
    QuotientWindow(row, n);
    if page - 1 < q {
      MultiplesApart(page - 1, q, n);
    } else if q < page - 1 {
      MultiplesApart(q, page - 1, n);
    }
  }

  /** A list query with its values in place. */
  function ShownList(select: string, tests: seq<Test>, page: int, pageSize: int): seq<Piece> {
    ShownCount(select, tests) + Texts(" ORDER BY id DESC LIMIT") + Given(NumberArg(Size(pageSize)))
    + Texts(" OFFSET") + Given(NumberArg(Offset(page, pageSize)))
  }

  function ShownCount(select: string, tests: seq<Test>): seq<Piece> {
    Texts(select) + (if tests == [] then [] else Texts(" ") + ShownWhere(tests))
  }

  /** The values of the pieces, in order. */
  function Values(pieces: seq<Piece>): seq<Arg> {
    if pieces == [] then []
    else (if pieces[0].Bound? then [pieces[0].arg] else []) + Values(pieces[1..])
  }

  lemma {:induction false} BoundValues(text: string, args: seq<Arg>)
    requires Marks(text) == |args|
    ensures Values(Bind(text, args)) == args
    decreases |text|
  {
    if text != "" {
      var rest := if text[0] == '?' then args[1..] else args;
      assert Bind(text, args)[1..] == Bind(text[1..], rest);
      BoundValues(text[1..], rest);
    }
  }

  lemma SpacedIsClean(text: string)
    requires Plain(text) && Spaced(text)
    ensures Clean(text) && NoNamedMarks(text)
  {
    forall i: nat | i < |text|
      ensures !Misread(text, i) && !NamedMark(text, i)
    {
      assert PlainChar(text[i]);
    }
  }

  /** The database of every dialect sees the pieces, and the values sent are those of the pieces. */
  ghost predicate Delivers(dialect: Dialect, text: string, args: seq<Arg>, pieces: seq<Piece>) {
    Seen(dialect, text, args) == pieces && args == Values(pieces)
  }

  method Send(dialect: Dialect, query: string, args: seq<Arg>, ghost pieces: seq<Piece>) returns (text: string)
    requires Fits(query, args, pieces)
    ensures Delivers(dialect, text, args, pieces)
  {
    text := Rebind(dialect, query);
    SpacedIsClean(query);
    RebindingPreserves(dialect, query, args);
    BoundValues(query, args);
  }

  lemma SelectWhereFits(select: string, where: string, args: seq<Arg>, tests: seq<Test>)
    requires Plain(select) && Markless(select) && Fits(where, args, ShownWhere(tests)) && tests != []
    ensures Fits(select + " " + where, args, ShownCount(select, tests))
  {
    MarklessFits(select);
    FitsBetween(select, [], Texts(select), " ", where, args, ShownWhere(tests));
    assert [] + args == args;
    assert Texts(select) + Texts(" ") + ShownWhere(tests) == Texts(select) + (Texts(" ") + ShownWhere(tests));
  }

  lemma SelectFits(select: string)
    requires Plain(select) && Markless(select)
    ensures Fits(select, [], ShownCount(select, []))
  {
    MarklessFits(select);
    assert Texts(select) + [] == Texts(select);
  }

  /** Adds the WHERE clause, if there is one. */
  method WithWhere(select: string, where: string, args: seq<Arg>, ghost tests: seq<Test>) returns (q: string)
    requires Plain(select) && Markless(select) && Fits(where, args, ShownWhere(tests)) && (where == "" <==> tests == [])
    ensures Fits(q, args, ShownCount(select, tests))
  {
    q := select;
    if where != "" {
      SelectWhereFits(select, where, args, tests);
      q := q + " " + where;
    } else {
      assert args == [];
      SelectFits(select);
    }
  }

  lemma ValueFits(query: string, args: seq<Arg>, pieces: seq<Piece>, text: string, v: Arg)
    requires Fits(query, args, pieces) && Plain(text) && Markless(text) && text != "" && text[0] == ' '
    ensures Fits(query + text + " ?", args + [v], pieces + Texts(text) + Given(v))
  {
    MarklessFits(text);
    MarkFits(v);
    FitsAppend(query, args, pieces, text, [], Texts(text));
    FitsAppend(query + text, args + [], pieces + Texts(text), " ?", [v], Given(v));
    assert args + [] == args;
  }

  lemma PageFits(query: string, args: seq<Arg>, pieces: seq<Piece>, size: Arg, offset: Arg)
    requires Fits(query, args, pieces)
    ensures Fits(query + " ORDER BY id DESC LIMIT" + " ?" + " OFFSET" + " ?", args + [size, offset],
                 pieces + Texts(" ORDER BY id DESC LIMIT") + Given(size) + Texts(" OFFSET") + Given(offset))
  {
    PagePlain();
    ValueFits(query, args, pieces, " ORDER BY id DESC LIMIT", size);
    ValueFits(query + " ORDER BY id DESC LIMIT" + " ?", args + [size],
              pieces + Texts(" ORDER BY id DESC LIMIT") + Given(size), " OFFSET", offset);
    assert args + [size] + [offset] == args + [size, offset];
  }

  lemma PagePlain()
    ensures Plain(" ORDER BY id DESC LIMIT") && Markless(" ORDER BY id DESC LIMIT")
    ensures Plain(" OFFSET") && Markless(" OFFSET")
  {
  }

  /** Adds the page asked for. */
  method WithPage(query: string, args: seq<Arg>, page: int, pageSize: int, ghost pieces: seq<Piece>)
    returns (q: string, all: seq<Arg>)
    requires Fits(query, args, pieces)
    ensures Fits(q, all, pieces + Texts(" ORDER BY id DESC LIMIT") + Given(NumberArg(Size(pageSize)))
                         + Texts(" OFFSET") + Given(NumberArg(Offset(page, pageSize))))
  {
    var p, n := page, pageSize;
    if p < 1 {
      p := 1;
    }
    if n < 1 || n > 200 {
      n := 50;
    }
    var offset := (p - 1) * n;
    PageFits(query, args, pieces, NumberArg(n), NumberArg(offset));
    q := query + " ORDER BY id DESC LIMIT" + " ?" + " OFFSET" + " ?";
    all := args + [NumberArg(n), NumberArg(offset)];
  }

  lemma LogColumnsPlain()
    ensures forall p :: p in LOG_COLUMNS ==> Plain(p) && Markless(p)
  {
    RequestColumnsPlain();
    ResponseColumnsPlain();
    OriginColumnsPlain();
  }

  lemma RequestColumnsPlain()
    ensures forall p :: p in REQUEST_COLUMNS ==> Plain(p) && Markless(p)
  {
  }

  lemma ResponseColumnsPlain()
    ensures forall p :: p in RESPONSE_COLUMNS ==> Plain(p) && Markless(p)
  {
  }

  lemma OriginColumnsPlain()
    ensures forall p :: p in ORIGIN_COLUMNS ==> Plain(p) && Markless(p)
  {
  }

  /** The page of the log list that a filter asks for: whatever the dialect, the database sees the conditions
      of the filter, each with its own value, then the size and the offset of the page. */
  method ListLogs(dialect: Dialect, f: LogFilter) returns (text: string, args: seq<Arg>)
    ensures Delivers(dialect, text, args, ShownList(Select(LOG_COLUMNS, "proxy_logs"), LogTests(f), f.page, f.pageSize))
  {
    LogColumnsPlain();
    SelectPlain(LOG_COLUMNS, "proxy_logs");
    var where, whereArgs := BuildWhere(f);
    var q := WithWhere(Select(LOG_COLUMNS, "proxy_logs"), where, whereArgs, LogTests(f));
    q, args := WithPage(q, whereArgs, f.page, f.pageSize, ShownCount(Select(LOG_COLUMNS, "proxy_logs"), LogTests(f)));
    text := Send(dialect, q, args, ShownList(Select(LOG_COLUMNS, "proxy_logs"), LogTests(f), f.page, f.pageSize));
  }

  lemma AuditColumnsPlain()
    ensures forall p :: p in AUDIT_COLUMNS ==> Plain(p) && Markless(p)
  {
  }

  method ListAudits(dialect: Dialect, f: AuditFilter) returns (text: string, args: seq<Arg>)
    ensures Delivers(dialect, text, args, ShownList(Select(AUDIT_COLUMNS, "audit_logs"), AuditTests(f), f.page, f.pageSize))
  {
    AuditColumnsPlain();
    SelectPlain(AUDIT_COLUMNS, "audit_logs");
    var where, whereArgs := BuildAuditWhere(f);
    var q := WithWhere(Select(AUDIT_COLUMNS, "audit_logs"), where, whereArgs, AuditTests(f));
    q, args := WithPage(q, whereArgs, f.page, f.pageSize, ShownCount(Select(AUDIT_COLUMNS, "audit_logs"), AuditTests(f)));
    text := Send(dialect, q, args, ShownList(Select(AUDIT_COLUMNS, "audit_logs"), AuditTests(f), f.page, f.pageSize));
  }

  const COUNT_AUDITS := "SELECT COUNT(*) FROM audit_logs"

  lemma CountAuditsPlain()
    ensures Plain(COUNT_AUDITS) && Markless(COUNT_AUDITS)
  {
  }

  const COUNT_LOGS := "SELECT COUNT(*) FROM proxy_logs"

  lemma CountLogsPlain()
    ensures Plain(COUNT_LOGS) && Markless(COUNT_LOGS)
  {
  }

  lemma OrderPlain()
    ensures Plain(" ORDER BY id DESC") && Markless(" ORDER BY id DESC")
  {
  }

  lemma OrderFits(query: string, args: seq<Arg>, pieces: seq<Piece>)
    requires Fits(query, args, pieces)
    ensures Fits(query + " ORDER BY id DESC", args, pieces + Texts(" ORDER BY id DESC"))
  {
    OrderPlain();
    MarklessFits(" ORDER BY id DESC");
    FitsAppend(query, args, pieces, " ORDER BY id DESC", [], Texts(" ORDER BY id DESC"));
    assert args + [] == args;
  }

  /** The count of the log list is taken under the same conditions as the list; the query keeps the ordering
      that its builder always adds. */
  method CountLogs(dialect: Dialect, f: LogFilter) returns (text: string, args: seq<Arg>)
    ensures Delivers(dialect, text, args, ShownCount(COUNT_LOGS, LogTests(f)) + Texts(" ORDER BY id DESC"))
  {
    var where: string;
    where, args := BuildWhere(f);
    CountLogsPlain();
    var q := WithWhere(COUNT_LOGS, where, args, LogTests(f));
    OrderFits(q, args, ShownCount(COUNT_LOGS, LogTests(f)));
    text := Send(dialect, q + " ORDER BY id DESC", args, ShownCount(COUNT_LOGS, LogTests(f)) + Texts(" ORDER BY id DESC"));
  }

  /** The count of the audit list is taken under the same conditions as the list. */
  method CountAudits(dialect: Dialect, f: AuditFilter) returns (text: string, args: seq<Arg>)
    ensures Delivers(dialect, text, args, ShownCount(COUNT_AUDITS, AuditTests(f)))
  {
    var where: string;
    where, args := BuildAuditWhere(f);
    CountAuditsPlain();
    var q := WithWhere(COUNT_AUDITS, where, args, AuditTests(f));
    text := Send(dialect, q, args, ShownCount(COUNT_AUDITS, AuditTests(f)));
  }
}
