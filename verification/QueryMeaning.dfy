/** What the filters of the log and audit lists mean: which rows they let through, and how the conditions read in
    the query. */
module QueryMeaning {
  import opened Collections
  import opened Placeholders
  import opened Queries

  // ----- Which rows a filter lets through -----

  /** A row by its columns; `like` decides whether a value fits a pattern. */
  type Row = Column -> Arg
  type Pattern = (Arg, Arg) -> bool

  /** Times and numbers are ordered among themselves. */
  predicate NotBelow(a: Arg, b: Arg) {
    (a.TimeArg? && b.TimeArg? && a.at >= b.at) || (a.NumberArg? && b.NumberArg? && a.number >= b.number)
  }

  predicate Holds(t: Test, row: Row, like: Pattern) {
    match t
    case Compare(column, AtLeast, v) => NotBelow(row(column), v)
    case Compare(column, AtMost, v) => NotBelow(v, row(column))
    case Compare(column, Equal, v) => row(column) == v
    case Compare(column, Like, v) => like(row(column), v)
    case Either(a, b) => Holds(a, row, like) || Holds(b, row, like)
  }

  ghost predicate AllHold(tests: seq<Test>, row: Row, like: Pattern) {
    forall t :: t in tests ==> Holds(t, row, like)
  }

  lemma AllHoldAppend(a: seq<Test>, b: seq<Test>, row: Row, like: Pattern)
    ensures AllHold(a + b, row, like) <==> AllHold(a, row, like) && AllHold(b, row, like)
  {
    if AllHold(a + b, row, like) {
      forall t | t in a || t in b
        ensures Holds(t, row, like)
      {
        assert t in a + b;
      }
    }
  }

  lemma AskedHolds(on: bool, t: Test, row: Row, like: Pattern)
    ensures AllHold(Asked(on, t), row, like) <==> (on ==> Holds(t, row, like))
  {
    if on {
      assert t in Asked(on, t);
    }
  }

  lemma TimesMean(start: Option<int>, end: Option<int>, row: Row, like: Pattern)
    ensures AllHold(TimeTests(start, end), row, like) <==>
              && (start.Some? ==> NotBelow(row(CreatedAt), TimeArg(start.value)))
              && (end.Some? ==> NotBelow(TimeArg(end.value), row(CreatedAt)))
  {
    var a, b := Compare(CreatedAt, AtLeast, Moment(start)), Compare(CreatedAt, AtMost, Moment(end));
    AllHoldAppend(Asked(start.Some?, a), Asked(end.Some?, b), row, like);
    AskedHolds(start.Some?, a, row, like);
    AskedHolds(end.Some?, b, row, like);
  }

  lemma RequestMeans(f: LogFilter, row: Row, like: Pattern)
    ensures AllHold(RequestTests(f), row, like) <==>
              && (f.httpMethod != "" ==> row(Method) == TextArg(f.httpMethod))
              && (f.path != "" ==> like(row(Path), TextArg("%" + f.path + "%")))
  {
    var a, b := Compare(Method, Equal, TextArg(f.httpMethod)), Compare(Path, Like, Contains(f.path));
    AllHoldAppend(Asked(f.httpMethod != "", a), Asked(f.path != "", b), row, like);
    AskedHolds(f.httpMethod != "", a, row, like);
    AskedHolds(f.path != "", b, row, like);
  }

  lemma OutcomeMeans(f: LogFilter, row: Row, like: Pattern)
    ensures AllHold(OutcomeTests(f), row, like) <==>
              && (f.statusMin > 0 ==> NotBelow(row(Status), NumberArg(f.statusMin)))
              && (f.statusMax > 0 ==> NotBelow(NumberArg(f.statusMax), row(Status)))
              && (f.minDuration > 0 ==> NotBelow(row(Duration), NumberArg(f.minDuration)))
  {
    var a, b := Compare(Status, AtLeast, NumberArg(f.statusMin)), Compare(Status, AtMost, NumberArg(f.statusMax));
    var c := Compare(Duration, AtLeast, NumberArg(f.minDuration));
    AllHoldAppend(Asked(f.statusMin > 0, a) + Asked(f.statusMax > 0, b), Asked(f.minDuration > 0, c), row, like);
    AllHoldAppend(Asked(f.statusMin > 0, a), Asked(f.statusMax > 0, b), row, like);
    AskedHolds(f.statusMin > 0, a, row, like);
    AskedHolds(f.statusMax > 0, b, row, like);
    AskedHolds(f.minDuration > 0, c, row, like);
  }

  lemma OriginMeans(f: LogFilter, row: Row, like: Pattern)
    ensures var pattern := TextArg("%" + f.keyword + "%");
            AllHold(OriginTests(f), row, like) <==>
              && (f.keyword != "" ==> like(row(RequestBody), pattern) || like(row(ResponseBody), pattern))
              && (f.backend != "" ==> row(BackendURL) == TextArg(f.backend))
              && (f.requestID != "" ==> row(RequestID) == TextArg(f.requestID))
  {
    var a := Either(Compare(RequestBody, Like, Contains(f.keyword)), Compare(ResponseBody, Like, Contains(f.keyword)));
    var b, c := Compare(BackendURL, Equal, TextArg(f.backend)), Compare(RequestID, Equal, TextArg(f.requestID));
    AllHoldAppend(Asked(f.keyword != "", a) + Asked(f.backend != "", b), Asked(f.requestID != "", c), row, like);
    AllHoldAppend(Asked(f.keyword != "", a), Asked(f.backend != "", b), row, like);
    AskedHolds(f.keyword != "", a, row, like);
    AskedHolds(f.backend != "", b, row, like);
    AskedHolds(f.requestID != "", c, row, like);
  }

  /** A row passes the tests of a log filter if and only if it meets every bound, text and keyword that is set;
      the keyword may stand in either body. */
  lemma LogFilterMeans(f: LogFilter, row: Row, like: Pattern)
    ensures var pattern := TextArg("%" + f.keyword + "%");
            AllHold(LogTests(f), row, like) <==>
              && (f.start.Some? ==> NotBelow(row(CreatedAt), TimeArg(f.start.value)))
              && (f.end.Some? ==> NotBelow(TimeArg(f.end.value), row(CreatedAt)))
              && (f.httpMethod != "" ==> row(Method) == TextArg(f.httpMethod))
              && (f.path != "" ==> like(row(Path), TextArg("%" + f.path + "%")))
              && (f.statusMin > 0 ==> NotBelow(row(Status), NumberArg(f.statusMin)))
              && (f.statusMax > 0 ==> NotBelow(NumberArg(f.statusMax), row(Status)))
              && (f.minDuration > 0 ==> NotBelow(row(Duration), NumberArg(f.minDuration)))
              && (f.keyword != "" ==> like(row(RequestBody), pattern) || like(row(ResponseBody), pattern))
              && (f.backend != "" ==> row(BackendURL) == TextArg(f.backend))
              && (f.requestID != "" ==> row(RequestID) == TextArg(f.requestID))
  {
    var a, b, c, d := TimeTests(f.start, f.end), RequestTests(f), OutcomeTests(f), OriginTests(f);
    AllHoldAppend(a + b + c, d, row, like);
    AllHoldAppend(a + b, c, row, like);
    AllHoldAppend(a, b, row, like);
    TimesMean(f.start, f.end, row, like);
    RequestMeans(f, row, like);
    OutcomeMeans(f, row, like);
    OriginMeans(f, row, like);
  }

  /** The same for audit filters; an address is matched as a whole or as a beginning. */
  lemma AuditFilterMeans(f: AuditFilter, row: Row, like: Pattern)
    ensures AllHold(AuditTests(f), row, like) <==>
              && (f.start.Some? ==> NotBelow(row(CreatedAt), TimeArg(f.start.value)))
              && (f.end.Some? ==> NotBelow(TimeArg(f.end.value), row(CreatedAt)))
              && (f.username != "" ==> row(Username) == TextArg(f.username))
              && (f.ip != "" ==> row(IP) == TextArg(f.ip) || like(row(IP), TextArg(f.ip + "%")))
              && (f.keyword != "" ==> like(row(Action), TextArg("%" + f.keyword + "%")))
  {
    var a := Compare(Username, Equal, TextArg(f.username));
    var b := Either(Compare(IP, Equal, TextArg(f.ip)), Compare(IP, Like, TextArg(f.ip + "%")));
    var c := Compare(Action, Like, Contains(f.keyword));
    AllHoldAppend(TimeTests(f.start, f.end), PersonTests(f), row, like);
    TimesMean(f.start, f.end, row, like);
    AllHoldAppend(Asked(f.username != "", a) + Asked(f.ip != "", b), Asked(f.keyword != "", c), row, like);
    AllHoldAppend(Asked(f.username != "", a), Asked(f.ip != "", b), row, like);
    AskedHolds(f.username != "", a, row, like);
    AskedHolds(f.ip != "", b, row, like);
    AskedHolds(f.keyword != "", c, row, like);
  }

  // ----- How the conditions read -----

  function Joined(conds: seq<seq<Piece>>): seq<Piece> {
    if |conds| == 0 then []
    else if |conds| == 1 then conds[0]
    else Joined(conds[..|conds| - 1]) + Texts(" AND ") + conds[|conds| - 1]
  }

  function EachShown(tests: seq<Test>): seq<seq<Piece>> {
    seq(|tests|, i requires 0 <= i < |tests| => Shown(tests[i]))
  }

  lemma {:induction false} ShownIsJoined(tests: seq<Test>)
    ensures ShownAll(tests) == Joined(EachShown(tests))
    decreases |tests|
  {
    if |tests| > 1 {
      ShownIsJoined(tests[..|tests| - 1]);
      assert EachShown(tests)[..|tests| - 1] == EachShown(tests[..|tests| - 1]);
    }
  }

  lemma EachAppend(a: seq<Test>, b: seq<Test>)
    ensures EachShown(a + b) == EachShown(a) + EachShown(b)
  {
  }

  function When(on: bool, cond: seq<Piece>): seq<seq<Piece>> {
    if on then [cond] else []
  }

  lemma EachAsked(on: bool, t: Test)
    ensures EachShown(Asked(on, t)) == When(on, Shown(t))
  {
  }

  /** A text, a blank and a value. */
  function Condition(text: string, v: Arg): seq<Piece> {
    Texts(text) + [Char(' '), Bound(v)]
  }

  function Choice(a: seq<Piece>, b: seq<Piece>): seq<Piece> {
    Texts("(") + a + Texts(" OR ") + b + Texts(")")
  }

  lemma CompareReads(column: Column, op: Op, v: Arg, text: string)
    requires Name(column) + " " + Symbol(op) == text
    ensures Shown(Compare(column, op, v)) == Condition(text, v)
  {
  }

  lemma TimesRead(start: Option<int>, end: Option<int>)
    ensures EachShown(TimeTests(start, end))
         == When(start.Some?, Condition("created_at >=", if start.Some? then TimeArg(start.value) else TimeArg(0)))
          + When(end.Some?, Condition("created_at <=", if end.Some? then TimeArg(end.value) else TimeArg(0)))
  {
    var a, b := Compare(CreatedAt, AtLeast, Moment(start)), Compare(CreatedAt, AtMost, Moment(end));
    EachAppend(Asked(start.Some?, a), Asked(end.Some?, b));
    EachAsked(start.Some?, a);
    EachAsked(end.Some?, b);
    CompareReads(CreatedAt, AtLeast, Moment(start), "created_at >=");
    CompareReads(CreatedAt, AtMost, Moment(end), "created_at <=");
  }

  lemma RequestReads(f: LogFilter)
    ensures EachShown(RequestTests(f))
         == When(f.httpMethod != "", Condition("method =", TextArg(f.httpMethod)))
          + When(f.path != "", Condition("path LIKE", TextArg("%" + f.path + "%")))
  {
    var a, b := Compare(Method, Equal, TextArg(f.httpMethod)), Compare(Path, Like, Contains(f.path));
    EachAppend(Asked(f.httpMethod != "", a), Asked(f.path != "", b));
    EachAsked(f.httpMethod != "", a);
    EachAsked(f.path != "", b);
    CompareReads(Method, Equal, TextArg(f.httpMethod), "method =");
    CompareReads(Path, Like, Contains(f.path), "path LIKE");
  }

  lemma OutcomeReads(f: LogFilter)
    ensures EachShown(OutcomeTests(f))
         == When(f.statusMin > 0, Condition("status >=", NumberArg(f.statusMin)))
          + When(f.statusMax > 0, Condition("status <=", NumberArg(f.statusMax)))
          + When(f.minDuration > 0, Condition("duration >=", NumberArg(f.minDuration)))
  {
    var a, b := Compare(Status, AtLeast, NumberArg(f.statusMin)), Compare(Status, AtMost, NumberArg(f.statusMax));
    var c := Compare(Duration, AtLeast, NumberArg(f.minDuration));
    EachAppend(Asked(f.statusMin > 0, a) + Asked(f.statusMax > 0, b), Asked(f.minDuration > 0, c));
    EachAppend(Asked(f.statusMin > 0, a), Asked(f.statusMax > 0, b));
    EachAsked(f.statusMin > 0, a);
    EachAsked(f.statusMax > 0, b);
    EachAsked(f.minDuration > 0, c);
    CompareReads(Status, AtLeast, NumberArg(f.statusMin), "status >=");
    CompareReads(Status, AtMost, NumberArg(f.statusMax), "status <=");
    CompareReads(Duration, AtLeast, NumberArg(f.minDuration), "duration >=");
  }

  lemma KeywordReads(v: Arg)
    ensures Shown(Either(Compare(RequestBody, Like, v), Compare(ResponseBody, Like, v)))
         == Choice(Condition("request_body LIKE", v), Condition("response_body LIKE", v))
  {
    CompareReads(RequestBody, Like, v, "request_body LIKE");
    CompareReads(ResponseBody, Like, v, "response_body LIKE");
  }

  lemma OriginReads(f: LogFilter)
    ensures var pattern := TextArg("%" + f.keyword + "%");
            EachShown(OriginTests(f)) ==
              When(f.keyword != "", Choice(Condition("request_body LIKE", pattern), Condition("response_body LIKE", pattern)))
              + When(f.backend != "", Condition("backend_url =", TextArg(f.backend)))
              + When(f.requestID != "", Condition("request_id =", TextArg(f.requestID)))
  {
    var v := Contains(f.keyword);
    var a := Either(Compare(RequestBody, Like, v), Compare(ResponseBody, Like, v));
    var b, c := Compare(BackendURL, Equal, TextArg(f.backend)), Compare(RequestID, Equal, TextArg(f.requestID));
    EachAppend(Asked(f.keyword != "", a) + Asked(f.backend != "", b), Asked(f.requestID != "", c));
    EachAppend(Asked(f.keyword != "", a), Asked(f.backend != "", b));
    EachAsked(f.keyword != "", a);
    EachAsked(f.backend != "", b);
    EachAsked(f.requestID != "", c);
    KeywordReads(v);
    CompareReads(BackendURL, Equal, TextArg(f.backend), "backend_url =");
    CompareReads(RequestID, Equal, TextArg(f.requestID), "request_id =");
  }

  lemma FourParts(a: seq<Test>, b: seq<Test>, c: seq<Test>, d: seq<Test>)
    ensures EachShown(a + b + c + d) == EachShown(a) + (EachShown(b) + (EachShown(c) + EachShown(d)))
  {
    EachAppend(a + b + c, d);
    EachAppend(a + b, c);
    EachAppend(a, b);
  }

  /** The conditions of a log filter, as the database reads them. */
  lemma LogFilterReads(f: LogFilter)
    ensures var pattern := TextArg("%" + f.keyword + "%");
            ShownAll(LogTests(f)) == Joined(
              When(f.start.Some?, Condition("created_at >=", if f.start.Some? then TimeArg(f.start.value) else TimeArg(0)))
              + When(f.end.Some?, Condition("created_at <=", if f.end.Some? then TimeArg(f.end.value) else TimeArg(0)))
              + (When(f.httpMethod != "", Condition("method =", TextArg(f.httpMethod)))
                 + When(f.path != "", Condition("path LIKE", TextArg("%" + f.path + "%")))
                 + (When(f.statusMin > 0, Condition("status >=", NumberArg(f.statusMin)))
                    + When(f.statusMax > 0, Condition("status <=", NumberArg(f.statusMax)))
                    + When(f.minDuration > 0, Condition("duration >=", NumberArg(f.minDuration)))
                    + (When(f.keyword != "",
                            Choice(Condition("request_body LIKE", pattern), Condition("response_body LIKE", pattern)))
                       + When(f.backend != "", Condition("backend_url =", TextArg(f.backend)))
                       + When(f.requestID != "", Condition("request_id =", TextArg(f.requestID)))))))
  {
    ShownIsJoined(LogTests(f));
    FourParts(TimeTests(f.start, f.end), RequestTests(f), OutcomeTests(f), OriginTests(f));
    TimesRead(f.start, f.end);
    RequestReads(f);
    OutcomeReads(f);
    OriginReads(f);
  }

  lemma AddressReads(ip: string)
    ensures Shown(Either(Compare(IP, Equal, TextArg(ip)), Compare(IP, Like, TextArg(ip + "%"))))
         == Choice(Condition("ip =", TextArg(ip)), Condition("ip LIKE", TextArg(ip + "%")))
  {
    CompareReads(IP, Equal, TextArg(ip), "ip =");
    CompareReads(IP, Like, TextArg(ip + "%"), "ip LIKE");
  }

  lemma PersonReads(f: AuditFilter)
    ensures EachShown(PersonTests(f))
         == When(f.username != "", Condition("username =", TextArg(f.username)))
          + When(f.ip != "", Choice(Condition("ip =", TextArg(f.ip)), Condition("ip LIKE", TextArg(f.ip + "%"))))
          + When(f.keyword != "", Condition("action LIKE", TextArg("%" + f.keyword + "%")))
  {
    var a := Compare(Username, Equal, TextArg(f.username));
    var b := Either(Compare(IP, Equal, TextArg(f.ip)), Compare(IP, Like, TextArg(f.ip + "%")));
    var c := Compare(Action, Like, Contains(f.keyword));
    EachAppend(Asked(f.username != "", a) + Asked(f.ip != "", b), Asked(f.keyword != "", c));
    EachAppend(Asked(f.username != "", a), Asked(f.ip != "", b));
    EachAsked(f.username != "", a);
    EachAsked(f.ip != "", b);
    EachAsked(f.keyword != "", c);
    CompareReads(Username, Equal, TextArg(f.username), "username =");
    AddressReads(f.ip);
    CompareReads(Action, Like, Contains(f.keyword), "action LIKE");
  }

  /** The conditions of an audit filter, as the database reads them. */
  lemma AuditFilterReads(f: AuditFilter)
    ensures ShownAll(AuditTests(f)) == Joined(
              When(f.start.Some?, Condition("created_at >=", if f.start.Some? then TimeArg(f.start.value) else TimeArg(0)))
              + When(f.end.Some?, Condition("created_at <=", if f.end.Some? then TimeArg(f.end.value) else TimeArg(0)))
              + (When(f.username != "", Condition("username =", TextArg(f.username)))
                 + When(f.ip != "", Choice(Condition("ip =", TextArg(f.ip)), Condition("ip LIKE", TextArg(f.ip + "%"))))
                 + When(f.keyword != "", Condition("action LIKE", TextArg("%" + f.keyword + "%")))))
  {
    ShownIsJoined(AuditTests(f));
    EachAppend(TimeTests(f.start, f.end), PersonTests(f));
    TimesRead(f.start, f.end);
    PersonReads(f);
  }

  lemma TextsMerge(a: string, b: string, both: string, rest: seq<Piece>)
    requires a + b == both
    ensures Texts(a) + (Texts(b) + rest) == Texts(both) + rest
  {
  }

  lemma WhereReads(tests: seq<Test>)
    requires tests != []
    ensures Texts(" ") + ShownWhere(tests) == Texts(" WHERE ") + ShownAll(tests)
  {
    TextsMerge(" ", "WHERE ", " WHERE ", ShownAll(tests));
  }

  /** A list query as the database reads it: the conditions, if there are any, then the page. */
  lemma ListReads(select: string, tests: seq<Test>, page: int, pageSize: int)
    ensures var size := if 1 <= pageSize <= 200 then pageSize else 50;
            var offset := if page < 1 then 0 else (page - 1) * size;
            ShownList(select, tests, page, pageSize) ==
              Texts(select) + (if tests == [] then [] else Texts(" WHERE ") + ShownAll(tests))
              + Texts(" ORDER BY id DESC LIMIT") + [Char(' '), Bound(NumberArg(size))]
              + Texts(" OFFSET") + [Char(' '), Bound(NumberArg(offset))]
  {
    if tests != [] {
      WhereReads(tests);
    }
  }

  lemma CountReads(select: string, tests: seq<Test>)
    ensures ShownCount(select, tests) == Texts(select) + (if tests == [] then [] else Texts(" WHERE ") + ShownAll(tests))
  {
    if tests != [] {
      WhereReads(tests);
    }
  }
}
