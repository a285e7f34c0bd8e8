/** Web sessions: a login token carries the user's role and token version; every change of password
    or role bumps the version in the users table; the middleware compares the version of the token
    with the one it reads through a cache of thirty seconds. Table statements, cache accesses, clock
    readings and comparisons are separate steps, and those of different requests interleave freely;
    time passes between any two of them. */
module Sessions {

  type Instant = int

  const CACHE_TTL: int := 30_000_000_000

  datatype Row = Row(id: nat, hash: string, role: string, version: nat)

  type Users = map<string, Row>

  // ----- The statements on the users table -----

  function Created(t: Users, user: string, id: nat, hash: string, role: string): Users {
    t[user := Row(id, hash, if role == "" then "admin" else role, 0)]
  }

  function PasswordChanged(t: Users, user: string, hash: string): Users {
    if user in t then t[user := t[user].(hash := hash, version := t[user].version + 1)] else t
  }

  function RoleChanged(t: Users, id: nat, role: string): Users {
    map u | u in t :: if t[u].id == id then t[u].(role := role, version := t[u].version + 1) else t[u]
  }

  function Deleted(t: Users, id: nat): Users {
    map u | u in t && t[u].id != id :: t[u]
  }

  /** What a lookup learns: whether the user exists, and its token version. A failed query counts as
      a missing user. */
  datatype Reading = Reading(found: bool, version: int)

  const MISSING := Reading(false, 0)

  function Read(t: Users, user: string): Reading {
    if user in t then Reading(true, t[user].version) else MISSING
  }

  /** An entry stamped at `checkedAt` may still be used. */
  predicate Fresh(checkedAt: Instant, now: Instant) {
    now - checkedAt < CACHE_TTL
  }

  // ----- The interleaved system -----

  /** The row a login or a token was made from; `id` and `hash` are not in the token itself. */
  datatype Credentials = Credentials(user: string, id: nat, hash: string, role: string, version: nat)

  /** A reading, with the snapshot of the table it was taken from and the time when it was taken; `ok` tells
      whether the query succeeded. */
  datatype Data = Data(ok: bool, reading: Reading, readAt: nat, readTime: Instant)

  datatype Cached = Cached(data: Data, checkedAt: Instant)

  /** A cached reading carries the stamp of its entry and the time at which its age was checked. */
  datatype Source = FromTable | FromCache(checkedAt: Instant, agedAt: Instant)

  /** How far a request has come. */
  datatype Request =
    | Loaded(user: string, cached: Cached)                          // has an entry, its age not yet checked
    | Asking(user: string)                                          // will ask the table
    | Answered(user: string, data: Data)                            // the table has answered
    | Stamped(user: string, data: Data, checkedAt: Instant)         // has read the clock for the new entry
    | Ready(user: string, data: Data, source: Source)               // about to compare the versions

  /** What one request was judged by, and the snapshot and the time of the comparison. */
  datatype Verdict = Verdict(user: string, data: Data, source: Source, judgedAt: nat, time: Instant)

  /** A change handler between its statement, which made snapshot `since`, and the invalidation. */
  datatype Handler = Handler(user: string, since: nat)

  datatype Ticket = Ticket(n: nat)

  datatype State = State(
    history: seq<Users>,              // all snapshots of the table; the last is the table
    times: seq<Instant>,              // when each of them was made
    names: map<nat, string>,          // who got which row id; ids are never reused
    cache: map<string, Cached>,
    requests: map<Ticket, Request>,
    handlers: map<Ticket, Handler>,
    logins: map<Ticket, Credentials>, // logins that read the row and have not issued yet
    tokens: set<Credentials>,
    verdicts: seq<Verdict>,
    clock: Instant)

  datatype Event =
    | Tick(now: Instant)              // time passes
    | Create(user: string, id: nat, hash: string, role: string)
    | ResetPassword(h: Ticket, user: string, hash: string)
    | ChangeRole(h: Ticket, id: nat, role: string)
    | Delete(h: Ticket, id: nat)
    | Invalidate(h: Ticket)
    | LoginRead(l: Ticket, user: string)
    | Issue(l: Ticket)                // the password matched the hash that was read
    | Refuse(l: Ticket)
    | Load(q: Ticket, user: string)   // looks into the cache
    | CheckAge(q: Ticket)             // reads the clock to see whether the entry is fresh
    | ReadTable(q: Ticket, ok: bool)
    | Stamp(q: Ticket)                // reads the clock for the new entry
    | Store(q: Ticket)                // puts the entry into the cache
    | Judge(q: Ticket)                // compares the versions

  function Table(s: State): Users
    requires s.history != []
  {
    s.history[|s.history| - 1]
  }

  predicate Enabled(s: State, e: Event) {
    && s.history != []
    && match e
       case Tick(now) => s.clock <= now
       case Create(user, id, _, _) => user !in Table(s) && id !in s.names
       case ResetPassword(h, _, _) => h !in s.handlers
       case ChangeRole(h, id, _) => h !in s.handlers && id in s.names
       case Delete(h, id) => h !in s.handlers && id in s.names && s.names[id] in Table(s) && Table(s)[s.names[id]].id == id
       case Invalidate(h) => h in s.handlers
       case LoginRead(l, user) => l !in s.logins && user in Table(s)
       case Issue(l) => l in s.logins
       case Refuse(l) => l in s.logins
       case Load(q, _) => q !in s.requests
       case CheckAge(q) => q in s.requests && s.requests[q].Loaded?
       case ReadTable(q, _) => q in s.requests && s.requests[q].Asking?
       case Stamp(q) => q in s.requests && s.requests[q].Answered?
       case Store(q) => q in s.requests && s.requests[q].Stamped?
       case Judge(q) => q in s.requests && s.requests[q].Ready?
  }

  function NewTable(s: State, t: Users): State {
    s.(history := s.history + [t], times := s.times + [s.clock])
  }

  /** A handler ran its statement: a new snapshot, and an invalidation still to come. */
  function Changed(s: State, t: Users, h: Ticket, user: string): State {
    NewTable(s, t).(handlers := s.handlers[h := Handler(user, |s.history|)])
  }

  function Moved(s: State, q: Ticket, r: Request): State {
    s.(requests := s.requests[q := r])
  }

  /** An entry that is too old sends the request to the table. */
  function Aged(user: string, c: Cached, now: Instant): Request {
    if Fresh(c.checkedAt, now) then Ready(user, c.data, FromCache(c.checkedAt, now)) else Asking(user)
  }

  function Step(s: State, e: Event): State
    requires Enabled(s, e)
  {
    match e
    case Tick(now) => s.(clock := now)
    case Create(user, id, hash, role) =>
      NewTable(s, Created(Table(s), user, id, hash, role)).(names := s.names[id := user])
    case ResetPassword(h, user, hash) => Changed(s, PasswordChanged(Table(s), user, hash), h, user)
    case ChangeRole(h, id, role) => Changed(s, RoleChanged(Table(s), id, role), h, s.names[id])
    case Delete(h, id) => Changed(s, Deleted(Table(s), id), h, s.names[id])
    case Invalidate(h) => s.(cache := s.cache - {s.handlers[h].user}, handlers := s.handlers - {h})
    case LoginRead(l, user) =>
      var row := Table(s)[user];
      s.(logins := s.logins[l := Credentials(user, row.id, row.hash, row.role, row.version)])
    case Issue(l) => s.(tokens := s.tokens + {s.logins[l]}, logins := s.logins - {l})
    case Refuse(l) => s.(logins := s.logins - {l})
    case Load(q, user) => Moved(s, q, if user in s.cache then Loaded(user, s.cache[user]) else Asking(user))
    case CheckAge(q) => Moved(s, q, Aged(s.requests[q].user, s.requests[q].cached, s.clock))
    case ReadTable(q, ok) =>
      var user := s.requests[q].user;
      Moved(s, q, Answered(user, Data(ok, if ok then Read(Table(s), user) else MISSING, |s.history| - 1, s.clock)))
    case Stamp(q) => Moved(s, q, Stamped(s.requests[q].user, s.requests[q].data, s.clock))
    case Store(q) =>
      var r := s.requests[q];
      Moved(s, q, Ready(r.user, r.data, FromTable)).(cache := s.cache[r.user := Cached(r.data, r.checkedAt)])
    case Judge(q) =>
      var r := s.requests[q];
      s.(requests := s.requests - {q},
         verdicts := s.verdicts + [Verdict(r.user, r.data, r.source, |s.history| - 1, s.clock)])
  }

  const INITIAL := State([map[]], [0], map[], map[], map[], map[], map[], {}, [], 0)

  ghost predicate Runs(s: State, es: seq<Event>)
    decreases |es|
  {
    es == [] || (Enabled(s, es[0]) && Runs(Step(s, es[0]), es[1..]))
  }

  ghost function Final(s: State, es: seq<Event>): State
    requires Runs(s, es)
    decreases |es|
  {
    if es == [] then s else Final(Step(s, es[0]), es[1..])
  }

  lemma Prepend(s: State, e: Event, es: seq<Event>)
    requires Enabled(s, e) && Runs(Step(s, e), es)
    ensures Runs(s, [e] + es) && Final(s, [e] + es) == Final(Step(s, e), es)
  {
    assert ([e] + es)[1..] == es;
  }

  ghost predicate Reachable(s: State) {
    exists es :: Runs(INITIAL, es) && Final(INITIAL, es) == s
  }

  // ----- The history of the table -----

  /** Both snapshots hold the same row for the user, as its id tells. */
  ghost predicate SameRow(t: Users, t': Users, user: string) {
    user in t && user in t' && t[user].id == t'[user].id
  }

  /** The version of a row never falls, and as long as it stays the row does. */
  ghost predicate Grown(t: Users, t': Users, user: string) {
    SameRow(t, t', user) ==>
      t[user].version <= t'[user].version && (t[user].version == t'[user].version ==> t[user] == t'[user])
  }

  ghost predicate Grows(history: seq<Users>) {
    forall i, j, user :: 0 <= i <= j < |history| ==> Grown(history[i], history[j], user)
  }

  /** A row that is gone does not come back. */
  ghost predicate Lasting(history: seq<Users>) {
    forall i, j, k, user :: 0 <= i <= j <= k < |history| && SameRow(history[i], history[k], user)
      ==> SameRow(history[i], history[j], user)
  }

  ghost predicate Named(t: Users, names: map<nat, string>) {
    forall u :: u in t ==> t[u].id in names && names[t[u].id] == u
  }

  ghost predicate AllNamed(history: seq<Users>, names: map<nat, string>) {
    forall i :: 0 <= i < |history| ==> Named(history[i], names)
  }

  ghost predicate HistoryOk(history: seq<Users>, names: map<nat, string>) {
    history != [] && Grows(history) && Lasting(history) && AllNamed(history, names)
  }

  /** What one statement may do to the table: rows are kept, grown, removed, or made with a new id. */
  ghost predicate Statement(t: Users, t': Users, names: map<nat, string>, names': map<nat, string>) {
    && (forall id :: id in names ==> id in names' && names'[id] == names[id])
    && Named(t', names')
    && (forall u :: u in t' && t'[u].id in names ==> u in t && t[u].id == t'[u].id)
    && (forall u :: Grown(t, t', u))
  }

  lemma StatementGrows(history: seq<Users>, names: map<nat, string>, t': Users, names': map<nat, string>, i: nat, user: string)
    requires HistoryOk(history, names) && Statement(history[|history| - 1], t', names, names')
    requires i < |history| && SameRow(history[i], t', user)
    ensures SameRow(history[i], history[|history| - 1], user) && Grown(history[i], t', user)
  {
    var t := history[|history| - 1];
    assert Named(history[i], names);
    assert Grown(history[i], t, user) && Grown(t, t', user);
  }

  lemma StatementLasts(history: seq<Users>, names: map<nat, string>, t': Users, names': map<nat, string>)
    requires HistoryOk(history, names) && Statement(history[|history| - 1], t', names, names')
    ensures Lasting(history + [t'])
  {
    var more := history + [t'];
    forall i, j, k, user | 0 <= i <= j <= k < |more| && SameRow(more[i], more[k], user)
      ensures SameRow(more[i], more[j], user)
    {
      if i < |history| && k == |history| && j < |history| {
        StatementGrows(history, names, t', names', i, user);
        assert SameRow(history[i], history[|history| - 1], user);
      }
    }
  }

  lemma StatementExtends(history: seq<Users>, names: map<nat, string>, t': Users, names': map<nat, string>)
    requires HistoryOk(history, names) && Statement(history[|history| - 1], t', names, names')
    ensures HistoryOk(history + [t'], names')
  {
    var more := history + [t'];
    StatementLasts(history, names, t', names');
    forall i, j, user | 0 <= i <= j < |more|
      ensures Grown(more[i], more[j], user)
    {
      if i < |history| && j == |history| && SameRow(more[i], more[j], user) {
        StatementGrows(history, names, t', names', i, user);
      }
    }
    forall i | 0 <= i < |more|
      ensures Named(more[i], names')
    {
      if i < |history| {
        assert Named(history[i], names);
      }
    }
  }

  lemma CreateIsStatement(s: State, user: string, id: nat, hash: string, role: string)
    requires HistoryOk(s.history, s.names) && Enabled(s, Create(user, id, hash, role))
    ensures Statement(Table(s), Created(Table(s), user, id, hash, role), s.names, s.names[id := user])
  {
    assert Named(Table(s), s.names);
  }

  lemma ChangeIsStatement(s: State, user: string, hash: string, id: nat, role: string)
    requires HistoryOk(s.history, s.names)
    ensures Statement(Table(s), PasswordChanged(Table(s), user, hash), s.names, s.names)
    ensures Statement(Table(s), RoleChanged(Table(s), id, role), s.names, s.names)
    ensures Statement(Table(s), Deleted(Table(s), id), s.names, s.names)
  {
    assert Named(Table(s), s.names);
  }

  predicate ChangesTable(e: Event) {
    e.Create? || e.ResetPassword? || e.ChangeRole? || e.Delete?
  }

  lemma StepIsStatement(s: State, e: Event)
    requires Enabled(s, e) && ChangesTable(e) && HistoryOk(s.history, s.names)
    ensures Statement(Table(s), Table(Step(s, e)), s.names, Step(s, e).names)
  {
    match e
    case Create(user, id, hash, role) => CreateIsStatement(s, user, id, hash, role);
    case ResetPassword(_, user, hash) => ChangeIsStatement(s, user, hash, 0, "");
    case ChangeRole(_, id, role) => ChangeIsStatement(s, "", "", id, role);
    case Delete(_, id) => ChangeIsStatement(s, "", "", id, "");
  }

  lemma OneSnapshot(s: State, e: Event)
    requires Enabled(s, e)
    ensures if ChangesTable(e) then Step(s, e).history == s.history + [Table(Step(s, e))]
            else Step(s, e).history == s.history && Step(s, e).names == s.names
  {
  }

  lemma HistoryKept(s: State, e: Event)
    requires Enabled(s, e) && HistoryOk(s.history, s.names)
    ensures HistoryOk(Step(s, e).history, Step(s, e).names)
  {
    OneSnapshot(s, e);
    if ChangesTable(e) {
      StepIsStatement(s, e);
      StatementExtends(s.history, s.names, Table(Step(s, e)), Step(s, e).names);
    }
  }

  // ----- Where tokens come from -----

  predicate HeldBy(t: Users, c: Credentials) {
    c.user in t && t[c.user] == Row(c.id, c.hash, c.role, c.version)
  }

  /** Some snapshot held exactly these credentials. */
  ghost predicate Witnessed(history: seq<Users>, c: Credentials) {
    exists k :: 0 <= k < |history| && HeldBy(history[k], c)
  }

  ghost predicate AllWitnessed(s: State) {
    && (forall l :: l in s.logins ==> Witnessed(s.history, s.logins[l]))
    && (forall c :: c in s.tokens ==> Witnessed(s.history, c))
  }

  lemma WitnessStays(history: seq<Users>, history': seq<Users>, c: Credentials)
    requires history <= history' && Witnessed(history, c)
    ensures Witnessed(history', c)
  {
    var k :| 0 <= k < |history| && HeldBy(history[k], c);
    assert HeldBy(history'[k], c);
  }

  lemma WitnessesKept(s: State, e: Event)
    requires Enabled(s, e) && AllWitnessed(s)
    ensures AllWitnessed(Step(s, e))
  {
    var s' := Step(s, e);
    assert s.history <= s'.history;
    forall c | Witnessed(s.history, c)
      ensures Witnessed(s'.history, c)
    {
      WitnessStays(s.history, s'.history, c);
    }
    if e.LoginRead? {
      assert HeldBy(s'.history[|s.history| - 1], s'.logins[e.l]);
    }
  }

  // ----- Where readings come from -----

  ghost predicate TimesOk(s: State) {
    && s.history != [] && |s.times| == |s.history|
    && (forall i, j :: 0 <= i <= j < |s.times| ==> s.times[i] <= s.times[j])
    && s.times[|s.times| - 1] <= s.clock
  }

  /** Snapshot `k` was the table at time `t`. */
  ghost predicate CurrentAt(s: State, k: nat, t: Instant) {
    && k < |s.history| == |s.times|
    && s.times[k] <= t <= s.clock
    && (forall j :: k < j < |s.times| ==> t <= s.times[j])
  }

  /** The data were read from the named snapshot while it was the table, or the query failed then. */
  ghost predicate DataOk(s: State, user: string, d: Data) {
    && CurrentAt(s, d.readAt, d.readTime)
    && d.reading == if d.ok then Read(s.history[d.readAt], user) else MISSING
  }

  ghost predicate StampOk(s: State, d: Data, checkedAt: Instant) {
    d.readTime <= checkedAt <= s.clock
  }

  ghost predicate SourceOk(s: State, d: Data, source: Source) {
    source.FromCache? ==>
      && d.readTime <= source.checkedAt <= source.agedAt <= s.clock
      && source.agedAt - source.checkedAt < CACHE_TTL
  }

  ghost predicate RequestOk(s: State, r: Request) {
    match r
    case Loaded(user, c) => DataOk(s, user, c.data) && StampOk(s, c.data, c.checkedAt)
    case Asking(_) => true
    case Answered(user, d) => DataOk(s, user, d)
    case Stamped(user, d, checkedAt) => DataOk(s, user, d) && StampOk(s, d, checkedAt)
    case Ready(user, d, source) => DataOk(s, user, d) && SourceOk(s, d, source)
  }

  ghost predicate VerdictOk(s: State, v: Verdict) {
    && DataOk(s, v.user, v.data) && SourceOk(s, v.data, v.source)
    && CurrentAt(s, v.judgedAt, v.time)
    && v.data.readAt <= v.judgedAt && v.data.readTime <= v.time
    && (v.source.FromCache? ==> v.source.agedAt <= v.time)
  }

  ghost predicate CacheOk(s: State) {
    forall u :: u in s.cache ==> DataOk(s, u, s.cache[u].data) && StampOk(s, s.cache[u].data, s.cache[u].checkedAt)
  }

  ghost predicate RequestsOk(s: State) {
    forall q :: q in s.requests ==> RequestOk(s, s.requests[q])
  }

  ghost predicate VerdictsOk(s: State) {
    forall v :: v in s.verdicts ==> VerdictOk(s, v)
  }

  ghost predicate HandlersOk(s: State) {
    forall h :: h in s.handlers ==> s.handlers[h].since < |s.history|
  }

  /** The history and the clock of `s'` continue those of `s`. */
  ghost predicate Extends(s: State, s': State) {
    && s.history <= s'.history && s.times <= s'.times && s.clock <= s'.clock
    && |s'.history| == |s'.times|
    && (forall j :: |s.times| <= j < |s'.times| ==> s'.times[j] == s.clock)
  }

  /** Only the statements extend history and times, and only by one. */
  lemma StepTimes(s: State, e: Event)
    requires Enabled(s, e)
    ensures var s' := Step(s, e);
            if ChangesTable(e) then s'.history == s.history + [Table(s')] && s'.times == s.times + [s.clock] && s'.clock == s.clock
            else s'.history == s.history && s'.times == s.times && s.clock <= s'.clock
  {
  }

  lemma StepExtends(s: State, e: Event)
    requires Enabled(s, e) && TimesOk(s)
    ensures Extends(s, Step(s, e)) && TimesOk(Step(s, e))
  {
    StepTimes(s, e);
  }

  lemma CurrentStays(s: State, s': State, k: nat, t: Instant)
    requires Extends(s, s') && CurrentAt(s, k, t)
    ensures CurrentAt(s', k, t)
  {
  }

  lemma DataStays(s: State, s': State, user: string, d: Data)
    requires Extends(s, s') && DataOk(s, user, d)
    ensures DataOk(s', user, d)
  {
    CurrentStays(s, s', d.readAt, d.readTime);
    assert s'.history[d.readAt] == s.history[d.readAt];
  }

  lemma RequestStays(s: State, s': State, r: Request)
    requires Extends(s, s') && RequestOk(s, r)
    ensures RequestOk(s', r)
  {
    match r
    case Loaded(user, c) => DataStays(s, s', user, c.data);
    case Asking(_) =>
    case Answered(user, d) => DataStays(s, s', user, d);
    case Stamped(user, d, _) => DataStays(s, s', user, d);
    case Ready(user, d, _) => DataStays(s, s', user, d);
  }

  lemma CacheKept(s: State, e: Event)
    requires Enabled(s, e) && TimesOk(s) && CacheOk(s) && RequestsOk(s)
    ensures CacheOk(Step(s, e))
  {
    var s' := Step(s, e);
    StepExtends(s, e);
    forall u | u in s'.cache
      ensures DataOk(s', u, s'.cache[u].data) && StampOk(s', s'.cache[u].data, s'.cache[u].checkedAt)
    {
      if e.Store? && u == s.requests[e.q].user {
        DataStays(s, s', u, s.requests[e.q].data);
      } else {
        DataStays(s, s', u, s.cache[u].data);
      }
    }
  }

  /** The step of one request leaves it with data in order. */
  lemma OwnStepOk(s: State, e: Event)
    requires Enabled(s, e) && TimesOk(s) && CacheOk(s) && RequestsOk(s)
    requires e.Load? || e.CheckAge? || e.ReadTable? || e.Stamp? || e.Store?
    ensures RequestOk(s, Step(s, e).requests[e.q])
  {
  }

  lemma RequestsKept(s: State, e: Event)
    requires Enabled(s, e) && TimesOk(s) && CacheOk(s) && RequestsOk(s)
    ensures RequestsOk(Step(s, e))
  {
    var s' := Step(s, e);
    StepExtends(s, e);
    forall q | q in s'.requests
      ensures RequestOk(s', s'.requests[q])
    {
      if (e.Load? || e.CheckAge? || e.ReadTable? || e.Stamp? || e.Store?) && q == e.q {
        OwnStepOk(s, e);
        RequestStays(s, s', s'.requests[q]);
      } else {
        RequestStays(s, s', s.requests[q]);
      }
    }
  }

  lemma VerdictStays(s: State, s': State, v: Verdict)
    requires Extends(s, s') && VerdictOk(s, v)
    ensures VerdictOk(s', v)
  {
    DataStays(s, s', v.user, v.data);
    CurrentStays(s, s', v.judgedAt, v.time);
  }

  lemma VerdictsKept(s: State, e: Event)
    requires Enabled(s, e) && TimesOk(s) && RequestsOk(s) && VerdictsOk(s)
    ensures VerdictsOk(Step(s, e))
  {
    var s' := Step(s, e);
    StepExtends(s, e);
    forall v | v in s'.verdicts
      ensures VerdictOk(s', v)
    {
      if v in s.verdicts {
        VerdictStays(s, s', v);
      } else {
        assert RequestOk(s, s.requests[e.q]);
      }
    }
  }

  ghost predicate Inv(s: State) {
    && HistoryOk(s.history, s.names) && AllWitnessed(s)
    && TimesOk(s) && CacheOk(s) && RequestsOk(s) && VerdictsOk(s) && HandlersOk(s)
  }

  lemma InvKept(s: State, e: Event)
    requires Enabled(s, e) && Inv(s)
    ensures Inv(Step(s, e))
  {
    HistoryKept(s, e);
    WitnessesKept(s, e);
    StepExtends(s, e);
    CacheKept(s, e);
    RequestsKept(s, e);
    VerdictsKept(s, e);
  }

  lemma {:induction false} RunInv(s: State, es: seq<Event>)
    requires Runs(s, es) && Inv(s)
    ensures Inv(Final(s, es))
    decreases |es|
  {
    if es != [] {
      InvKept(s, es[0]);
      RunInv(Step(s, es[0]), es[1..]);
    }
  }

  lemma InitialInv()
    ensures Inv(INITIAL)
  {
  }

  lemma ReachableInv(s: State)
    requires Reachable(s)
    ensures Inv(s)
  {
    var es :| Runs(INITIAL, es) && Final(INITIAL, es) == s;
    InitialInv();
    RunInv(INITIAL, es);
  }

  // ----- The version determines the credentials -----

  /** Credentials read from snapshot `k`, compared with the row of the same id in another one. */
  lemma SameRowSameVersion(history: seq<Users>, k: nat, j: nat, c: Credentials)
    requires Grows(history) && k < |history| && j < |history| && HeldBy(history[k], c)
    requires c.user in history[j] && history[j][c.user].id == c.id
    ensures k <= j ==> c.version <= history[j][c.user].version
    ensures c.version == history[j][c.user].version ==> HeldBy(history[j], c)
  {
    if k <= j {
      assert Grown(history[k], history[j], c.user);
    } else {
      assert Grown(history[j], history[k], c.user);
    }
  }

  /** In every interleaving: an issued token whose version equals the version in the table carries the
      current role and came from a login checked against the current password hash if and only if the
      row is still the one it was made from, and not one made again under the same name. */
  lemma CredentialsExactly(s: State, c: Credentials)
    requires Reachable(s) && c in s.tokens
    ensures s.history != []
    ensures c.user in Table(s) && Table(s)[c.user].id == c.id ==> c.version <= Table(s)[c.user].version
    ensures c.user in Table(s) && c.version == Table(s)[c.user].version ==>
              (HeldBy(Table(s), c) <==> Table(s)[c.user].id == c.id)
  {
    ReachableInv(s);
    assert Witnessed(s.history, c);
    var k :| 0 <= k < |s.history| && HeldBy(s.history[k], c);
    if c.user in Table(s) && Table(s)[c.user].id == c.id {
      SameRowSameVersion(s.history, k, |s.history| - 1, c);
    }
  }

  /** The row of `user`, once made, stays: no snapshot loses or replaces it. */
  ghost predicate NeverDeleted(history: seq<Users>, user: string) {
    forall i, j :: 0 <= i <= j < |history| && user in history[i] ==> SameRow(history[i], history[j], user)
  }

  /** In particular, for a row that was never deleted, an equal version is enough. */
  lemma VersionDeterminesCredentials(s: State, c: Credentials)
    requires Reachable(s) && c in s.tokens && NeverDeleted(s.history, c.user)
    ensures s.history != [] && c.user in Table(s)
    ensures c.version <= Table(s)[c.user].version
    ensures c.version == Table(s)[c.user].version ==> HeldBy(Table(s), c)
  {
    ReachableInv(s);
    assert Witnessed(s.history, c);
    var k :| 0 <= k < |s.history| && HeldBy(s.history[k], c);
    assert SameRow(s.history[k], Table(s), c.user);
    CredentialsExactly(s, c);
  }

  predicate Accepts(v: Verdict, c: Credentials) {
    v.user == c.user && v.data.reading.found && v.data.reading.version == c.version
  }

  /** What acceptance means, cache and all: the token of an accepted request carries the credentials that
      the snapshot it was judged by held, if and only if that snapshot held the row it was made from. */
  lemma AcceptanceExactly(s: State, v: Verdict, c: Credentials)
    requires Reachable(s) && v in s.verdicts && c in s.tokens && Accepts(v, c)
    ensures v.data.readAt < |s.history| && c.user in s.history[v.data.readAt]
    ensures HeldBy(s.history[v.data.readAt], c) <==> s.history[v.data.readAt][c.user].id == c.id
  {
    ReachableInv(s);
    assert VerdictOk(s, v);
    assert Witnessed(s.history, c);
    var k :| 0 <= k < |s.history| && HeldBy(s.history[k], c);
    if s.history[v.data.readAt][c.user].id == c.id {
      SameRowSameVersion(s.history, k, v.data.readAt, c);
    }
  }

  /** Conversely, a token that the snapshot held is accepted, unless the query failed. */
  lemma HeldTokenAccepted(s: State, v: Verdict, c: Credentials)
    requires Reachable(s) && v in s.verdicts && v.user == c.user
    ensures v.data.readAt < |s.history|
    ensures v.data.ok && HeldBy(s.history[v.data.readAt], c) ==> Accepts(v, c)
  {
    ReachableInv(s);
    assert VerdictOk(s, v);
  }

  // ----- What the statements store -----

  /** The whole new table after each statement, row by row. */
  lemma StatementsStore(s: State, e: Event)
    requires Reachable(s) && Enabled(s, e) && ChangesTable(e)
    ensures var t, t' := Table(s), Table(Step(s, e));
            match e
            case Create(user, id, hash, role) => t' == t[user := Row(id, hash, if role == "" then "admin" else role, 0)]
            case ResetPassword(_, user, hash) =>
              if user in t then t' == t[user := Row(t[user].id, hash, t[user].role, t[user].version + 1)] else t' == t
            case ChangeRole(_, id, role) =>
              var user := s.names[id];
              if user in t && t[user].id == id then t' == t[user := Row(id, t[user].hash, role, t[user].version + 1)] else t' == t
            case Delete(_, id) => t' == t - {s.names[id]}
  {
    ReachableInv(s);
    assert Named(Table(s), s.names);
  }

  /** The handler of a change will invalidate the user whose row changed, and remembers the snapshot it made. */
  lemma HandlerKnowsUser(s: State, e: Event, u: string)
    requires Reachable(s) && Enabled(s, e) && ChangesTable(e) && !e.Create?
    requires var t, t' := Table(s), Table(Step(s, e));
             !(u in t <==> u in t') || (u in t && u in t' && t[u] != t'[u])
    ensures e.h in Step(s, e).handlers && Step(s, e).handlers[e.h] == Handler(u, |Step(s, e).history| - 1)
  {
    StatementsStore(s, e);
  }

  /** A login reads the current row, and what it issues are the credentials it read. */
  lemma LoginReadsCurrent(s: State, l: Ticket, user: string)
    requires Enabled(s, LoginRead(l, user))
    ensures var s' := Step(s, LoginRead(l, user));
            && l in s'.logins && s'.logins[l].user == user && HeldBy(Table(s), s'.logins[l])
            && Enabled(s', Issue(l)) && Step(s', Issue(l)).tokens == s.tokens + {s'.logins[l]}
            && Enabled(s', Refuse(l)) && Step(s', Refuse(l)).tokens == s.tokens
  {
  }

  /** Credentials read at any time before the end of a run, compared with the row of an earlier table. */
  lemma RowInForce(s: State, es: seq<Event>, c: Credentials)
    requires Reachable(s) && s.history != [] && Runs(s, es)
    requires c in Final(s, es).tokens || exists l :: l in Final(s, es).logins && Final(s, es).logins[l] == c
    requires c.user in Table(s) && c.id == Table(s)[c.user].id && c.version == Table(s)[c.user].version
    ensures HeldBy(Table(s), c)
  {
    var last := Final(s, es);
    ReachableInv(s);
    RunInv(s, es);
    HistoryPrefix(s, es);
    assert Witnessed(last.history, c);
    var k :| 0 <= k < |last.history| && HeldBy(last.history[k], c);
    SameRowSameVersion(last.history, k, |s.history| - 1, c);
  }

  /** A reset takes effect: however the run goes on, every login and every token with the version that the
      reset gave the row was checked against the new hash, and has the role the row had. */
  lemma NewPasswordInForce(s: State, h: Ticket, user: string, hash: string, es: seq<Event>, c: Credentials)
    requires Reachable(s) && Enabled(s, ResetPassword(h, user, hash)) && user in Table(s)
    requires var s' := Step(s, ResetPassword(h, user, hash));
             Runs(s', es) && (c in Final(s', es).tokens || exists l :: l in Final(s', es).logins && Final(s', es).logins[l] == c)
    requires c.user == user && c.id == Table(s)[user].id && c.version == Table(s)[user].version + 1
    ensures c.hash == hash && c.role == Table(s)[user].role
  {
    var e := ResetPassword(h, user, hash);
    StatementsStore(s, e);
    ReachableStep(s, e);
    RowInForce(Step(s, e), es, c);
  }

  /** So does a change of the role. */
  lemma NewRoleInForce(s: State, h: Ticket, id: nat, role: string, es: seq<Event>, c: Credentials)
    requires Reachable(s) && Enabled(s, ChangeRole(h, id, role))
    requires s.names[id] in Table(s) && Table(s)[s.names[id]].id == id
    requires var s' := Step(s, ChangeRole(h, id, role));
             Runs(s', es) && (c in Final(s', es).tokens || exists l :: l in Final(s', es).logins && Final(s', es).logins[l] == c)
    requires c.user == s.names[id] && c.id == id && c.version == Table(s)[c.user].version + 1
    ensures c.role == role && c.hash == Table(s)[c.user].hash
  {
    var e := ChangeRole(h, id, role);
    StatementsStore(s, e);
    ReachableStep(s, e);
    RowInForce(Step(s, e), es, c);
  }

  lemma {:induction false} Append(s: State, es: seq<Event>, e: Event)
    requires Runs(s, es) && Enabled(Final(s, es), e)
    ensures Runs(s, es + [e]) && Final(s, es + [e]) == Step(Final(s, es), e)
    decreases |es|
  {
    if es == [] {
      Prepend(s, e, []);
      assert [] + [e] == [e] + [];
    } else {
      Append(Step(s, es[0]), es[1..], e);
      Prepend(s, es[0], es[1..] + [e]);
      assert [es[0]] + (es[1..] + [e]) == es + [e];
    }
  }

  lemma ReachableStep(s: State, e: Event)
    requires Reachable(s) && Enabled(s, e)
    ensures Reachable(Step(s, e))
  {
    var es :| Runs(INITIAL, es) && Final(INITIAL, es) == s;
    Append(INITIAL, es, e);
  }

  const OLD_TOKEN := Credentials("u", 0, "old", "admin", 0)

  lemma IssueOldToken() returns (s: State)
    ensures Reachable(s) && s.history != [] && s.handlers == map[] && s.names == map[0 := "u"]
    ensures s.requests == map[] && s.cache == map[] && s.verdicts == []
    ensures Table(s) == map["u" := Row(0, "old", "admin", 0)] && OLD_TOKEN in s.tokens
  {
    var t := Ticket(0);
    assert Runs(INITIAL, []) && Final(INITIAL, []) == INITIAL;
    var e1 := Create("u", 0, "old", "admin");
    ReachableStep(INITIAL, e1);
    var s1 := Step(INITIAL, e1);
    ReachableStep(s1, LoginRead(t, "u"));
    var s2 := Step(s1, LoginRead(t, "u"));
    assert s2.logins[t] == OLD_TOKEN;
    ReachableStep(s2, Issue(t));
    s := Step(s2, Issue(t));
  }

  /** The condition matters: a user made again under the same name starts at version 0, and a token of the
      old row then has the current version with the old role. */
  lemma RecreatedUserKeepsOldToken() returns (s: State)
    ensures Reachable(s) && OLD_TOKEN in s.tokens && s.history != [] && OLD_TOKEN.user in Table(s)
    ensures OLD_TOKEN.version == Table(s)[OLD_TOKEN.user].version && OLD_TOKEN.role != Table(s)[OLD_TOKEN.user].role
  {
    var s3 := IssueOldToken();
    var e4 := Delete(Ticket(0), 0);
    ReachableStep(s3, e4);
    var s4 := Step(s3, e4);
    assert "u" !in Table(s4);
    var e5 := Create("u", 1, "new", "viewer");
    ReachableStep(s4, e5);
    s := Step(s4, e5);
    assert Table(s)["u"] == Row(1, "new", "viewer", 0);
  }

  // ----- Staleness of the cache -----

  /** The snapshot at which a reading stopped being true. */
  lemma {:induction false} ChangePoint(history: seq<Users>, user: string, a: nat, b: nat) returns (k: nat)
    requires a <= b < |history| && Read(history[a], user) != Read(history[b], user)
    ensures a < k <= b && Read(history[k - 1], user) == Read(history[a], user) != Read(history[k], user)
    decreases b
  {
    if Read(history[b - 1], user) == Read(history[a], user) {
      k := b;
    } else {
      k := ChangePoint(history, user, a, b - 1);
    }
  }

  /** How long before the comparison the reading was taken, at most: a cached one by less than thirty
      seconds, plus the time the storing request took from the table to its stamp, plus the time the
      judged request took from checking the age to the comparison. */
  predicate WithinBound(v: Verdict, since: Instant) {
    v.source.FromCache? ==>
      v.time - since < CACHE_TTL + (v.source.checkedAt - v.data.readTime) + (v.time - v.source.agedAt)
  }

  /** The verdict was judged by what the table said, and the table said something else by then. */
  ghost predicate OutdatedVerdict(s: State, v: Verdict)
    requires v.judgedAt < |s.history|
  {
    v.data.ok && v.data.reading != Read(s.history[v.judgedAt], v.user)
  }

  /** Snapshot `k` ended what the verdict was judged by. */
  ghost predicate OutdatedAt(s: State, v: Verdict, k: nat) {
    && v.data.readAt < k <= v.judgedAt < |s.history|
    && Read(s.history[k - 1], v.user) == v.data.reading != Read(s.history[k], v.user)
  }

  /** Every request ever judged was judged by what some snapshot of the table really said when it was the
      table, that the user is unknown included, or as an unknown user after a failed query. If that was
      outdated by then, the change that outdated it came after the reading, and no longer ago than the
      bound. */
  lemma VerdictsBoundedlyStale(s: State, v: Verdict) returns (k: nat)
    requires Reachable(s) && v in s.verdicts
    ensures v.data.readAt <= v.judgedAt < |s.history| == |s.times|
    ensures v.data.reading == if v.data.ok then Read(s.history[v.data.readAt], v.user) else MISSING
    ensures s.times[v.data.readAt] <= v.data.readTime <= v.time && WithinBound(v, v.data.readTime)
    ensures OutdatedVerdict(s, v) ==>
              OutdatedAt(s, v, k) && v.data.readTime <= s.times[k] <= v.time && WithinBound(v, s.times[k])
  {
    ReachableInv(s);
    assert VerdictOk(s, v);
    k := 0;
    if OutdatedVerdict(s, v) {
      k := ChangePoint(s.history, v.user, v.data.readAt, v.judgedAt);
      assert s.times[k] <= s.times[v.judgedAt];
    }
  }

  const SLOW := Ticket(1)
  const QUICK := Ticket(2)

  lemma LookOnce() returns (s: State, d: Data)
    ensures Reachable(s) && s.history != [] && s.requests == map[SLOW := Answered("u", d)]
    ensures s.cache == map[] && s.verdicts == [] && s.handlers == map[]
    ensures Table(s) == map["u" := Row(0, "old", "admin", 0)]
    ensures d == Data(true, Reading(true, 0), |s.history| - 1, s.clock)
  {
    var s0 := IssueOldToken();
    ReachableStep(s0, Load(SLOW, "u"));
    var s1 := Step(s0, Load(SLOW, "u"));
    ReachableStep(s1, ReadTable(SLOW, true));
    s := Step(s1, ReadTable(SLOW, true));
    d := s.requests[SLOW].data;
  }

  /** A request has read the table, then the password is changed and the cache invalidated, all at once. */
  lemma ChangeBehindLookup() returns (s: State, d: Data)
    ensures Reachable(s) && s.requests == map[SLOW := Answered("u", d)]
    ensures |s.history| == |s.times| > 1 && d == Data(true, Reading(true, 0), |s.history| - 2, s.clock)
    ensures s.times[|s.times| - 1] == s.clock
    ensures Read(s.history[|s.history| - 2], "u") == Reading(true, 0) && Read(Table(s), "u") == Reading(true, 1)
  {
    var s2;
    s2, d := LookOnce();
    var change := ResetPassword(Ticket(0), "u", "new");
    ReachableStep(s2, change);
    var s3 := Step(s2, change);
    ReachableStep(s3, Invalidate(Ticket(0)));
    s := Step(s3, Invalidate(Ticket(0)));
    ReachableInv(s);
  }

  lemma Wait(s0: State, delay: nat) returns (s: State)
    requires Reachable(s0) && s0.history != []
    ensures Reachable(s) && s == s0.(clock := s0.clock + delay)
  {
    ReachableStep(s0, Tick(s0.clock + delay));
    s := Step(s0, Tick(s0.clock + delay));
  }

  /** The slow request stores what it has. */
  lemma StoreNow(s0: State, d: Data) returns (s: State)
    requires Reachable(s0) && s0.history != [] && s0.requests == map[SLOW := Answered("u", d)]
    ensures Reachable(s) && s.history == s0.history && s.times == s0.times && s.clock == s0.clock
    ensures QUICK !in s.requests && "u" in s.cache && s.cache["u"] == Cached(d, s0.clock)
    ensures SLOW in s.requests && s.requests[SLOW] == Ready("u", d, FromTable)
  {
    ReachableStep(s0, Stamp(SLOW));
    var s1 := Step(s0, Stamp(SLOW));
    ReachableStep(s1, Store(SLOW));
    s := Step(s1, Store(SLOW));
  }

  /** A request finds the entry that was just made and checks its age after `age`. */
  lemma FindEntry(s0: State, d: Data, age: nat) returns (s: State)
    requires Reachable(s0) && s0.history != [] && QUICK !in s0.requests && age < CACHE_TTL
    requires "u" in s0.cache && s0.cache["u"] == Cached(d, s0.clock)
    ensures Reachable(s) && s.history == s0.history && s.times == s0.times && s.clock == s0.clock + age
    ensures QUICK in s.requests && s.requests[QUICK] == Ready("u", d, FromCache(s0.clock, s0.clock + age))
  {
    ReachableStep(s0, Load(QUICK, "u"));
    var s1 := Wait(Step(s0, Load(QUICK, "u")), age);
    ReachableStep(s1, CheckAge(QUICK));
    s := Step(s1, CheckAge(QUICK));
  }

  lemma JudgeAfter(s0: State, q: Ticket, user: string, d: Data, source: Source, wait: nat) returns (s: State, v: Verdict)
    requires Reachable(s0) && s0.history != [] && q in s0.requests && s0.requests[q] == Ready(user, d, source)
    ensures Reachable(s) && s.history == s0.history && s.times == s0.times
    ensures v in s.verdicts && v == Verdict(user, d, source, |s.history| - 1, s0.clock + wait)
  {
    var s1 := Wait(s0, wait);
    ReachableStep(s1, Judge(q));
    s := Step(s1, Judge(q));
    v := s.verdicts[|s1.verdicts|];
  }

  lemma QuickRequest(s0: State, d: Data, age: nat, wait: nat) returns (s: State, v: Verdict)
    requires Reachable(s0) && s0.history != [] && QUICK !in s0.requests && age < CACHE_TTL
    requires "u" in s0.cache && s0.cache["u"] == Cached(d, s0.clock)
    ensures Reachable(s) && s.history == s0.history && s.times == s0.times && v in s.verdicts
    ensures v == Verdict("u", d, FromCache(s0.clock, s0.clock + age), |s.history| - 1, s0.clock + age + wait)
  {
    var s1 := FindEntry(s0, d, age);
    s, v := JudgeAfter(s1, QUICK, "u", d, FromCache(s0.clock, s0.clock + age), wait);
  }

  /** The age of an entry counts from the clock reading of the request that stored it, however long that
      request waits in between. */
  lemma StampIsKept(s: State, q: Ticket, delay: nat)
    requires Enabled(s, Stamp(q))
    ensures var r, s1 := s.requests[q], Step(s, Stamp(q));
            var s2 := Step(s1, Tick(s1.clock + delay));
            && Enabled(s2, Store(q)) && r.user in Step(s2, Store(q)).cache
            && Step(s2, Store(q)).cache[r.user] == Cached(r.data, s.clock)
  {
  }

  /** Both delays of the bound count, and every age below thirty seconds in between can occur. */
  lemma EveryAgeOccurs(storing: nat, age: nat, comparing: nat) returns (s: State, v: Verdict, k: nat)
    requires age < CACHE_TTL
    ensures Reachable(s) && v in s.verdicts && v.source.FromCache? && v.judgedAt < |s.history| == |s.times|
    ensures OutdatedVerdict(s, v) && OutdatedAt(s, v, k)
    ensures v.source.checkedAt - v.data.readTime == storing && v.time - v.source.agedAt == comparing
    ensures v.time - s.times[k] == storing + age + comparing
  {
    var s0, d := ChangeBehindLookup();
    var s1 := Wait(s0, storing);
    var s2 := StoreNow(s1, d);
    s, v := QuickRequest(s2, d, age, comparing);
    k := v.judgedAt;
  }

  /** The bound is exact: whatever the two delays are, the change can be as long ago as it allows. */
  lemma BoundIsReached(storing: nat, comparing: nat) returns (s: State, v: Verdict, k: nat)
    ensures Reachable(s) && v in s.verdicts && v.source.FromCache? && v.judgedAt < |s.history| == |s.times|
    ensures OutdatedVerdict(s, v) && OutdatedAt(s, v, k)
    ensures v.source.checkedAt - v.data.readTime == storing && v.time - v.source.agedAt == comparing
    ensures WithinBound(v, s.times[k]) && !WithinBound(v, s.times[k] - 1)
  {
    s, v, k := EveryAgeOccurs(storing, CACHE_TTL - 1, comparing);
  }

  /** Thirty seconds alone are no bound: a request that is slow between the table and its stamp stores an
      old reading as a new entry, and the next request is judged by it, whatever the delay was. */
  lemma SlowLookupOutlivesCache(delay: nat) returns (s: State, v: Verdict)
    ensures Reachable(s) && v in s.verdicts && v.source.FromCache?
    ensures v.data.readAt + 1 == v.judgedAt < |s.history| == |s.times|
    ensures OutdatedVerdict(s, v) && v.data.reading.found
    ensures v.time - s.times[v.judgedAt] == delay
  {
    var s0, d := ChangeBehindLookup();
    var s1 := Wait(s0, delay);
    var s2 := StoreNow(s1, d);
    s, v := QuickRequest(s2, d, 0, 0);
  }

  /** A request that asked the table itself may compare at any time later: there is no entry whose age it
      would check. */
  lemma OwnLookupAnyAge(delay: nat) returns (s: State, v: Verdict)
    ensures Reachable(s) && v in s.verdicts && v.source.FromTable? && v.judgedAt < |s.history| == |s.times|
    ensures OutdatedVerdict(s, v) && OutdatedAt(s, v, v.judgedAt) && v.time - s.times[v.judgedAt] == delay
  {
    var s0, d := ChangeBehindLookup();
    var s1 := StoreNow(s0, d);
    s, v := JudgeAfter(s1, SLOW, "u", d, FromTable, delay);
  }

  // ----- Invalidation -----

  /** The request may still be judged by what the table said of `user` before snapshot `since`. */
  predicate HoldsStale(r: Request, user: string, since: nat, now: Instant) {
    && r.user == user
    && match r
       case Loaded(_, c) => c.data.readAt < since && Fresh(c.checkedAt, now)
       case Asking(_) => false
       case Answered(_, d) => d.readAt < since
       case Stamped(_, d, _) => d.readAt < since
       case Ready(_, d, _) => d.readAt < since
  }

  /** Some request on its way holds a reading of `user` from before the change: a fresh cache entry it has
      loaded, an answer of the table, or a reading it is about to compare. */
  ghost predicate StaleInFlight(s: State, user: string, since: nat) {
    exists q :: q in s.requests && HoldsStale(s.requests[q], user, since, s.clock)
  }

  /** Nothing that the middleware may still use for `user` was read before snapshot `since`. */
  ghost predicate Clean(s: State, user: string, since: nat) {
    && since < |s.history|
    && (user in s.cache ==> s.cache[user].data.readAt >= since)
    && (forall q :: q in s.requests ==> !HoldsStale(s.requests[q], user, since, s.clock))
  }

  /** From the `from`-th verdict on, `user` is never judged by a snapshot before `since`. */
  ghost predicate JudgedSince(s: State, user: string, since: nat, from: nat) {
    forall i :: from <= i < |s.verdicts| && s.verdicts[i].user == user ==> s.verdicts[i].data.readAt >= since
  }

  /** The own step of a request that holds nothing stale takes up nothing stale. */
  lemma CleanOwnStep(s: State, e: Event, user: string, since: nat)
    requires Enabled(s, e) && Clean(s, user, since)
    requires e.Load? || e.CheckAge? || e.ReadTable? || e.Stamp? || e.Store?
    ensures !HoldsStale(Step(s, e).requests[e.q], user, since, s.clock)
  {
  }

  lemma CleanRequests(s: State, e: Event, user: string, since: nat)
    requires Enabled(s, e) && Clean(s, user, since)
    ensures forall q :: q in Step(s, e).requests ==> !HoldsStale(Step(s, e).requests[q], user, since, Step(s, e).clock)
  {
    if e.Load? || e.CheckAge? || e.ReadTable? || e.Stamp? || e.Store? {
      CleanOwnStep(s, e, user, since);
    }
  }

  lemma CleanCache(s: State, e: Event, user: string, since: nat)
    requires Enabled(s, e) && Clean(s, user, since)
    ensures user in Step(s, e).cache ==> Step(s, e).cache[user].data.readAt >= since
  {
  }

  lemma CleanVerdicts(s: State, e: Event, user: string, since: nat, from: nat)
    requires Enabled(s, e) && Clean(s, user, since) && JudgedSince(s, user, since, from)
    ensures JudgedSince(Step(s, e), user, since, from)
  {
  }

  lemma CleanStep(s: State, e: Event, user: string, since: nat, from: nat)
    requires Enabled(s, e) && Clean(s, user, since) && JudgedSince(s, user, since, from)
    ensures Clean(Step(s, e), user, since) && JudgedSince(Step(s, e), user, since, from)
  {
    CleanRequests(s, e, user, since);
    CleanCache(s, e, user, since);
    CleanVerdicts(s, e, user, since, from);
  }

  lemma {:induction false} CleanRun(s: State, es: seq<Event>, user: string, since: nat, from: nat)
    requires Runs(s, es) && Clean(s, user, since) && JudgedSince(s, user, since, from)
    ensures Clean(Final(s, es), user, since) && JudgedSince(Final(s, es), user, since, from)
    decreases |es|
  {
    if es != [] {
      CleanStep(s, es[0], user, since, from);
      CleanRun(Step(s, es[0]), es[1..], user, since, from);
    }
  }

  function StepsLeft(r: Request): nat {
    match r
    case Loaded(_, _) => 1
    case Asking(_) => 3
    case Answered(_, _) => 2
    case Stamped(_, _, _) => 1
    case Ready(_, _, _) => 0
  }

  function NextStep(r: Request, q: Ticket): Event {
    match r
    case Loaded(_, _) => CheckAge(q)
    case Asking(_) => ReadTable(q, true)
    case Answered(_, _) => Stamp(q)
    case Stamped(_, _, _) => Store(q)
    case Ready(_, _, _) => Judge(q)
  }

  /** A request that holds such a reading can go on and be judged by it. */
  lemma {:induction false} StaleRequestFinishes(s: State, q: Ticket, user: string, since: nat) returns (es: seq<Event>)
    requires s.history != [] && q in s.requests && HoldsStale(s.requests[q], user, since, s.clock)
    ensures Runs(s, es) && |Final(s, es).verdicts| > |s.verdicts|
    ensures Final(s, es).verdicts[|s.verdicts|].user == user && Final(s, es).verdicts[|s.verdicts|].data.readAt < since
    decreases StepsLeft(s.requests[q])
  {
    var e := NextStep(s.requests[q], q);
    var s' := Step(s, e);
    if s.requests[q].Ready? {
      es := [];
    } else {
      es := StaleRequestFinishes(s', q, user, since);
    }
    Prepend(s, e, es);
    es := [e] + es;
  }

  ghost predicate StaleVerdictAhead(s: State, user: string, since: nat) {
    exists es :: Runs(s, es) && !JudgedSince(Final(s, es), user, since, |s.verdicts|)
  }

  lemma StaleMayFinish(s: State, user: string, since: nat)
    requires s.history != [] && StaleInFlight(s, user, since)
    ensures StaleVerdictAhead(s, user, since)
  {
    var q :| q in s.requests && HoldsStale(s.requests[q], user, since, s.clock);
    var es := StaleRequestFinishes(s, q, user, since);
    assert !JudgedSince(Final(s, es), user, since, |s.verdicts|);
  }

  lemma CleanNeverStale(s: State, user: string, since: nat)
    requires Clean(s, user, since)
    ensures !StaleVerdictAhead(s, user, since)
  {
    forall es | Runs(s, es)
      ensures JudgedSince(Final(s, es), user, since, |s.verdicts|)
    {
      CleanRun(s, es, user, since, |s.verdicts|);
    }
  }

  /** When a change handler has invalidated the cache and returns, a request can still be judged by the
      state before the change if and only if some request on its way holds a reading of that state. */
  lemma InvalidationIsExact(s: State, h: Ticket)
    requires Reachable(s) && h in s.handlers && s.history != []
    ensures var handler := s.handlers[h];
            StaleVerdictAhead(Step(s, Invalidate(h)), handler.user, handler.since)
            <==> StaleInFlight(s, handler.user, handler.since)
  {
    ReachableInv(s);
    var user, since := s.handlers[h].user, s.handlers[h].since;
    var s' := Step(s, Invalidate(h));
    if StaleInFlight(s, user, since) {
      var q :| q in s.requests && HoldsStale(s.requests[q], user, since, s.clock);
      assert q in s'.requests && HoldsStale(s'.requests[q], user, since, s'.clock);
      StaleMayFinish(s', user, since);
    } else {
      assert Clean(s', user, since);
      CleanNeverStale(s', user, since);
    }
  }

  /** The change of the handler outdated these credentials, which an earlier snapshot held. */
  ghost predicate Outdated(history: seq<Users>, c: Credentials, since: nat) {
    && since < |history| && !HeldBy(history[since], c)
    && exists k :: 0 <= k < since && HeldBy(history[k], c)
  }

  /** Credentials found again later were held all the time in between. */
  lemma HeldBetween(history: seq<Users>, c: Credentials, k: nat, m: nat, j: nat)
    requires Grows(history) && Lasting(history) && k <= m <= j < |history| && HeldBy(history[k], c)
    requires c.user in history[j] && history[j][c.user].version == c.version && history[j][c.user].id == c.id
    ensures HeldBy(history[m], c)
  {
    assert SameRow(history[k], history[j], c.user);
    assert SameRow(history[k], history[m], c.user);
    assert Grown(history[k], history[m], c.user) && Grown(history[m], history[j], c.user);
  }

  lemma OutdatedStays(history: seq<Users>, c: Credentials, since: nat, j: nat)
    requires Grows(history) && Lasting(history) && Outdated(history, c, since) && since <= j < |history|
    requires c.user in history[j] && history[j][c.user].version == c.version
    ensures history[j][c.user].id != c.id
  {
    var k :| 0 <= k < since && HeldBy(history[k], c);
    if history[j][c.user].id == c.id {
      HeldBetween(history, c, k, since, j);
    }
  }

  lemma {:induction false} HistoryPrefix(s: State, es: seq<Event>)
    requires Runs(s, es)
    ensures s.history <= Final(s, es).history
    decreases |es|
  {
    if es != [] {
      HistoryPrefix(Step(s, es[0]), es[1..]);
      OneSnapshot(s, es[0]);
    }
  }

  /** Kicked out: if no request on its way held an old reading when the change handler returned, then a
      token that the change outdated is not accepted any more, however the run goes on, except for a row
      made again under the same name. */
  lemma OldTokensRejected(s: State, h: Ticket, es: seq<Event>, c: Credentials, i: nat)
    requires Reachable(s) && h in s.handlers && s.history != [] && c.user == s.handlers[h].user
    requires !StaleInFlight(s, c.user, s.handlers[h].since) && Outdated(s.history, c, s.handlers[h].since)
    requires Runs(Step(s, Invalidate(h)), es) && |s.verdicts| <= i < |Final(Step(s, Invalidate(h)), es).verdicts|
    ensures var last := Final(Step(s, Invalidate(h)), es);
            var v := last.verdicts[i];
            Accepts(v, c) ==> v.data.readAt < |last.history| && c.user in last.history[v.data.readAt]
                              && last.history[v.data.readAt][c.user].id != c.id
  {
    ReachableInv(s);
    var s' := Step(s, Invalidate(h));
    var since := s.handlers[h].since;
    var last := Final(s', es);
    var v := last.verdicts[i];
    CleanRun(s', es, c.user, since, |s.verdicts|);
    InvKept(s, Invalidate(h));
    RunInv(s', es);
    HistoryPrefix(s', es);
    assert VerdictOk(last, v);
    if Accepts(v, c) {
      OutdatedKept(s.history, last.history, c, since);
      OutdatedStays(last.history, c, since, v.data.readAt);
    }
  }

  lemma OutdatedKept(history: seq<Users>, history': seq<Users>, c: Credentials, since: nat)
    requires history <= history' && Outdated(history, c, since)
    ensures Outdated(history', c, since)
  {
    var k :| 0 <= k < since && HeldBy(history[k], c);
    assert HeldBy(history'[k], c);
  }
}
