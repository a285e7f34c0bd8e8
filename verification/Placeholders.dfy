/** Placeholders in SQL text: which value belongs to which mark, and the renumbering of `?` into the `$1`,
    `$2`, ... that PostgreSQL expects. */
module Placeholders {
  import opened Collections

  datatype Arg = TimeArg(at: int) | TextArg(text: string) | NumberArg(number: int)

  /** What a database works with once the values are in place: a character of the text, a value, or a mark
      that no value was supplied for. */
  datatype Piece = Char(c: char) | Bound(arg: Arg) | Missing

  datatype Dialect = SQLite | MySQL | Postgres

  // ----- Marks bound from left to right -----

  function Texts(s: string): (r: seq<Piece>) {
    seq(|s|, i requires 0 <= i < |s| => Char(s[i]))
  }

  function Marks(s: string): nat {
    if s == "" then 0 else (if s[0] == '?' then 1 else 0) + Marks(s[1..])
  }

  /** Each `?` takes the next value. */
  function Bind(s: string, args: seq<Arg>): seq<Piece> {
    if s == "" then []
    else if s[0] != '?' then [Char(s[0])] + Bind(s[1..], args)
    else if args == [] then [Missing] + Bind(s[1..], [])
    else [Bound(args[0])] + Bind(s[1..], args[1..])
  }

  lemma {:induction false} MarksAppend(a: string, b: string)
    ensures Marks(a + b) == Marks(a) + Marks(b)
    decreases |a|
  {
    if a == "" {
      assert a + b == b;
    } else {
      MarksAppend(a[1..], b);
      assert (a + b)[1..] == a[1..] + b;
    }
  }

  /** Texts whose marks are matched by their own values can be joined. */
  lemma {:induction false} BindAppend(a: string, x: seq<Arg>, b: string, y: seq<Arg>)
    requires Marks(a) == |x|
    ensures Bind(a + b, x + y) == Bind(a, x) + Bind(b, y)
    decreases |a|
  {
    if a == "" {
      assert a + b == b && x + y == y;
    } else {
      assert (a + b)[1..] == a[1..] + b;
      if a[0] == '?' {
        assert (x + y)[1..] == x[1..] + y;
        BindAppend(a[1..], x[1..], b, y);
      } else {
        BindAppend(a[1..], x, b, y);
      }
    }
  }

  // ----- Renumbering -----

  predicate IsDigit(c: char) {
    '0' <= c <= '9'
  }

  function Numeral(n: nat): string {
    if n < 10 then ['0' + n as char] else Numeral(n / 10) + ['0' + (n % 10) as char]
  }

  function DigitOf(c: char): nat {
    if IsDigit(c) then (c - '0') as nat else 0
  }

  predicate AllDigits(d: string) {
    forall i :: 0 <= i < |d| ==> IsDigit(d[i])
  }

  function Value(digits: string): nat {
    if digits == "" then 0
    else 10 * Value(digits[..|digits| - 1]) + DigitOf(digits[|digits| - 1])
  }

  lemma {:induction false} ValueOfNumeral(n: nat)
    ensures Numeral(n) != "" && AllDigits(Numeral(n))
    ensures Value(Numeral(n)) == n
    decreases n
  {
    if n >= 10 {
      ValueOfNumeral(n / 10);
      assert Numeral(n)[..|Numeral(n)| - 1] == Numeral(n / 10);
    } else {
      assert Numeral(n)[..0] == "";
    }
  }

  /** The text with its marks numbered from `n` on. */
  function Rebound(s: string, n: nat): string {
    if s == "" then ""
    else if s[0] == '?' then "$" + Numeral(n) + Rebound(s[1..], n + 1)
    else [s[0]] + Rebound(s[1..], n)
  }

  /** Only PostgreSQL gets numbers; the loop appends to the result as it walks over the query. */
  method Rebind(dialect: Dialect, query: string) returns (r: string)
    ensures r == if dialect == Postgres then Rebound(query, 1) else query
  {
    if dialect != Postgres {
      return query;
    }
    r := "";
    var n := 1;
    for i := 0 to |query|
      invariant r + Rebound(query[i..], n) == Rebound(query, 1)
    {
      ghost var rest := query[i..];
      assert rest[1..] == query[i + 1..];
      if query[i] == '?' {
        assert r + ("$" + Numeral(n) + Rebound(rest[1..], n + 1)) == r + "$" + Numeral(n) + Rebound(rest[1..], n + 1);
        r := r + "$" + Numeral(n);
        n := n + 1;
      } else {
        assert r + ([query[i]] + Rebound(rest[1..], n)) == r + [query[i]] + Rebound(rest[1..], n);
        r := r + [query[i]];
      }
    }
    assert r + Rebound("", n) == r;
  }

  /** Undoes the renumbering: the number expected next, after a `$`, becomes a `?` again. */
  function Unnumbered(s: string, n: nat): string
    decreases |s|
  {
    if s == "" then ""
    else if s[0] == '$' && Numeral(n) <= s[1..] then "?" + Unnumbered(s[1..][|Numeral(n)|..], n + 1)
    else [s[0]] + Unnumbered(s[1..], n)
  }

  /** Renumbering loses nothing: a query without `$` is restored from its numbered form, so its marks became
      $n, $n+1, ... in order and every other character stayed. */
  lemma {:induction false} RenumberingRestores(s: string, n: nat)
    requires '$' !in s
    ensures Unnumbered(Rebound(s, n), n) == s
    decreases |s|
  {
    if s != "" {
      var r := Rebound(s, n);
      assert s[0] in s;
      if s[0] == '?' {
        assert r[1..] == Numeral(n) + Rebound(s[1..], n + 1);
        assert r[1..][|Numeral(n)|..] == Rebound(s[1..], n + 1);
        RenumberingRestores(s[1..], n + 1);
      } else {
        assert r[1..] == Rebound(s[1..], n);
        RenumberingRestores(s[1..], n);
      }
    }
  }

  // ----- How PostgreSQL reads the numbered text -----

  /** A character of the text, a parameter, or a `$` that neither belongs to a name nor starts a parameter:
      the server refuses such a text, or reads a quotation from there on. */
  datatype Token = Ch(c: char) | Param(digits: string) | Stray

  /** A letter, `_` or a character beyond ASCII. */
  predicate StartsName(c: char) {
    'a' <= c <= 'z' || 'A' <= c <= 'Z' || c == '_' || c >= '\U{80}'
  }

  /** A name goes on over digits and `$`. */
  predicate ContinuesName(c: char) {
    StartsName(c) || IsDigit(c) || c == '$'
  }

  predicate NameAhead(s: string) {
    s != "" && StartsName(s[0])
  }

  /** How many digits the text starts with. */
  function DigitRun(s: string): (k: nat)
    ensures k <= |s| && AllDigits(s[..k]) && (k < |s| ==> !IsDigit(s[k]))
  {
    if s != "" && IsDigit(s[0]) then 1 + DigitRun(s[1..]) else 0
  }

  /** Whether a character leaves the reader inside a name. */
  predicate InName(c: char, inName: bool) {
    StartsName(c) || (inName && ContinuesName(c))
  }

  /** Outside a name, a `$` takes all the digits that follow it and is a parameter, unless a name follows
      them directly, which PostgreSQL refuses from version 15 on. */
  function Lex(s: string, inName: bool): seq<Token>
    decreases |s|
  {
    if s == "" then []
    else if s[0] != '$' || inName then [Ch(s[0])] + Lex(s[1..], InName(s[0], inName))
    else
      var k := DigitRun(s[1..]);
      if k > 0 && !NameAhead(s[1..][k..]) then [Param(s[1..][..k])] + Lex(s[1..][k..], false)
      else [Stray] + Lex(s[1..], false)
  }

  /** The intended reading: the marks are parameters numbered from `n` on, everything else is text. */
  function Numbered(s: string, n: nat): seq<Token> {
    if s == "" then []
    else if s[0] == '?' then [Param(Numeral(n))] + Numbered(s[1..], n + 1)
    else [Ch(s[0])] + Numbered(s[1..], n)
  }

  // ----- Queries whose marks stand free -----

  /** The character before position `i` belongs to a name. */
  predicate BehindName(s: string, i: nat)
    requires i <= |s|
  {
    i > 0 && InName(s[i - 1], BehindName(s, i - 1))
  }

  /** A mark right behind a name, or right before a digit or a name; or a `$` outside a name. */
  predicate Misread(s: string, i: nat)
    requires i < |s|
  {
    || (s[i] == '?' && (BehindName(s, i) || (i + 1 < |s| && (IsDigit(s[i + 1]) || StartsName(s[i + 1])))))
    || (s[i] == '$' && !BehindName(s, i))
  }

  predicate Clean(s: string) {
    forall i: nat :: i < |s| ==> !Misread(s, i)
  }

  /** The same for the first character, and from the left on. */
  predicate HeadClean(s: string, inName: bool)
    requires s != ""
  {
    && (s[0] == '?' ==> !inName && !(|s| > 1 && (IsDigit(s[1]) || StartsName(s[1]))))
    && (s[0] == '$' ==> inName)
  }

  predicate CleanFrom(s: string, inName: bool)
    decreases |s|
  {
    s == "" || (HeadClean(s, inName) && CleanFrom(s[1..], InName(s[0], inName)))
  }

  lemma {:induction false} CleanRest(s: string, j: nat)
    requires j <= |s|
    ensures CleanFrom(s[j..], BehindName(s, j)) <==> forall i: nat :: j <= i < |s| ==> !Misread(s, i)
    decreases |s| - j
  {
    if j < |s| {
      CleanRest(s, j + 1);
      assert s[j..][1..] == s[j + 1..];
      assert HeadClean(s[j..], BehindName(s, j)) <==> !Misread(s, j);
    }
  }

  lemma CleanFromStart(s: string)
    ensures Clean(s) <==> CleanFrom(s, false)
  {
    CleanRest(s, 0);
    assert s[0..] == s;
  }

  // ----- What the first character of a numbered query becomes -----

  lemma {:induction false} RunAfterDigits(d: string, s: string)
    requires AllDigits(d)
    ensures DigitRun(d + s) == |d| + DigitRun(s)
    decreases |d|
  {
    if d == "" {
      assert d + s == s;
    } else {
      assert (d + s)[1..] == d[1..] + s;
      RunAfterDigits(d[1..], s);
    }
  }

  /** Renumbering keeps the digits a text starts with. */
  lemma {:induction false} ReboundDigits(d: string, r: string, n: nat)
    requires AllDigits(d)
    ensures Rebound(d + r, n) == d + Rebound(r, n)
    decreases |d|
  {
    if d == "" {
      assert d + r == r && "" + Rebound(r, n) == Rebound(r, n);
    } else {
      ReboundDigits(d[1..], r, n);
      assert (d + r)[1..] == d[1..] + r;
      assert [d[0]] + (d[1..] + Rebound(r, n)) == d + Rebound(r, n);
    }
  }

  lemma ReboundStart(r: string, n: nat)
    ensures DigitRun(r) == 0 ==> DigitRun(Rebound(r, n)) == 0
    ensures NameAhead(Rebound(r, n)) == NameAhead(r)
  {
  }

  /** Cut off right behind its leading digits, a text has none. */
  lemma {:induction false} RunEnds(s: string)
    ensures DigitRun(s[DigitRun(s)..]) == 0
    decreases |s|
  {
    if s != "" && IsDigit(s[0]) {
      RunEnds(s[1..]);
      assert s[1..][DigitRun(s[1..])..] == s[DigitRun(s)..];
    } else {
      assert s[0..] == s;
    }
  }

  lemma LexParam(d: string, r: string)
    requires d != "" && AllDigits(d) && DigitRun(r) == 0
    ensures Lex("$" + d + r, false) == if NameAhead(r) then [Stray] + Lex(d + r, false) else [Param(d)] + Lex(r, false)
  {
    RunAfterDigits(d, r);
    var s := "$" + d + r;
    assert s[1..] == d + r;
    assert (d + r)[..|d|] == d && (d + r)[|d|..] == r;
  }

  lemma JoinFront(a: string, b: string, c: string)
    ensures a + (b + c) == a + b + c
  {
  }

  lemma JoinAgain(a: string, b: string, c: string, d: string)
    ensures a + b + (c + d) == a + (b + c) + d
  {
  }

  /** A numbered mark takes the digits behind it along, and is no parameter if a name follows. */
  lemma LexMark(d: string, r: string, n: nat)
    requires AllDigits(d) && DigitRun(r) == 0
    ensures Lex("$" + Numeral(n) + Rebound(d + r, n + 1), false) ==
            if NameAhead(r) then [Stray] + Lex(Numeral(n) + d + Rebound(r, n + 1), false)
            else [Param(Numeral(n) + d)] + Lex(Rebound(r, n + 1), false)
  {
    ReboundDigits(d, r, n + 1);
    ReboundStart(r, n + 1);
    ValueOfNumeral(n);
    LexParam(Numeral(n) + d, Rebound(r, n + 1));
    JoinAgain("$", Numeral(n), d, Rebound(r, n + 1));
  }

  lemma LexDollar(d: string, r: string, n: nat)
    requires d != "" && AllDigits(d) && DigitRun(r) == 0
    ensures Lex("$" + Rebound(d + r, n), false) ==
            if NameAhead(r) then [Stray] + Lex(d + Rebound(r, n), false) else [Param(d)] + Lex(Rebound(r, n), false)
  {
    ReboundDigits(d, r, n);
    ReboundStart(r, n);
    LexParam(d, Rebound(r, n));
    JoinFront("$", d, Rebound(r, n));
  }

  /** The token of a mark outside a name. */
  lemma MarkHead(s: string, n: nat)
    requires s != "" && s[0] == '?'
    ensures var r, k := s[1..], DigitRun(s[1..]);
            Lex(Rebound(s, n), false) != [] &&
            if NameAhead(r[k..]) then Lex(Rebound(s, n), false)[0] == Stray
            else Lex(Rebound(s, n), false) == [Param(Numeral(n) + r[..k])] + Lex(Rebound(r[k..], n + 1), false)
  {
    var r, k := s[1..], DigitRun(s[1..]);
    RunEnds(r);
    assert r == r[..k] + r[k..];
    LexMark(r[..k], r[k..], n);
  }

  /** The token of a `$` of the query outside a name. */
  lemma DollarHead(s: string, n: nat)
    requires s != "" && s[0] == '$'
    ensures Lex(Rebound(s, n), false) != [] && !Lex(Rebound(s, n), false)[0].Ch?
  {
    var r, k := s[1..], DigitRun(s[1..]);
    assert Rebound(s, n) == "$" + Rebound(r, n);
    if k > 0 {
      RunEnds(r);
      assert r == r[..k] + r[k..];
      LexDollar(r[..k], r[k..], n);
    } else {
      ReboundStart(r, n);
      assert Rebound(s, n)[1..] == Rebound(r, n);
    }
  }

  /** Any other character is read as itself; a numbered mark inside a name is part of the name. */
  lemma TextHead(s: string, n: nat, inName: bool)
    requires s != "" && (inName || (s[0] != '$' && s[0] != '?'))
    ensures Lex(Rebound(s, n), inName) != []
    ensures Lex(Rebound(s, n), inName)[0] == Ch(if s[0] == '?' then '$' else s[0])
    ensures s[0] != '?' ==> Lex(Rebound(s, n), inName) == [Ch(s[0])] + Lex(Rebound(s[1..], n), InName(s[0], inName))
  {
    if s[0] != '?' {
      assert Rebound(s, n)[1..] == Rebound(s[1..], n);
    }
  }

  // ----- The reading is the intended one -----

  lemma FreeMark(s: string, n: nat)
    requires s != "" && s[0] == '?'
    ensures var free := !(|s| > 1 && (IsDigit(s[1]) || StartsName(s[1])));
            if free then Lex(Rebound(s, n), false) == [Param(Numeral(n))] + Lex(Rebound(s[1..], n + 1), false)
            else Lex(Rebound(s, n), false)[0] != Param(Numeral(n))
  {
    MarkHead(s, n);
    var r, k := s[1..], DigitRun(s[1..]);
    if k == 0 {
      assert r[..0] == "" && r[0..] == r && Numeral(n) + "" == Numeral(n);
    } else {
      assert |Numeral(n) + r[..k]| > |Numeral(n)|;
    }
  }

  /** PostgreSQL reads the renumbered query as intended exactly when its marks stand free: none right behind
      a name, none right before a digit or a name, and no `$` outside a name. */
  lemma {:induction false} ReadsExactly(s: string, n: nat, inName: bool)
    ensures Lex(Rebound(s, n), inName) == Numbered(s, n) <==> CleanFrom(s, inName)
    decreases |s|
  {
    if s != "" {
      if s[0] == '?' && !inName {
        FreeMark(s, n);
        ReadsExactly(s[1..], n + 1, false);
        HeadsDiffer(Param(Numeral(n)), Lex(Rebound(s[1..], n + 1), false), Param(Numeral(n)), Numbered(s[1..], n + 1));
      } else if s[0] == '$' && !inName {
        DollarHead(s, n);
      } else {
        TextHead(s, n, inName);
        if s[0] != '?' {
          ReadsExactly(s[1..], n, InName(s[0], inName));
          HeadsDiffer(Ch(s[0]), Lex(Rebound(s[1..], n), InName(s[0], inName)), Ch(s[0]), Numbered(s[1..], n));
        }
      }
    }
  }

  lemma ReadAsNumberedExactly(s: string, n: nat)
    ensures Lex(Rebound(s, n), false) == Numbered(s, n) <==> Clean(s)
  {
    CleanFromStart(s);
    ReadsExactly(s, n, false);
  }

  /** Parameters turned back into marks. */
  function Restored(tokens: seq<Token>): (s: string)
    ensures |s| == |tokens|
  {
    if tokens == [] then ""
    else [if tokens[0].Param? then '?' else if tokens[0].Ch? then tokens[0].c else '$'] + Restored(tokens[1..])
  }

  /** The text is read without a stray `$`, and gives the query again. */
  predicate ReadsBack(tokens: seq<Token>, s: string) {
    Stray !in tokens && Restored(tokens) == s
  }

  lemma ReadsBackRest(t: Token, tokens: seq<Token>, s: string)
    ensures ReadsBack([t] + tokens, s) ==> s != "" && t != Stray && s[0] == (if t.Param? then '?' else t.c) && ReadsBack(tokens, s[1..])
  {
    assert ([t] + tokens)[1..] == tokens;
    assert t in [t] + tokens;
    assert forall u :: u in tokens ==> u in [t] + tokens;
  }

  lemma {:induction false} NumberedRestores(s: string, n: nat)
    ensures ReadsBack(Numbered(s, n), s)
    decreases |s|
  {
    if s != "" {
      var m := if s[0] == '?' then n + 1 else n;
      NumberedRestores(s[1..], m);
      assert Numbered(s, n)[1..] == Numbered(s[1..], m);
    }
  }

  /** Outside a name, a text that does not start with a digit is not read as starting with one. */
  lemma NoDigitFirst(s: string, n: nat)
    requires s != "" && !IsDigit(s[0])
    ensures var t := Lex(Rebound(s, n), false); t != [] && !(t[0].Ch? && IsDigit(t[0].c))
  {
    if s[0] == '?' {
      MarkHead(s, n);
    } else if s[0] == '$' {
      DollarHead(s, n);
    } else {
      TextHead(s, n, false);
    }
  }

  lemma DigitSwallowed(s: string, n: nat)
    requires |s| > 1 && s[0] == '?' && IsDigit(s[1])
    ensures !ReadsBack(Lex(Rebound(s, n), false), s)
  {
    MarkHead(s, n);
    var r, k := s[1..], DigitRun(s[1..]);
    var t := Lex(Rebound(s, n), false);
    if NameAhead(r[k..]) {
      assert t[0] == Stray;
    } else {
      var u := Lex(Rebound(r[k..], n + 1), false);
      ReadsBackRest(Param(Numeral(n) + r[..k]), u, s);
      if r[k..] != "" {
        NoDigitFirst(r[k..], n + 1);
      }
      FirstRestored(u, r);
    }
  }

  lemma FirstRestored(u: seq<Token>, r: string)
    requires r != "" && IsDigit(r[0]) && (u != [] ==> !(u[0].Ch? && IsDigit(u[0].c)))
    ensures !ReadsBack(u, r)
  {
  }

  lemma {:induction false} ReadsBackClean(s: string, n: nat, inName: bool)
    requires ReadsBack(Lex(Rebound(s, n), inName), s)
    ensures CleanFrom(s, inName)
    decreases |s|
  {
    if s != "" {
      var t := Lex(Rebound(s, n), inName);
      if s[0] == '?' && !inName {
        if |s| > 1 && IsDigit(s[1]) {
          DigitSwallowed(s, n);
        } else {
          MarkHead(s, n);
          FreeMark(s, n);
          assert s[1..][0..] == s[1..];
          assert t[0] in t;
          ReadsBackRest(Param(Numeral(n)), Lex(Rebound(s[1..], n + 1), false), s);
          ReadsBackClean(s[1..], n + 1, false);
        }
      } else if s[0] == '$' && !inName {
        DollarHead(s, n);
      } else {
        TextHead(s, n, inName);
        if s[0] != '?' {
          ReadsBackRest(Ch(s[0]), Lex(Rebound(s[1..], n), InName(s[0], inName)), s);
          ReadsBackClean(s[1..], n, InName(s[0], inName));
        }
      }
    }
  }

  /** Reading the renumbered query and turning its parameters back into marks gives the query again exactly
      when its marks stand free. */
  lemma RoundTripExactly(s: string)
    ensures ReadsBack(Lex(Rebound(s, 1), false), s) <==> Clean(s)
  {
    CleanFromStart(s);
    ReadsExactly(s, 1, false);
    NumberedRestores(s, 1);
    if ReadsBack(Lex(Rebound(s, 1), false), s) {
      ReadsBackClean(s, 1, false);
    }
  }

  // ----- Texts whose marks do not stand free -----

  /** A digit behind a mark joins its number. */
  lemma MarkBeforeDigit(s: string)
    requires s == ['?', '1']
    ensures Lex(Rebound(s, 1), false) == [Param(Numeral(1) + ['1'])]
    ensures !Clean(s) && !ReadsBack(Lex(Rebound(s, 1), false), s)
  {
    var r := s[1..];
    assert r == ['1'] && r[1..] == [] && DigitRun(r) == 1 && r[..1] == ['1'];
    MarkHead(s, 1);
    assert Lex(Rebound(r[1..], 2), false) == [];
    assert Misread(s, 0);
    RoundTripExactly(s);
  }

  /** A name in front of a mark takes its number along, and no parameter is left. */
  lemma MarkBehindName(s: string)
    requires s == ['a', '?']
    ensures forall t :: t in Lex(Rebound(s, 1), false) ==> t.Ch?
    ensures !Clean(s) && !ReadsBack(Lex(Rebound(s, 1), false), s)
  {
    var r := s[1..];
    assert r == ['?'] && r[1..] == [];
    TextHead(s, 1, false);
    NumberedInName(r);
    assert BehindName(s, 1) && Misread(s, 1);
    RoundTripExactly(s);
  }

  lemma NumberedInName(r: string)
    requires r == ['?']
    ensures Lex(Rebound(r, 1), true) == [Ch('$'), Ch('1')]
  {
    FirstNumeral();
    assert r[1..] == "" && Rebound(r[1..], 2) == "";
    DollarInName(Rebound(r, 1));
  }

  lemma FirstNumeral()
    ensures Numeral(1) == ['1']
  {
  }

  lemma DollarInName(t: string)
    requires |t| == 2 && t[0] == '$' && t[1] == '1'
    ensures Lex(t, true) == [Ch('$'), Ch('1')]
  {
    var u := t[1..];
    assert u[1..] == "";
    assert Lex(u, true) == [Ch('1')] + Lex(u[1..], true);
  }

  /** A name right behind a mark makes the number unreadable. */
  lemma MarkBeforeName(s: string)
    requires s == ['?', 'a']
    ensures Stray in Lex(Rebound(s, 1), false)
    ensures !Clean(s) && !ReadsBack(Lex(Rebound(s, 1), false), s)
  {
    var r := s[1..];
    assert r == ['a'] && DigitRun(r) == 0 && r[0..] == r;
    MarkHead(s, 1);
    assert Misread(s, 0);
    RoundTripExactly(s);
  }

  // ----- How the other databases read the query itself -----

  /** MySQL takes a `?` for a mark unless a name could go on behind it. */
  function ReadMySQL(s: string, args: seq<Arg>): seq<Piece> {
    if s == "" then []
    else if s[0] != '?' || (|s| > 1 && ContinuesName(s[1])) then [Char(s[0])] + ReadMySQL(s[1..], args)
    else if args == [] then [Missing] + ReadMySQL(s[1..], [])
    else [Bound(args[0])] + ReadMySQL(s[1..], args[1..])
  }

  /** What SQLite takes for a parameter of another kind: `?` with a number, or `$`, `:`, `@`, `#` with a name. */
  predicate OtherParameter(s: string, inName: bool)
    requires s != ""
  {
    |s| > 1 &&
    ((s[0] == '?' && IsDigit(s[1])) || (ContinuesName(s[1]) && (s[0] in ":@#" || (s[0] == '$' && !inName))))
  }

  function ReadSQLite(s: string, inName: bool, args: seq<Arg>): seq<Piece>
    decreases |s|
  {
    if s == "" then []
    else
      var next := InName(s[0], inName);
      if OtherParameter(s, inName) then [Missing] + ReadSQLite(s[1..], next, args)
      else if s[0] != '?' then [Char(s[0])] + ReadSQLite(s[1..], next, args)
      else if args == [] then [Missing] + ReadSQLite(s[1..], next, [])
      else [Bound(args[0])] + ReadSQLite(s[1..], next, args[1..])
  }

  /** A `:`, `@` or `#` right before a character of a name. */
  predicate NamedMark(s: string, i: nat)
    requires i < |s|
  {
    i + 1 < |s| && s[i] in ":@#" && ContinuesName(s[i + 1])
  }

  predicate NoNamedMarks(s: string) {
    forall i: nat :: i < |s| ==> !NamedMark(s, i)
  }

  lemma NoNamedMarksRest(s: string)
    requires s != "" && NoNamedMarks(s)
    ensures !NamedMark(s, 0) && NoNamedMarks(s[1..])
  {
    forall i: nat | i < |s[1..]|
      ensures !NamedMark(s[1..], i)
    {
      assert !NamedMark(s, i + 1);
    }
  }

  lemma {:induction false} MySQLBinds(s: string, inName: bool, args: seq<Arg>)
    requires CleanFrom(s, inName)
    ensures ReadMySQL(s, args) == Bind(s, args)
    decreases |s|
  {
    if s != "" {
      var next := InName(s[0], inName);
      if |s| > 1 {
        assert s[1..][0] == s[1] && HeadClean(s[1..], next);
      }
      MySQLBinds(s[1..], next, if s[0] != '?' then args else if args == [] then [] else args[1..]);
    }
  }

  lemma {:induction false} SQLiteBinds(s: string, inName: bool, args: seq<Arg>)
    requires CleanFrom(s, inName) && NoNamedMarks(s)
    ensures ReadSQLite(s, inName, args) == Bind(s, args)
    decreases |s|
  {
    if s != "" {
      NoNamedMarksRest(s);
      SQLiteBinds(s[1..], InName(s[0], inName), if s[0] != '?' then args else if args == [] then [] else args[1..]);
    }
  }

  // ----- The values arrive where they belong, in every dialect -----

  /** A numbered parameter takes the value with its number. */
  function BindToken(t: Token, args: seq<Arg>): Piece {
    match t
    case Ch(c) => Char(c)
    case Param(d) => if 1 <= Value(d) <= |args| then Bound(args[Value(d) - 1]) else Missing
    case Stray => Missing
  }

  function BindTokens(tokens: seq<Token>, args: seq<Arg>): seq<Piece> {
    if tokens == [] then [] else [BindToken(tokens[0], args)] + BindTokens(tokens[1..], args)
  }

  /** What the database of a dialect sees of a query text and its values. */
  function Seen(dialect: Dialect, text: string, args: seq<Arg>): seq<Piece> {
    match dialect
    case Postgres => BindTokens(Lex(text, false), args)
    case MySQL => ReadMySQL(text, args)
    case SQLite => ReadSQLite(text, false, args)
  }

  lemma {:induction false} NumberedBindsLeftToRight(s: string, n: nat, args: seq<Arg>)
    requires 1 <= n && Marks(s) + n - 1 <= |args|
    ensures BindTokens(Numbered(s, n), args) == Bind(s, args[n - 1..])
    decreases |s|
  {
    if s != "" {
      assert Numbered(s, n)[1..] == Numbered(s[1..], if s[0] == '?' then n + 1 else n);
      if s[0] == '?' {
        ValueOfNumeral(n);
        NumberedBindsLeftToRight(s[1..], n + 1, args);
        assert args[n - 1..][1..] == args[n..];
      } else {
        NumberedBindsLeftToRight(s[1..], n, args);
      }
    }
  }

  /** Renumbering preserves the meaning: whatever the dialect, the database sees the i-th value at the i-th
      mark of a query whose marks stand free. */
  lemma RebindingPreserves(dialect: Dialect, query: string, args: seq<Arg>)
    requires Clean(query) && Marks(query) <= |args| && (dialect == SQLite ==> NoNamedMarks(query))
    ensures Seen(dialect, if dialect == Postgres then Rebound(query, 1) else query, args) == Bind(query, args)
  {
    CleanFromStart(query);
    match dialect
    case Postgres =>
      ReadAsNumberedExactly(query, 1);
      NumberedBindsLeftToRight(query, 1, args);
      assert args[0..] == args;
    case MySQL => MySQLBinds(query, false, args);
    case SQLite => SQLiteBinds(query, false, args);
  }
}
