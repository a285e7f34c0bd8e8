/** The stretches of a text that the scans for several fields read, and why fields whose stretches keep apart
    can be masked in any order. What the argument needs of the scans is collected in the predicate `Good`;
    the scans for colon-free and star-free keys have it. */
module Stretches {
  import opened Collections

  /** From a key to the end of its value; from a key whose value cannot be found to the end of the text; from
      a key with another kind of value through the first character of the value. */
  datatype Span = Span(from: nat, to: nat, isList: bool)

  /** One replacement, as far as it matters here: where the scan goes on, how far it has read, and whether the
      value is an array. */
  datatype Hit = Hit(next: nat, reach: nat, isList: bool)

  /** How a field is looked for: where its key first occurs, its next replacement, and what masking writes up to
      there. */
  datatype Field = Field(find: string -> nat, hit: string -> Option<Hit>, front: string -> string)

  function FirstSpan(s: string, f: Field, base: nat): Span {
    match f.hit(s)
    case None => Span(base + f.find(s), base + |s|, false)
    case Some(h) => Span(base + f.find(s), base + h.reach, h.isList)
  }

  /** All stretches of a field; `base` is where the text starts. */
  function Spans(s: string, f: Field, base: nat): seq<Span>
    decreases |s|
  {
    if f.find(s) == |s| then []
    else
      var rest := match f.hit(s)
                  case None => []
                  case Some(h) => if 0 < h.next <= |s| then Spans(s[h.next..], f, base + h.next) else [];
      [FirstSpan(s, f, base)] + rest
  }

  predicate Clear(x: Span, y: Span) {
    x.to <= y.from || y.to <= x.from
  }

  /** The fields by their keys, what masking a list of them makes of a text, and whether the rest of a text
      completes a key that a new quote in front of it would start. */
  datatype Family = Family(look: string -> Field, mask: (string, seq<string>) -> string, completes: (string, string) -> bool)

  /** No stretch of the one field meets one of the other, and no array of the one is followed by the rest of
      the other key. */
  ghost predicate KeepsAway(F: Family, s: string, a: string, b: string, base: nat) {
    && (forall x, y :: x in Spans(s, F.look(a), base) && y in Spans(s, F.look(b), base) ==> Clear(x, y))
    && (forall x :: x in Spans(s, F.look(a), base) && x.isList && base <= x.to <= base + |s| ==> !F.completes(s[x.to - base..], b))
  }

  ghost predicate Apart(F: Family, s: string, a: string, b: string, base: nat) {
    KeepsAway(F, s, a, b, base) && KeepsAway(F, s, b, a, base)
  }

  /** Any two of the fields keep apart in the text. */
  ghost predicate AllApart(F: Family, s: string, ks: seq<string>, base: nat) {
    forall a, b :: a in ks && b in ks && a != b ==> Apart(F, s, a, b, base)
  }

  // ----- What is needed of the scans -----

  ghost predicate Sane(f: Field, s: string) {
    && f.find(s) <= |s|
    && (f.find(s) == |s| ==> f.hit(s) == None)
    && (f.hit(s).Some? ==>
          var h := f.hit(s).value;
          0 < h.next <= h.reach <= |s| && f.find(s) < h.reach && (h.isList ==> h.next == h.reach))
  }

  function Moved(h: Option<Hit>, n: nat): Option<Hit> {
    match h
    case Some(hit) => Some(Hit(n + hit.next, n + hit.reach, hit.isList))
    case None => None
  }

  ghost predicate ShiftsAt(f: Field, s: string, n: nat)
    requires n <= |s|
  {
    n <= f.find(s) ==> f.find(s) == n + f.find(s[n..]) && f.hit(s) == Moved(f.hit(s[n..]), n)
  }

  /** The field `a` is done before any other one starts. */
  ghost predicate GoesFirst(F: Family, s: string, ks: seq<string>, a: string, h: Hit) {
    && a in ks && F.look(a).hit(s) == Some(h) && 0 < h.next <= h.reach <= |s|
    && forall k :: k in ks && k != a ==> h.reach <= F.look(k).find(s) && (h.isList ==> !F.completes(s[h.next..], k))
  }

  ghost predicate TakesOut(F: Family, s: string, ks: seq<string>) {
    forall a, h :: GoesFirst(F, s, ks, a, h) ==> F.mask(s, ks) == F.look(a).front(s) + F.mask(s[h.next..], ks)
  }

  ghost predicate LeavesAlone(F: Family, s: string, ks: seq<string>) {
    (forall k :: k in ks ==> F.look(k).hit(s) == None) ==> F.mask(s, ks) == s
  }

  ghost predicate Good(F: Family, ks: seq<string>) {
    && (forall k, s :: k in ks ==> Sane(F.look(k), s))
    && (forall k, s, n: nat :: k in ks && n <= |s| ==> ShiftsAt(F.look(k), s, n))
    && (forall s :: TakesOut(F, s, ks) && LeavesAlone(F, s, ks))
  }

  // ----- Stretches seen from a later start -----

  /** All stretches found from `n` on are among those found from the start. */
  ghost predicate Inherits(s: string, f: Field, base: nat, n: nat)
    requires n <= |s|
  {
    forall x :: x in Spans(s[n..], f, base + n) ==> x in Spans(s, f, base)
  }

  lemma LaterInherits(s: string, f: Field, base: nat, n: nat)
    requires n <= |s| && n <= f.find(s) && Sane(f, s) && Sane(f, s[n..]) && ShiftsAt(f, s, n)
    ensures Inherits(s, f, base, n)
  {
    if f.hit(s[n..]).Some? {
      var next := f.hit(s[n..]).value.next;
      assert s[n..][next..] == s[n + next..];
    }
    assert Spans(s, f, base) == Spans(s[n..], f, base + n);
  }

  lemma DoneInherits(s: string, f: Field, base: nat, h: Hit)
    requires Sane(f, s) && f.hit(s) == Some(h)
    ensures h.next <= |s| && Inherits(s, f, base, h.next)
  {
  }

  lemma FirstIsSpan(s: string, f: Field, base: nat)
    requires Sane(f, s) && f.find(s) < |s|
    ensures FirstSpan(s, f, base) in Spans(s, f, base)
    ensures FirstSpan(s, f, base).from == base + f.find(s) < FirstSpan(s, f, base).to
  {
  }

  lemma KeepsAwayRest(F: Family, s: string, a: string, b: string, base: nat, n: nat)
    requires n <= |s| && KeepsAway(F, s, a, b, base) && Inherits(s, F.look(a), base, n) && Inherits(s, F.look(b), base, n)
    ensures KeepsAway(F, s[n..], a, b, base + n)
  {
    forall x | x in Spans(s[n..], F.look(a), base + n) && x.isList && base + n <= x.to <= base + n + |s[n..]|
      ensures !F.completes(s[n..][x.to - (base + n)..], b)
    {
      assert s[n..][x.to - (base + n)..] == s[x.to - base..];
    }
  }

  lemma ApartRest(F: Family, s: string, a: string, b: string, base: nat, n: nat)
    requires n <= |s| && Apart(F, s, a, b, base) && Inherits(s, F.look(a), base, n) && Inherits(s, F.look(b), base, n)
    ensures Apart(F, s[n..], a, b, base + n)
  {
    KeepsAwayRest(F, s, a, b, base, n);
    KeepsAwayRest(F, s, b, a, base, n);
  }

  lemma AllApartRest(F: Family, s: string, ks: seq<string>, base: nat, n: nat)
    requires AllApart(F, s, ks, base) && n <= |s| && forall k :: k in ks ==> Inherits(s, F.look(k), base, n)
    ensures AllApart(F, s[n..], ks, base + n)
  {
    forall k, m | k in ks && m in ks && k != m
      ensures Apart(F, s[n..], k, m, base + n)
    {
      ApartRest(F, s, k, m, base, n);
    }
  }

  // ----- The earliest field -----

  /** The earlier of two fields that keep apart is done before the other one starts. */
  lemma EarlierIsDone(F: Family, s: string, a: string, b: string, base: nat)
    requires Sane(F.look(a), s) && Sane(F.look(b), s) && KeepsAway(F, s, a, b, base)
    requires F.look(a).find(s) < |s| && F.look(a).find(s) <= F.look(b).find(s)
    ensures F.look(a).hit(s).None? ==> F.look(b).find(s) == |s|
    ensures F.look(a).hit(s).Some? ==>
              var h := F.look(a).hit(s).value;
              h.reach <= F.look(b).find(s) && (h.isList ==> !F.completes(s[h.next..], b))
  {
    FirstIsSpan(s, F.look(a), base);
    if F.look(b).find(s) < |s| {
      FirstIsSpan(s, F.look(b), base);
      assert Clear(FirstSpan(s, F.look(a), base), FirstSpan(s, F.look(b), base));
    }
  }

  lemma {:induction false} Earliest(F: Family, s: string, ks: seq<string>) returns (a: string)
    requires ks != []
    ensures a in ks && forall k :: k in ks ==> F.look(a).find(s) <= F.look(k).find(s)
    decreases |ks|
  {
    a := ks[0];
    if |ks| > 1 {
      var b := Earliest(F, s, ks[1..]);
      if F.look(b).find(s) < F.look(a).find(s) {
        a := b;
      }
      assert ks == [ks[0]] + ks[1..];
    }
  }

  lemma EarliestLeads(F: Family, s: string, ks: seq<string>, a: string, h: Hit, base: nat)
    requires Good(F, ks) && AllApart(F, s, ks, base) && a in ks && F.look(a).hit(s) == Some(h)
    requires forall k :: k in ks ==> F.look(a).find(s) <= F.look(k).find(s)
    ensures GoesFirst(F, s, ks, a, h)
  {
    assert Sane(F.look(a), s);
    forall k | k in ks && k != a
      ensures h.reach <= F.look(k).find(s) && (h.isList ==> !F.completes(s[h.next..], k))
    {
      assert Sane(F.look(k), s) && Apart(F, s, a, k, base);
      EarlierIsDone(F, s, a, k, base);
    }
  }

  lemma FieldInherits(F: Family, s: string, ks: seq<string>, a: string, h: Hit, base: nat, k: string)
    requires Good(F, ks) && GoesFirst(F, s, ks, a, h) && k in ks
    ensures Inherits(s, F.look(k), base, h.next)
  {
    assert Sane(F.look(k), s) && Sane(F.look(k), s[h.next..]) && ShiftsAt(F.look(k), s, h.next);
    if k == a {
      DoneInherits(s, F.look(a), base, h);
    } else {
      LaterInherits(s, F.look(k), base, h.next);
    }
  }

  lemma RestApart(F: Family, s: string, ks: seq<string>, a: string, h: Hit, base: nat)
    requires Good(F, ks) && AllApart(F, s, ks, base) && GoesFirst(F, s, ks, a, h)
    ensures AllApart(F, s[h.next..], ks, base + h.next)
  {
    forall k | k in ks
      ensures Inherits(s, F.look(k), base, h.next)
    {
      FieldInherits(F, s, ks, a, h, base, k);
    }
    AllApartRest(F, s, ks, base, h.next);
  }

  /** If the earliest field finds nothing to replace, none does. */
  lemma NothingToMask(F: Family, s: string, ks: seq<string>, a: string, base: nat)
    requires Good(F, ks) && AllApart(F, s, ks, base) && a in ks && F.look(a).hit(s) == None
    requires forall k :: k in ks ==> F.look(a).find(s) <= F.look(k).find(s)
    ensures F.mask(s, ks) == s
  {
    forall k | k in ks
      ensures F.look(k).hit(s) == None
    {
      assert Sane(F.look(k), s) && Sane(F.look(a), s);
      if k != a && F.look(a).find(s) < |s| {
        assert Apart(F, s, a, k, base);
        EarlierIsDone(F, s, a, k, base);
      }
    }
    assert LeavesAlone(F, s, ks);
  }

  lemma TakenOutFront(F: Family, s: string, ks: seq<string>, a: string, h: Hit, base: nat)
    requires Good(F, ks) && AllApart(F, s, ks, base) && a in ks && F.look(a).hit(s) == Some(h)
    requires forall k :: k in ks ==> F.look(a).find(s) <= F.look(k).find(s)
    ensures 0 < h.next <= |s| && AllApart(F, s[h.next..], ks, base + h.next)
    ensures F.mask(s, ks) == F.look(a).front(s) + F.mask(s[h.next..], ks)
  {
    EarliestLeads(F, s, ks, a, h, base);
    RestApart(F, s, ks, a, h, base);
    assert TakesOut(F, s, ks);
  }

  lemma SameApart(F: Family, s: string, ks: seq<string>, ms: seq<string>, base: nat)
    requires AllApart(F, s, ks, base) && forall k :: k in ms ==> k in ks
    ensures AllApart(F, s, ms, base)
  {
  }

  ghost predicate SameFields(ks: seq<string>, ms: seq<string>) {
    forall k :: k in ks <==> k in ms
  }

  lemma NoFields(F: Family, s: string, ks: seq<string>)
    requires Good(F, ks) && forall k :: k !in ks
    ensures F.mask(s, ks) == s
  {
    assert LeavesAlone(F, s, ks);
  }

  lemma EarliestOfBoth(F: Family, s: string, ks: seq<string>, ms: seq<string>) returns (a: string)
    requires ks != [] && SameFields(ks, ms)
    ensures a in ks && a in ms
    ensures forall k :: k in ks ==> F.look(a).find(s) <= F.look(k).find(s)
    ensures forall k :: k in ms ==> F.look(a).find(s) <= F.look(k).find(s)
  {
    a := Earliest(F, s, ks);
  }

  /** Two lists of the same fields either both leave the text alone or both write the same in front. */
  lemma SameFront(F: Family, s: string, ks: seq<string>, ms: seq<string>, base: nat)
    returns (left: bool, front: string, next: nat)
    requires Good(F, ks) && Good(F, ms) && SameFields(ks, ms) && AllApart(F, s, ks, base) && AllApart(F, s, ms, base)
    ensures left ==> F.mask(s, ks) == F.mask(s, ms) == s
    ensures !left ==>
              && 0 < next <= |s| && AllApart(F, s[next..], ks, base + next)
              && F.mask(s, ks) == front + F.mask(s[next..], ks)
              && F.mask(s, ms) == front + F.mask(s[next..], ms)
  {
    left, front, next := true, "", 0;
    if ks == [] {
      NoFields(F, s, ks);
      NoFields(F, s, ms);
    } else {
      var a := EarliestOfBoth(F, s, ks, ms);
      if F.look(a).hit(s) == None {
        NothingToMask(F, s, ks, a, base);
        NothingToMask(F, s, ms, a, base);
      } else {
        var h := F.look(a).hit(s).value;
        TakenOutFront(F, s, ks, a, h, base);
        TakenOutFront(F, s, ms, a, h, base);
        left, front, next := false, F.look(a).front(s), h.next;
      }
    }
  }

  /** Fields that keep apart may be masked in any order. */
  lemma {:induction false} AnyOrderBy(F: Family, s: string, ks: seq<string>, ms: seq<string>, base: nat)
    requires Good(F, ks) && Good(F, ms) && SameFields(ks, ms) && AllApart(F, s, ks, base)
    ensures F.mask(s, ks) == F.mask(s, ms)
    decreases |s|
  {
    SameApart(F, s, ks, ms, base);
    var left, front, next := SameFront(F, s, ks, ms, base);
    if !left {
      AnyOrderBy(F, s[next..], ks, ms, base + next);
    }
  }
}
