/** Masking several fields one after the other, as the source does for every sensitive field in the
    random order of a Go map: in any order the result is the same when the stretches of the fields keep apart
    in the text, and a second pass changes nothing. */
module MaskOrder {
  import opened Collections
  import opened FieldMasking
  import opened FieldOrder
  import opened Masking
  import opened Stretches

  // ----- The fields of the scanner -----

  function HitOf(s: string, cut: Option<Cut>): Option<Hit> {
    match cut
    case None => None
    case Some(c) => Some(Hit(c.next, if c.next <= |s| then Reach(s, c) else |s|, c.piece.List?))
  }

  function KeyHit(s: string, key: string): Option<Hit> {
    HitOf(s, NextCut(s, key))
  }

  function KeyFront(s: string, key: string): string {
    match NextCut(s, key)
    case None => ""
    case Some(c) => if c.keep <= |s| then Front(s, c) else ""
  }

  function KeyField(key: string): Field {
    Field(s => First(s, key), s => KeyHit(s, key), s => KeyFront(s, key))
  }

  const FIELDS := Family(KeyField, MaskFields, (rest, key) => Completes(rest, key))

  lemma KeySane(s: string, key: string)
    ensures Sane(KeyField(key), s)
  {
    KeyCut(s, key);
    if NextCut(s, key).Some? {
      var c := NextCut(s, key).value;
      NextCutOk(s, key);
      var pos, keyEnd := CutStart(s, key, c);
      ValueStartBounds(s, keyEnd);
    }
  }

  lemma HitShift(s: string, n: nat, cut: Option<Cut>)
    requires n <= |s| && (cut.Some? ==> cut.value.next <= |s| - n)
    ensures HitOf(s, Shifted(cut, n)) == Stretches.Moved(HitOf(s[n..], cut), n)
  {
    if cut.Some? {
      StartShift(s, n, cut.value.next);
    }
  }

  lemma KeyShifts(s: string, key: string, n: nat)
    requires n <= |s|
    ensures ShiftsAt(KeyField(key), s, n)
  {
    if n <= First(s, key) {
      FirstShift(s, key, n);
      NextCutShift(s, key, n);
      NextCutOk(s[n..], key);
      HitShift(s, n, NextCut(s[n..], key));
    }
  }

  lemma KeyTakesOut(s: string, ks: seq<string>, a: string, h: Hit)
    requires Distinct(ks) && (forall k :: k in ks ==> Tidy(k)) && GoesFirst(FIELDS, s, ks, a, h)
    ensures MaskFields(s, ks) == KeyFront(s, a) + MaskFields(s[h.next..], ks)
  {
    NextCutOk(s, a);
    var c := NextCut(s, a).value;
    forall k | k in ks && k != a
      ensures Reach(s, c) <= First(s, k) && (c.piece.List? ==> !Completes(s[c.next..], k))
    {
      assert h.reach <= FIELDS.look(k).find(s);
    }
    TakenOut(s, ks, a, c);
  }

  lemma KeyLeavesAlone(s: string, ks: seq<string>)
    requires forall k :: k in ks ==> FIELDS.look(k).hit(s) == None
    ensures MaskFields(s, ks) == s
  {
    forall k | k in ks
      ensures Mask(s, k) == s
    {
      assert FIELDS.look(k).hit(s) == None;
      NoCutKeeps(s, k);
    }
    FieldsNothing(s, ks);
  }

  lemma KeysGood(ks: seq<string>)
    requires Distinct(ks) && forall k :: k in ks ==> Tidy(k)
    ensures Good(FIELDS, ks)
  {
    forall k, s | k in ks
      ensures Sane(FIELDS.look(k), s)
    {
      KeySane(s, k);
    }
    forall k, s, n: nat | k in ks && n <= |s|
      ensures ShiftsAt(FIELDS.look(k), s, n)
    {
      KeyShifts(s, k, n);
    }
    forall s
      ensures TakesOut(FIELDS, s, ks) && LeavesAlone(FIELDS, s, ks)
    {
      forall a, h | GoesFirst(FIELDS, s, ks, a, h)
        ensures FIELDS.mask(s, ks) == FIELDS.look(a).front(s) + FIELDS.mask(s[h.next..], ks)
      {
        KeyTakesOut(s, ks, a, h);
      }
      if forall k :: k in ks ==> FIELDS.look(k).hit(s) == None {
        KeyLeavesAlone(s, ks);
      }
    }
  }

  // ----- When the order does not matter -----

  /** Over all texts and all lists of fields: if the stretches of any two fields keep apart in the text before
      masking, the fields may be masked in any order. */
  lemma AnyOrder(s: string, ks: seq<string>, ms: seq<string>)
    requires Distinct(ks) && Distinct(ms) && SameFields(ks, ms) && (forall k :: k in ks ==> Tidy(k))
    requires AllApart(FIELDS, s, ks, 0)
    ensures MaskFields(s, ks) == MaskFields(s, ms)
  {
    KeysGood(ks);
    KeysGood(ms);
    AnyOrderBy(FIELDS, s, ks, ms, 0);
  }

  /** Two fields that keep apart commute. */
  lemma TwoFieldsCommute(s: string, a: string, b: string)
    requires Tidy(a) && Tidy(b) && Apart(FIELDS, s, a, b, 0)
    ensures Mask(Mask(s, a), b) == Mask(Mask(s, b), a)
  {
    if a != b {
      AnyOrder(s, [a, b], [b, a]);
      InTurn(s, a, b);
      InTurn(s, b, a);
    }
  }

  // ----- A second pass -----

  lemma MovedLast(ks: seq<string>, pre: seq<string>, a: string, post: seq<string>)
    requires Distinct(ks) && ks == pre + [a] + post
    ensures Distinct(pre + post + [a]) && SameFields(ks, pre + post + [a])
  {
    var ms := pre + post + [a];
    forall i, j | 0 <= i < j < |ms|
      ensures ms[i] != ms[j]
    {
      var i' := if i < |pre| then i else i + 1;
      var j' := if j == |ms| - 1 then |pre| else if j < |pre| then j else j + 1;
      assert ms[i] == ks[i'] && ms[j] == ks[j'] && i' != j';
      assert if i' < j' then ks[i'] != ks[j'] else ks[j'] != ks[i'];
    }
  }

  /** Each field might as well have been masked last, so masking it again changes nothing. */
  lemma FieldIsDone(s: string, ks: seq<string>, a: string)
    requires Distinct(ks) && (forall k :: k in ks ==> Tidy(k)) && AllApart(FIELDS, s, ks, 0) && a in ks
    ensures Mask(MaskFields(s, ks), a) == MaskFields(s, ks)
  {
    var pre, post := SplitAt(ks, a);
    MovedLast(ks, pre, a, post);
    AnyOrder(s, ks, pre + post + [a]);
    LastMasked(s, pre + post, a);
    MaskIdempotent(MaskFields(s, pre + post), a);
  }

  lemma LastMasked(s: string, ks: seq<string>, a: string)
    ensures MaskFields(s, ks + [a]) == Mask(MaskFields(s, ks), a)
  {
    FieldsAppend(s, ks, [a]);
    var t := MaskFields(s, ks);
    assert [a][1..] == [];
    assert MaskFields(t, [a]) == MaskFields(Mask(t, a), []);
  }

  /** The whole pass is idempotent when the fields keep apart, also if the second pass takes them, or some of
      them, in another order. */
  lemma PassIdempotent(s: string, ks: seq<string>, ms: seq<string>)
    requires Distinct(ks) && (forall k :: k in ks ==> Tidy(k)) && AllApart(FIELDS, s, ks, 0)
    requires forall k :: k in ms ==> k in ks
    ensures MaskFields(MaskFields(s, ks), ms) == MaskFields(s, ks)
  {
    forall k | k in ms
      ensures Mask(MaskFields(s, ks), k) == MaskFields(s, ks)
    {
      FieldIsDone(s, ks, k);
    }
    FieldsNothing(MaskFields(s, ks), ms);
  }

  // ----- The sensitive fields -----

  const SENSITIVE_FIELDS := {"authorization", "cookie", "set-cookie", "password", "passwd", "secret", "token", "api-key", "apikey"}

  /** Masking any one of the sensitive fields again changes nothing. */
  lemma SensitiveMaskIdempotent(s: string, key: string)
    requires key in SENSITIVE_FIELDS
    ensures Mask(Mask(s, key), key) == Mask(s, key)
  {
    assert ':' !in key;
    MaskIdempotent(s, key);
  }

  /** The whole masking of the source: whatever order the map of the sensitive fields is visited in, the result
      is the same as long as the fields that occur keep apart. */
  lemma SensitiveAnyOrder(s: string, ks: seq<string>, ms: seq<string>)
    requires Distinct(ks) && Distinct(ms) && (forall k :: k in ks <==> k in SENSITIVE_FIELDS) && SameFields(ks, ms)
    requires AllApart(FIELDS, s, ks, 0)
    ensures MaskFields(s, ks) == MaskFields(s, ms)
  {
    AllTidy(ks);
    AnyOrder(s, ks, ms);
  }

  /** Masking a masked text once more, in whatever order, changes nothing as long as the fields that occur in the
      original keep apart. */
  lemma SensitivePassIdempotent(s: string, ks: seq<string>, ms: seq<string>)
    requires Distinct(ks) && (forall k :: k in ks <==> k in SENSITIVE_FIELDS) && SameFields(ks, ms)
    requires AllApart(FIELDS, s, ks, 0)
    ensures MaskFields(MaskFields(s, ks), ms) == MaskFields(s, ks)
  {
    AllTidy(ks);
    PassIdempotent(s, ks, ms);
  }

  /** Nothing stays readable: after the whole pass, every string that the scan finds as the value of one of the nine
      fields is made of stars, except for the first two characters of a longer one, and no array is left. */
  lemma SensitiveValuesMasked(s: string, ks: seq<string>, key: string, c: Cut)
    requires Distinct(ks) && (forall k :: k in ks <==> k in SENSITIVE_FIELDS) && AllApart(FIELDS, s, ks, 0)
    requires key in {"authorization", "cookie", "set-cookie", "password", "passwd", "secret", "token", "api-key", "apikey"}
    requires c in Cuts(MaskFields(s, ks), key)
    ensures !c.piece.List?
    ensures c.piece.Value? ==>
              forall i :: 0 <= i < |c.piece.contents| && (i >= 2 || |c.piece.contents| <= 2) ==> c.piece.contents[i] == '*'
  {
    AllTidy(ks);
    FieldIsDone(s, ks, key);
    MaskedTexts(MaskFields(s, ks), key);
    assert PieceMasked(c.piece);
  }

  lemma AllTidy(ks: seq<string>)
    requires forall k :: k in ks ==> k in SENSITIVE_FIELDS
    ensures forall k :: k in ks ==> Tidy(k)
  {
    forall k | k in ks
      ensures Tidy(k)
    {
      SensitiveTidy(k);
    }
  }

  /** Masks the fields one after the other, in the order in which the map happens to be visited. */
  method MaskText(input: string, order: seq<string>) returns (s: string)
    ensures s == MaskFields(input, order)
  {
    s := input;
    var i := 0;
    while i < |order|
      invariant i <= |order|
      invariant MaskFields(input, order) == MaskFields(s, order[i..])
    {
      s := MaskField(s, order[i]);
      assert order[i..][1..] == order[i + 1..];
      i := i + 1;
    }
  }

  lemma SensitiveTidy(key: string)
    requires key in SENSITIVE_FIELDS
    ensures Tidy(key)
  {
  }
}
