/** Concrete texts on which masking depends on the order of the fields, or a second pass changes the text. */
module MaskExamples {
  import opened Collections
  import opened FieldMasking
  import opened FieldOrder
  import opened Masking
  import opened MaskOrder
  import opened Stretches

  // ----- Where a needle does not occur -----

  /** No quote of the first `r` characters is followed, `m` characters later, by that of the needle. */
  predicate Unlike(s: string, needle: string, m: nat, r: nat)
    requires m < |needle|
  {
    forall k :: 0 <= k < r && k + m < |s| ==> s[k] != '"' || LowerChar(s[k + m]) != needle[m]
  }

  lemma NotBefore(s: string, needle: string, m: nat, r: nat)
    requires m < |needle| && needle[0] == '"' && Unlike(s, needle, m, r)
    ensures forall k :: 0 <= k < r ==> !OccursAt(s, needle, k)
  {
    forall k | 0 <= k < r
      ensures !OccursAt(s, needle, k)
    {
      if OccursAt(s, needle, k) {
        OccursMeans(s, needle, k, 0);
        OccursMeans(s, needle, k, m);
      }
    }
  }

  lemma NoCut(s: string, key: string, m: nat)
    requires m < |Needle(key)| && Unlike(s, Needle(key), m, |s|)
    ensures Mask(s, key) == s
  {
    NotBefore(s, Needle(key), m, |s|);
    NoField(s, key);
  }

  /** A text with one value of the key, and none behind it. */
  lemma OneCut(s: string, key: string, c: Cut, m: nat)
    requires NextCut(s, key) == Some(c) && c.next <= |s|
    requires m < |Needle(key)| && Unlike(s[c.next..], Needle(key), m, |s[c.next..]|)
    ensures c.keep <= |s| && Mask(s, key) == s[..c.keep] + Masked(c.piece) + s[c.next..]
  {
    NextCutOk(s, key);
    MaskStep(s, KeyScanner(key), c);
    NoCut(s[c.next..], key, m);
  }

  lemma StringCut(s: string, key: string, keyEnd: nat, i: nat, j: nat)
    requires keyEnd <= |s| && Find(s, Needle(key), 0) < |s| && keyEnd == Find(s, Needle(key), 0) + |Needle(key)|
    requires ValueStart(s, keyEnd) == i < j < |s| && s[i] == '"' && ClosingQuote(s, i + 1) == j
    ensures NextCut(s, key) == Some(Cut(i, Value(s[i + 1..j]), j + 1))
  {
    NextCutIs(s, key, Find(s, Needle(key), 0), keyEnd, i);
  }

  // ----- One text, two orders -----

  /** The text of two fields, "token" with the value "secret", masked or not, and "a" with the value `x`. */
  predicate Fields(s: string, masked: bool, x: char) {
    && |s| == 26 && s[0] == '{'
    && s[1] == '"' && s[2] == 't' && s[3] == 'o' && s[4] == 'k' && s[5] == 'e' && s[6] == 'n' && s[7] == '"'
    && s[8] == ':' && s[9] == '"' && s[10] == 's' && s[11] == 'e'
    && (if masked then s[12] == '*' && s[13] == '*' && s[14] == '*' && s[15] == '*'
        else s[12] == 'c' && s[13] == 'r' && s[14] == 'e' && s[15] == 't')
    && s[16] == '"' && s[17] == ','
    && s[18] == '"' && s[19] == 'a' && s[20] == '"' && s[21] == ':' && s[22] == '"' && s[23] == x && s[24] == '"' && s[25] == '}'
    && (x == 'b' || x == '*')
  }

  lemma Needles()
    ensures Needle("token") == ['"', 't', 'o', 'k', 'e', 'n', '"']
    ensures Needle("secret") == ['"', 's', 'e', 'c', 'r', 'e', 't', '"']
  {
  }

  lemma TokenCut(s: string, x: char)
    requires Fields(s, false, x)
    ensures NextCut(s, "token") == Some(Cut(9, Value(s[10..16]), 17))
  {
    Needles();
    NotBefore(s, Needle("token"), 0, 1);
    FindFirst(s, Needle("token"), 0, 1);
    IndexIs(s, ':', 8, 8);
    BlanksAre(s, 9, 9);
    PlainQuote(s, 10, 16);
    StringCut(s, "token", 8, 9, 16);
  }

  lemma {:induction false} PlainQuote(s: string, i: nat, j: nat)
    requires i <= j < |s| && s[j] == '"' && forall k :: i <= k < j ==> s[k] != '"' && s[k] != '\\'
    ensures ClosingQuote(s, i) == j
    decreases j - i
  {
    if i < j {
      PlainQuote(s, i + 1, j);
    }
  }

  /** The value of "token" is taken for the key "secret", and the value of "a" for its value. */
  lemma SecretCut(s: string, x: char)
    requires Fields(s, false, x)
    ensures NextCut(s, "secret") == Some(Cut(22, Value(s[23..24]), 25))
  {
    Needles();
    NotBefore(s, Needle("secret"), 1, 9);
    FindFirst(s, Needle("secret"), 0, 9);
    IndexIs(s, ':', 17, 21);
    BlanksAre(s, 22, 22);
    PlainQuote(s, 23, 24);
    StringCut(s, "secret", 17, 22, 24);
  }

  lemma MaskToken(s: string, x: char)
    requires Fields(s, false, x)
    ensures Fields(Mask(s, "token"), true, x)
  {
    Needles();
    TokenCut(s, x);
    OneCut(s, "token", Cut(9, Value(s[10..16]), 17), 1);
  }

  lemma MaskSecret(s: string, x: char)
    requires Fields(s, false, x)
    ensures Fields(Mask(s, "secret"), false, '*')
  {
    Needles();
    SecretCut(s, x);
    OneCut(s, "secret", Cut(22, Value(s[23..24]), 25), 1);
  }

  lemma NoSecret(s: string, x: char)
    requires Fields(s, true, x)
    ensures Mask(s, "secret") == s
  {
    Needles();
    NoCut(s, "secret", 3);
  }

  const HEAD := "{\"token\":\"secret\""
  const TAIL := ",\"a\":\"b\"}"
  const TEXT := HEAD + TAIL

  predicate HeadOk(s: string) {
    && |s| == 17 && s[0] == '{'
    && s[1] == '"' && s[2] == 't' && s[3] == 'o' && s[4] == 'k' && s[5] == 'e' && s[6] == 'n' && s[7] == '"'
    && s[8] == ':' && s[9] == '"' && s[10] == 's' && s[11] == 'e'
    && s[12] == 'c' && s[13] == 'r' && s[14] == 'e' && s[15] == 't' && s[16] == '"'
  }

  lemma TextFields(s: string, head: string, tail: string)
    requires HeadOk(head) && |tail| == 9 && s == head + tail
    requires tail[0] == ',' && tail[1] == '"' && tail[2] == 'a' && tail[3] == '"' && tail[4] == ':' && tail[5] == '"'
    requires tail[6] == 'b' && tail[7] == '"' && tail[8] == '}'
    ensures Fields(s, false, 'b')
  {
    assert forall k :: 0 <= k < 17 ==> s[k] == head[k];
    assert forall k :: 17 <= k < 26 ==> s[k] == tail[k - 17];
  }

  /** The order of the sensitive fields matters, also for well-formed JSON: in this text the value of "a"
      is masked if and only if "secret" comes before "token". */
  lemma OrderMatters(s: string)
    requires s == TEXT
    ensures MaskFields(s, ["token", "secret"]) != MaskFields(s, ["secret", "token"])
  {
    TextFields(s, HEAD, TAIL);
    BothOrders(s);
    InTurn(s, "token", "secret");
    InTurn(s, "secret", "token");
  }

  lemma BothOrders(s: string)
    requires Fields(s, false, 'b')
    ensures Mask(Mask(s, "token"), "secret") != Mask(Mask(s, "secret"), "token")
  {
    MaskToken(s, 'b');
    NoSecret(Mask(s, "token"), 'b');
    MaskSecret(s, 'b');
    MaskToken(Mask(s, "secret"), '*');
    FieldsDiffer(Mask(s, "token"), Mask(Mask(s, "secret"), "token"));
  }

  lemma FieldsDiffer(s: string, t: string)
    requires Fields(s, true, 'b') && Fields(t, true, '*')
    ensures s != t
  {
    assert s[23] != t[23];
  }

  // ----- Where the converse stops -----

  /** Overlapping stretches need not show: when the value that only one of the orders masks is a star already,
      both orders agree although the stretches meet. */
  lemma OverlapMayAgree(s: string)
    requires Fields(s, false, '*')
    ensures Mask(Mask(s, "token"), "secret") == Mask(Mask(s, "secret"), "token")
    ensures !Apart(FIELDS, s, "token", "secret", 0)
  {
    MaskSecret(s, '*');
    SameFieldsText(s, Mask(s, "secret"));
    MaskToken(s, '*');
    NoSecret(Mask(s, "token"), '*');
    StretchesMeet(s);
  }

  lemma SameFieldsText(s: string, t: string)
    requires Fields(s, false, '*') && Fields(t, false, '*')
    ensures s == t
  {
    forall k | 0 <= k < 26
      ensures s[k] == t[k]
    {
    }
  }

  lemma StretchesMeet(s: string)
    requires Fields(s, false, '*')
    ensures !Apart(FIELDS, s, "token", "secret", 0)
  {
    Needles();
    TokenCut(s, '*');
    SecretCut(s, '*');
    FirstIs(s);
    var x, y := Span(1, 17, false), Span(9, 25, false);
    SpanThere(s, "token", x);
    SpanThere(s, "secret", y);
    assert !Clear(x, y);
  }

  lemma SpanThere(s: string, key: string, x: Span)
    requires First(s, key) < |s| && Stretches.FirstSpan(s, KeyField(key), 0) == x
    ensures x in Spans(s, FIELDS.look(key), 0)
  {
  }

  lemma FirstIs(s: string)
    requires Fields(s, false, '*')
    ensures First(s, "token") == 1 && First(s, "secret") == 9
  {
    Needles();
    NotBefore(s, Needle("token"), 0, 1);
    FindFirst(s, Needle("token"), 0, 1);
    NotBefore(s, Needle("secret"), 1, 9);
    FindFirst(s, Needle("secret"), 0, 9);
  }

  // ----- A second pass that changes the text -----

  /** The text of an array under the key "x", masked or not, directly followed by `y":` and a value. */
  predicate ListThen(s: string, masked: bool, p: char) {
    var n := if masked then 9 else 6;
    && |s| == n + 6
    && s[0] == '"' && s[1] == 'x' && s[2] == '"' && s[3] == ':'
    && (if masked then s[4] == '"' && s[5] == '*' && s[6] == '*' && s[7] == '*' && s[8] == '"' else s[4] == '[' && s[5] == ']')
    && s[n] == 'y' && s[n + 1] == '"' && s[n + 2] == ':' && s[n + 3] == '"' && s[n + 4] == p && s[n + 5] == '"'
    && (p == 'p' || p == '*')
  }

  lemma ListNeedles()
    ensures Needle("x") == ['"', 'x', '"'] && Needle("y") == ['"', 'y', '"']
  {
  }

  /** In the original no quote stands in front of the `y`. */
  lemma NoY(s: string)
    requires ListThen(s, false, 'p')
    ensures Mask(s, "y") == s
  {
    ListNeedles();
    NoCut(s, "y", 1);
  }

  lemma MaskList(s: string)
    requires ListThen(s, false, 'p')
    ensures ListThen(Mask(s, "x"), true, 'p')
  {
    ListNeedles();
    FindFirst(s, Needle("x"), 0, 0);
    IndexIs(s, ':', 3, 3);
    BlanksAre(s, 4, 4);
    NextCutIs(s, "x", 0, 3, 4);
    ListCutAt(s, 4, 5, 3);
    OneCut(s, "x", Cut(4, List(s[4..6]), 6), 1);
  }

  /** The quote that the masked array ends with completes the key. */
  lemma YAppears(s: string)
    requires ListThen(s, true, 'p')
    ensures ListThen(Mask(s, "y"), true, '*')
  {
    ListNeedles();
    NotBefore(s, Needle("y"), 1, 8);
    FindFirst(s, Needle("y"), 0, 8);
    IndexIs(s, ':', 11, 11);
    BlanksAre(s, 12, 12);
    PlainQuote(s, 13, 14);
    StringCut(s, "y", 11, 12, 14);
    OneCut(s, "y", Cut(12, Value(s[13..14]), 15), 1);
  }

  lemma MaskedListStays(s: string)
    requires ListThen(s, true, '*')
    ensures ListThen(Mask(s, "x"), true, '*')
  {
    ListNeedles();
    FindFirst(s, Needle("x"), 0, 0);
    IndexIs(s, ':', 3, 3);
    BlanksAre(s, 4, 4);
    PlainQuote(s, 5, 8);
    StringCut(s, "x", 3, 4, 8);
    OneCut(s, "x", Cut(4, Value(s[5..8]), 9), 1);
  }

  /** A pass over fields that do not keep apart need not be idempotent: masking the array makes a key of the
      other field appear, which only the second pass finds. */
  lemma SecondPassChanges(s: string)
    requires ListThen(s, false, 'p')
    ensures MaskFields(MaskFields(s, ["y", "x"]), ["y", "x"]) != MaskFields(s, ["y", "x"])
  {
    NoY(s);
    MaskList(s);
    InTurn(s, "y", "x");
    var t := Mask(s, "x");
    YAppears(t);
    MaskedListStays(Mask(t, "y"));
    InTurn(t, "y", "x");
    assert t[13] == 'p' && Mask(Mask(t, "y"), "x")[13] == '*';
  }

  // ----- Why keys must be free of stars -----

  /** The text of a field "x" with a two-letter value, followed by another value. */
  predicate TwoValues(s: string, p: char, q: char, z: char, w: char) {
    && |s| == 13
    && s[0] == '"' && s[1] == 'x' && s[2] == '"' && s[3] == ':'
    && s[4] == '"' && s[5] == p && s[6] == q && s[7] == '"' && s[8] == ':'
    && s[9] == '"' && s[10] == z && s[11] == w && s[12] == '"'
    && ((p == 'p' && q == 'q') || (p == '*' && q == '*'))
    && ((z == 'z' && w == 'w') || (z == '*' && w == '*'))
  }

  lemma StarNeedles()
    ensures Needle("x") == ['"', 'x', '"'] && Needle("**") == ['"', '*', '*', '"']
  {
  }

  lemma XCut(s: string, p: char, q: char, z: char, w: char)
    requires TwoValues(s, p, q, z, w)
    ensures First(s, "x") == 0 && NextCut(s, "x") == Some(Cut(4, Value(s[5..7]), 8))
  {
    StarNeedles();
    FindFirst(s, Needle("x"), 0, 0);
    IndexIs(s, ':', 3, 3);
    BlanksAre(s, 4, 4);
    PlainQuote(s, 5, 7);
    StringCut(s, "x", 3, 4, 7);
  }

  lemma MaskX(s: string, z: char, w: char)
    requires TwoValues(s, 'p', 'q', z, w)
    ensures TwoValues(Mask(s, "x"), '*', '*', z, w)
  {
    StarNeedles();
    XCut(s, 'p', 'q', z, w);
    OneCut(s, "x", Cut(4, Value(s[5..7]), 8), 1);
  }

  lemma MaskStars(s: string, z: char, w: char)
    requires TwoValues(s, '*', '*', z, w)
    ensures TwoValues(Mask(s, "**"), '*', '*', '*', '*')
  {
    StarNeedles();
    NotBefore(s, Needle("**"), 1, 4);
    FindFirst(s, Needle("**"), 0, 4);
    IndexIs(s, ':', 8, 8);
    BlanksAre(s, 9, 9);
    PlainQuote(s, 10, 12);
    StringCut(s, "**", 8, 9, 12);
    OneCut(s, "**", Cut(9, Value(s[10..12]), 13), 1);
  }

  lemma NoStars(s: string)
    requires TwoValues(s, 'p', 'q', 'z', 'w')
    ensures First(s, "**") == |s| && Mask(s, "**") == s
  {
    StarNeedles();
    NotBefore(s, Needle("**"), 1, |s|);
    FindNothing(s, Needle("**"), 0);
    NoCut(s, "**", 1);
  }

  lemma OneStretch(s: string)
    requires TwoValues(s, 'p', 'q', 'z', 'w')
    ensures forall x :: x in Spans(s, KeyField("x"), 0) ==> !x.isList
  {
    StarNeedles();
    XCut(s, 'p', 'q', 'z', 'w');
    NotBefore(s[8..], Needle("x"), 1, 5);
    FindNothing(s[8..], Needle("x"), 0);
    assert Spans(s[8..], KeyField("x"), 8) == [];
  }

  /** A key of stars can appear where a value has been masked: the two fields keep apart in the text, and yet
      the order shows. */
  lemma StarredKeyAppears(s: string)
    requires TwoValues(s, 'p', 'q', 'z', 'w')
    ensures Apart(FIELDS, s, "x", "**", 0)
    ensures Mask(Mask(s, "x"), "**") != Mask(Mask(s, "**"), "x")
  {
    NoStars(s);
    OneStretch(s);
    assert Spans(s, FIELDS.look("**"), 0) == [];
    MaskX(s, 'z', 'w');
    MaskStars(Mask(s, "x"), 'z', 'w');
    assert Mask(Mask(s, "x"), "**")[10] == '*' && Mask(s, "x")[10] == 'z';
  }
}
