/** What masking does to one field, said on the text itself: a key, a gap, a colon, blanks and a value. */
module FieldMasking {
  import opened Collections
  import opened Masking

  /** The character stands for that of a key: a small letter may be written as its capital. A capital in a key
      is never found. */
  predicate Reads(c: char, k: char) {
    || (c == k && !('A' <= k <= 'Z'))
    || ('a' <= k <= 'z' && c as int + 32 == k as int)
  }

  /** The key, in quotes, stands at `k`. */
  predicate KeyAt(s: string, key: string, k: nat) {
    && k + |key| + 2 <= |s|
    && s[k] == '"' && s[k + |key| + 1] == '"'
    && forall m :: 0 <= m < |key| ==> Reads(s[k + 1 + m], key[m])
  }

  predicate Nowhere(s: string, key: string) {
    forall k :: 0 <= k < |s| ==> !KeyAt(s, key, k)
  }

  /** The key stands at `k` and not before. */
  predicate FirstAt(s: string, key: string, k: nat) {
    KeyAt(s, key, k) && forall m :: 0 <= m < k ==> !KeyAt(s, key, m)
  }

  lemma ReadsLower(c: char, k: char)
    ensures Reads(c, k) <==> LowerChar(c) == k
  {
  }

  lemma OccursMeans(s: string, needle: string, k: nat, m: nat)
    requires OccursAt(s, needle, k) && m < |needle|
    ensures k + m < |s| && LowerChar(s[k + m]) == needle[m]
  {
  }

  lemma KeyAtMeans(s: string, key: string, k: nat, m: nat)
    requires KeyAt(s, key, k) && m < |Needle(key)|
    ensures k + m < |s| && LowerChar(s[k + m]) == Needle(key)[m]
  {
    if 0 < m <= |key| {
      assert Reads(s[k + 1 + (m - 1)], key[m - 1]);
      ReadsLower(s[k + m], key[m - 1]);
    }
  }

  lemma KeyOccurs(s: string, key: string, k: nat)
    ensures KeyAt(s, key, k) <==> OccursAt(s, Needle(key), k)
  {
    var needle := Needle(key);
    if KeyAt(s, key, k) {
      forall m | 0 <= m < |needle|
        ensures LowerChar(s[k + m]) == needle[m]
      {
        KeyAtMeans(s, key, k, m);
      }
    }
    if OccursAt(s, needle, k) {
      OccursMeans(s, needle, k, 0);
      OccursMeans(s, needle, k, |key| + 1);
      forall m | 0 <= m < |key|
        ensures Reads(s[k + 1 + m], key[m])
      {
        OccursMeans(s, needle, k, m + 1);
        ReadsLower(s[k + 1 + m], key[m]);
      }
    }
  }

  lemma {:induction false} FindNothing(s: string, needle: string, i: nat)
    requires i <= |s| && needle != "" && forall k :: 0 <= k < |s| ==> !OccursAt(s, needle, k)
    ensures Find(s, needle, i) == |s|
    decreases |s| - i
  {
    if i < |s| {
      FindNothing(s, needle, i + 1);
    }
  }

  lemma {:induction false} FindFirst(s: string, needle: string, i: nat, r: nat)
    requires i <= r < |s| && needle != "" && OccursAt(s, needle, r) && forall m :: 0 <= m < r ==> !OccursAt(s, needle, m)
    ensures Find(s, needle, i) == r
    decreases r - i
  {
    if i < r {
      FindFirst(s, needle, i + 1, r);
    }
  }

  lemma FindKey(s: string, key: string, k: nat)
    requires FirstAt(s, key, k)
    ensures Find(s, Needle(key), 0) == k
  {
    KeyOccurs(s, key, k);
    forall m | 0 <= m < k
      ensures !OccursAt(s, Needle(key), m)
    {
      KeyOccurs(s, key, m);
    }
    FindFirst(s, Needle(key), 0, k);
  }

  /** A text without the key stays as it is. */
  lemma NoField(s: string, key: string)
    requires Nowhere(s, key)
    ensures Mask(s, key) == s
  {
    forall k | 0 <= k < |s|
      ensures !OccursAt(s, Needle(key), k)
    {
      KeyOccurs(s, key, k);
    }
    FindNothing(s, Needle(key), 0);
  }

  // ----- A value behind its key -----

  /** The inside of a JSON string: every backslash has a character to escape, every other character is not
      a quote (section 7 of RFC 8259). */
  predicate StringBody(v: string)
    decreases |v|
  {
    v == "" ||
    (if v[0] == '\\' then |v| >= 2 && StringBody(v[2..]) else v[0] != '"' && StringBody(v[1..]))
  }

  lemma {:induction false} QuoteAfterBody(s: string, i: nat, j: nat)
    requires i <= j < |s| && s[j] == '"' && StringBody(s[i..j])
    ensures ClosingQuote(s, i) == j
    decreases j - i
  {
    if i < j {
      var v := s[i..j];
      assert s[i] == v[0];
      var n := if v[0] == '\\' then 2 else 1;
      assert v[n..] == s[i + n..j];
      QuoteAfterBody(s, i + n, j);
    }
  }

  /** A key that ends at `keyEnd`, characters without a colon, a colon at `colon`, blanks, a value at `i`. */
  ghost predicate Leads(s: string, keyEnd: nat, colon: nat, i: nat) {
    && keyEnd <= colon < i < |s|
    && s[colon] == ':' && (forall k :: keyEnd <= k < colon ==> s[k] != ':')
    && (forall k :: colon < k < i ==> s[k] == ' ' || s[k] == '\t')
    && s[i] != ' ' && s[i] != '\t'
  }

  lemma LeadsToValue(s: string, keyEnd: nat, colon: nat, i: nat)
    requires Leads(s, keyEnd, colon, i)
    ensures ValueStart(s, keyEnd) == i
  {
    IndexIs(s, ':', keyEnd, colon);
    BlanksAre(s, colon + 1, i);
  }

  lemma NextAt(s: string, key: string, k: nat, colon: nat, i: nat)
    requires FirstAt(s, key, k) && Leads(s, k + |key| + 2, colon, i)
    ensures NextCut(s, key) == CutAt(s, i, k + |key| + 2)
  {
    FindKey(s, key, k);
    LeadsToValue(s, k + |key| + 2, colon, i);
    NextCutIs(s, key, k, k + |key| + 2, i);
  }

  /** Masking leaves the first `keep` characters, writes the text instead of what follows up to `next`, and goes
      on from there. */
  ghost predicate Becomes(s: string, key: string, keep: nat, next: nat, text: string)
    requires keep <= next <= |s|
  {
    Mask(s, key) == s[..keep] + text + Mask(s[next..], key)
  }

  lemma CutOut(s: string, key: string, keep: nat, piece: Piece, next: nat)
    requires NextCut(s, key) == Some(Cut(keep, piece, next)) && keep <= next <= |s|
    ensures Becomes(s, key, keep, next, Masked(piece))
  {
    NextCutOk(s, key);
    MaskStep(s, KeyScanner(key), Cut(keep, piece, next));
  }

  lemma StringCutAt(s: string, i: nat, j: nat, keyEnd: nat)
    requires i < j < |s| && s[i] == '"' && s[j] == '"' && StringBody(s[i + 1..j])
    ensures CutAt(s, i, keyEnd) == Some(Cut(i, Value(s[i + 1..j]), j + 1))
  {
    QuoteAfterBody(s, i + 1, j);
  }

  lemma ListCutAt(s: string, i: nat, end: nat, keyEnd: nat)
    requires i < end < |s| && s[i] == '[' && s[end] == ']' && forall m :: i <= m < end ==> s[m] != ']'
    ensures CutAt(s, i, keyEnd) == Some(Cut(i, List(s[i..end + 1]), end + 1))
  {
    IndexIs(s, ']', i, end);
  }

  /** A string value is masked in place, escapes included, and the scan goes on behind it. */
  lemma StringFieldMasked(s: string, key: string, k: nat, colon: nat, i: nat, j: nat)
    requires FirstAt(s, key, k) && Leads(s, k + |key| + 2, colon, i)
    requires i < j < |s| && s[i] == '"' && s[j] == '"' && StringBody(s[i + 1..j])
    ensures Becomes(s, key, i, j + 1, ['"'] + MaskValue(s[i + 1..j]) + ['"'])
  {
    NextAt(s, key, k, colon, i);
    StringCutAt(s, i, j, k + |key| + 2);
    CutOut(s, key, i, Value(s[i + 1..j]), j + 1);
  }

  /** An array up to the first closing bracket is replaced by three stars in quotes. */
  lemma ListFieldMasked(s: string, key: string, k: nat, colon: nat, i: nat, end: nat)
    requires FirstAt(s, key, k) && Leads(s, k + |key| + 2, colon, i)
    requires i < end < |s| && s[i] == '[' && s[end] == ']' && forall m :: i <= m < end ==> s[m] != ']'
    ensures Becomes(s, key, i, end + 1, ['"', '*', '*', '*', '"'])
  {
    NextAt(s, key, k, colon, i);
    ListCutAt(s, i, end, k + |key| + 2);
    CutOut(s, key, i, List(s[i..end + 1]), end + 1);
  }

  /** Any other value is kept, and the scan goes on right behind the key. */
  lemma OtherFieldKept(s: string, key: string, k: nat, colon: nat, i: nat)
    requires FirstAt(s, key, k) && Leads(s, k + |key| + 2, colon, i)
    requires s[i] != '"' && s[i] != '['
    ensures Becomes(s, key, k + |key| + 2, k + |key| + 2, "")
  {
    var keyEnd := k + |key| + 2;
    NextAt(s, key, k, colon, i);
    CutOut(s, key, keyEnd, Other, keyEnd);
  }

  // ----- Where the scan gives up -----

  lemma {:induction false} IndexNone(s: string, c: char, i: nat)
    requires i <= |s| && forall m :: i <= m < |s| ==> s[m] != c
    ensures IndexChar(s, c, i) == |s|
    decreases |s| - i
  {
    if i < |s| {
      IndexNone(s, c, i + 1);
    }
  }

  /** Up to the closing quote that the scan finds, the text is the inside of a string. */
  lemma {:induction false} BodyBeforeQuote(s: string, i: nat)
    requires i <= |s| && ClosingQuote(s, i) < |s|
    ensures StringBody(s[i..ClosingQuote(s, i)])
    decreases |s| - i
  {
    var j := ClosingQuote(s, i);
    if i < j {
      var v := s[i..j];
      assert s[i] == v[0];
      var n := if v[0] == '\\' then 2 else 1;
      BodyBeforeQuote(s, i + n);
      assert v[n..] == s[i + n..j];
    }
  }

  lemma NoCutKeeps(s: string, key: string)
    requires NextCut(s, key) == None
    ensures Mask(s, key) == s
  {
  }

  /** A key without a colon anywhere behind it leaves the text as it is. */
  lemma KeyWithoutColon(s: string, key: string, k: nat)
    requires FirstAt(s, key, k)
    requires forall m :: k + |key| + 2 <= m < |s| ==> s[m] != ':'
    ensures Mask(s, key) == s
  {
    FindKey(s, key, k);
    IndexNone(s, ':', k + |key| + 2);
    NoCutKeeps(s, key);
  }

  lemma {:induction false} BlanksOnly(s: string, i: nat)
    requires i <= |s| && forall m :: i <= m < |s| ==> Blank(s[m])
    ensures SkipBlanks(s, i) == |s|
    decreases |s| - i
  {
    if i < |s| {
      BlanksOnly(s, i + 1);
    }
  }

  /** So does a colon with nothing but blanks behind it. */
  lemma NoValueBehind(s: string, key: string, k: nat, colon: nat)
    requires FirstAt(s, key, k) && k + |key| + 2 <= colon < |s| && s[colon] == ':'
    requires forall m :: k + |key| + 2 <= m < colon ==> s[m] != ':'
    requires forall m :: colon < m < |s| ==> s[m] == ' ' || s[m] == '\t'
    ensures Mask(s, key) == s
  {
    FindKey(s, key, k);
    IndexIs(s, ':', k + |key| + 2, colon);
    BlanksOnly(s, colon + 1);
    NoCutKeeps(s, key);
  }

  /** A string that is never closed stops the scan. */
  lemma UnclosedString(s: string, key: string, k: nat, colon: nat, i: nat)
    requires FirstAt(s, key, k) && Leads(s, k + |key| + 2, colon, i)
    requires s[i] == '"' && forall j :: i < j < |s| && s[j] == '"' ==> !StringBody(s[i + 1..j])
    ensures Mask(s, key) == s
  {
    NextAt(s, key, k, colon, i);
    if ClosingQuote(s, i + 1) < |s| {
      BodyBeforeQuote(s, i + 1);
    }
    NoCutKeeps(s, key);
  }

  /** An array that is never closed stops the scan. */
  lemma UnclosedList(s: string, key: string, k: nat, colon: nat, i: nat)
    requires FirstAt(s, key, k) && Leads(s, k + |key| + 2, colon, i)
    requires s[i] == '[' && forall m :: i <= m < |s| ==> s[m] != ']'
    ensures Mask(s, key) == s
  {
    NextAt(s, key, k, colon, i);
    IndexNone(s, ']', i);
    NoCutKeeps(s, key);
  }
}
