/** When the order in which fields are masked does not matter: if the stretches that the scans for the
    fields read, from each key through the end of its value, keep apart in the text, any order gives the
    same result. */
module FieldOrder {
  import opened Collections
  import opened FieldMasking
  import opened Masking

  // ----- Reading from a later position on -----

  lemma OccursShift(s: string, needle: string, n: nat, i: nat)
    requires n <= |s| && i <= |s| - n
    ensures OccursAt(s[n..], needle, i) == OccursAt(s, needle, n + i)
  {
    if i + |needle| <= |s| - n {
      forall x | i <= x < i + |needle|
        ensures s[n..][x] == s[n + x]
      {
      }
    }
  }

  lemma {:induction false} FindShift(s: string, needle: string, n: nat, i: nat)
    requires n <= |s| && i <= |s| - n && needle != ""
    ensures n + Find(s[n..], needle, i) == Find(s, needle, n + i)
    decreases |s| - i
  {
    OccursShift(s, needle, n, i);
    if i < |s| - n && !OccursAt(s[n..], needle, i) {
      FindShift(s, needle, n, i + 1);
    }
  }

  lemma {:induction false} FindFrom(s: string, needle: string, i: nat, n: nat)
    requires i <= n <= |s| && needle != "" && n <= Find(s, needle, i)
    ensures Find(s, needle, n) == Find(s, needle, i)
    decreases n - i
  {
    if i < n {
      FindFrom(s, needle, i + 1, n);
    }
  }

  lemma {:induction false} IndexShift(s: string, c: char, n: nat, i: nat)
    requires n <= |s| && i <= |s| - n
    ensures n + IndexChar(s[n..], c, i) == IndexChar(s, c, n + i)
    decreases |s| - i
  {
    if i < |s| - n && s[n..][i] != c {
      IndexShift(s, c, n, i + 1);
    }
  }

  lemma {:induction false} BlanksShift(s: string, n: nat, i: nat)
    requires n <= |s| && i <= |s| - n
    ensures n + SkipBlanks(s[n..], i) == SkipBlanks(s, n + i)
    decreases |s| - i
  {
    if i < |s| - n && Blank(s[n..][i]) {
      BlanksShift(s, n, i + 1);
    }
  }

  lemma {:induction false} QuoteShift(s: string, n: nat, j: nat)
    requires n <= |s|
    ensures n + ClosingQuote(s[n..], j) == ClosingQuote(s, n + j)
    decreases |s| - j
  {
    if j < |s| - n {
      assert s[n..][j] == s[n + j];
      if s[n + j] == '\\' {
        QuoteShift(s, n, j + 2);
      } else if s[n + j] != '"' {
        QuoteShift(s, n, j + 1);
      }
    }
  }

  lemma StartShift(s: string, n: nat, keyEnd: nat)
    requires n <= |s| && keyEnd <= |s| - n
    ensures n + ValueStart(s[n..], keyEnd) == ValueStart(s, n + keyEnd)
  {
    IndexShift(s, ':', n, keyEnd);
    var colon := IndexChar(s[n..], ':', keyEnd);
    if colon < |s| - n {
      BlanksShift(s, n, colon + 1);
    }
  }

  function Shifted(c: Option<Cut>, n: nat): Option<Cut> {
    match c
    case Some(cut) => Some(Cut(n + cut.keep, cut.piece, n + cut.next))
    case None => None
  }

  lemma StringCutShift(s: string, n: nat, i: nat)
    requires n <= |s| && i < |s| - n && ClosingQuote(s[n..], i + 1) < |s| - n
    ensures s[n..][i + 1..ClosingQuote(s[n..], i + 1)] == s[n + i + 1..n + ClosingQuote(s[n..], i + 1)]
  {
  }

  lemma ListCutShift(s: string, n: nat, i: nat)
    requires n <= |s| && i < |s| - n && IndexChar(s[n..], ']', i) < |s| - n
    ensures s[n..][i..IndexChar(s[n..], ']', i) + 1] == s[n + i..n + IndexChar(s[n..], ']', i) + 1]
  {
  }

  lemma CutAtShift(s: string, n: nat, i: nat, keyEnd: nat)
    requires n <= |s| && i < |s| - n
    ensures CutAt(s, n + i, n + keyEnd) == Shifted(CutAt(s[n..], i, keyEnd), n)
  {
    assert s[n..][i] == s[n + i];
    if s[n + i] == '"' {
      QuoteShift(s, n, i + 1);
      if ClosingQuote(s[n..], i + 1) < |s| - n {
        StringCutShift(s, n, i);
      }
    } else if s[n + i] == '[' {
      IndexShift(s, ']', n, i);
      if IndexChar(s[n..], ']', i) < |s| - n {
        ListCutShift(s, n, i);
      }
    }
  }

  lemma ValueCutShift(s: string, n: nat, keyEnd: nat)
    requires n <= |s| && keyEnd <= |s| - n
    ensures ValueCut(s, n + keyEnd) == Shifted(ValueCut(s[n..], keyEnd), n)
  {
    StartShift(s, n, keyEnd);
    var i := ValueStart(s[n..], keyEnd);
    if i < |s| - n {
      CutAtShift(s, n, i, keyEnd);
    }
  }

  /** Where a key first occurs. */
  function First(s: string, key: string): nat {
    Find(s, Needle(key), 0)
  }

  lemma FirstShift(s: string, key: string, n: nat)
    requires n <= |s| && n <= First(s, key)
    ensures First(s, key) == n + First(s[n..], key)
  {
    FindFrom(s, Needle(key), 0, n);
    FindShift(s, Needle(key), n, 0);
  }

  lemma KeyCut(s: string, key: string)
    ensures First(s, key) < |s| ==> First(s, key) + |Needle(key)| <= |s|
    ensures NextCut(s, key) == if First(s, key) == |s| then None else ValueCut(s, First(s, key) + |Needle(key)|)
  {
  }

  lemma NextCutShift(s: string, key: string, n: nat)
    requires n <= |s| && n <= First(s, key)
    ensures NextCut(s, key) == Shifted(NextCut(s[n..], key), n)
  {
    FirstShift(s, key, n);
    KeyCut(s, key);
    KeyCut(s[n..], key);
    CutsAlike(s, n, First(s[n..], key), |Needle(key)|, NextCut(s[n..], key), NextCut(s, key));
  }

  lemma CutsAlike(s: string, n: nat, first: nat, length: nat, c: Option<Cut>, c': Option<Cut>)
    requires n <= |s| && (first < |s| - n ==> first + length <= |s| - n)
    requires c == if first == |s| - n then None else if first < |s| - n then ValueCut(s[n..], first + length) else c
    requires c' == if n + first == |s| then None else if n + first < |s| then ValueCut(s, n + first + length) else c'
    requires first <= |s| - n
    ensures c' == Shifted(c, n)
  {
    if first < |s| - n {
      ValueCutShift(s, n, first + length);
    }
  }

  lemma {:induction false} MaskBySkip(s: string, scan: Scanner, n: nat)
    requires n <= |s| && scan(s) == Shifted(scan(s[n..]), n)
    requires scan(s[n..]).Some? ==> CutOk(s[n..], scan(s[n..]).value) && CutOk(s, scan(s).value)
    ensures MaskBy(s, scan) == s[..n] + MaskBy(s[n..], scan)
  {
    match scan(s[n..])
    case None =>
      assert s == s[..n] + s[n..];
    case Some(c) =>
      assert s[n..][c.next..] == s[n + c.next..];
      SpliceBehind(s, n, c.keep, Masked(c.piece), MaskBy(s[n + c.next..], scan));
  }

  lemma SpliceBehind(s: string, n: nat, keep: nat, masked: string, tail: string)
    requires n + keep <= |s|
    ensures s[..n + keep] + masked + tail == s[..n] + (s[n..][..keep] + masked + tail)
  {
    assert s[..n + keep] == s[..n] + s[n..][..keep];
  }

  /** As long as the key does not occur before `n`, masking may as well start there. */
  lemma MaskSkip(s: string, key: string, n: nat)
    requires n <= |s| && n <= First(s, key)
    ensures Mask(s, key) == s[..n] + Mask(s[n..], key)
  {
    NextCutShift(s, key, n);
    NextCutOk(s[n..], key);
    NextCutOk(s, key);
    MaskBySkip(s, KeyScanner(key), n);
  }

  // ----- Masking keeps a text up to its first colon -----

  ghost predicate KeepsToColon(s: string, t: string) {
    var z := IndexChar(s, ':', 0);
    if z == |s| then t == s else Agree(s, t, z + 1)
  }

  /** The scanner replaces nothing before the first colon. */
  ghost predicate BehindColon(scan: Scanner) {
    forall s, c :: scan(s) == Some(c) ==>
      && CutOk(s, c) && IndexChar(s, ':', 0) < |s|
      && (IndexChar(s, ':', 0) < c.keep || (c.piece.Other? && c.keep == c.next))
  }

  lemma {:induction false} FirstColonFirst(s: string, i: nat, j: nat)
    requires i <= j <= |s|
    ensures IndexChar(s, ':', i) <= IndexChar(s, ':', j)
    decreases j - i
  {
    if i < j && s[i] != ':' {
      FirstColonFirst(s, i + 1, j);
    }
  }

  lemma KeyBehindColon(key: string)
    ensures BehindColon(KeyScanner(key))
  {
    forall s, c | KeyScanner(key)(s) == Some(c)
      ensures CutOk(s, c) && IndexChar(s, ':', 0) < |s|
      ensures IndexChar(s, ':', 0) < c.keep || (c.piece.Other? && c.keep == c.next)
    {
      NextCutOk(s, key);
      var pos, keyEnd := CutStart(s, key, c);
      ValueStartBounds(s, keyEnd);
      FirstColonFirst(s, 0, keyEnd);
    }
  }

  lemma {:induction false} MaskByKeepsToColon(s: string, scan: Scanner)
    requires BehindColon(scan)
    ensures KeepsToColon(s, MaskBy(s, scan))
    decreases |s|
  {
    if scan(s).Some? {
      var c := scan(s).value;
      var z := IndexChar(s, ':', 0);
      assert Finds(scan, s, c);
      if z < c.keep {
        CutKeeps(s, scan, c, z + 1);
      } else {
        MaskByKeepsToColon(s[c.next..], scan);
        ColonBehind(s, c.next);
        SkipKeeps(s, scan, c, z + 1);
      }
    }
  }

  lemma ColonBehind(s: string, n: nat)
    requires n <= IndexChar(s, ':', 0) < |s|
    ensures n + IndexChar(s[n..], ':', 0) == IndexChar(s, ':', 0)
  {
    IndexFound(s, ':', 0);
    IndexIs(s, ':', n, IndexChar(s, ':', 0));
    IndexShift(s, ':', n, 0);
  }

  lemma MaskKeepsToColon(s: string, key: string)
    ensures KeepsToColon(s, Mask(s, key))
  {
    KeyBehindColon(key);
    MaskByKeepsToColon(s, KeyScanner(key));
  }

  lemma KeepsToColonTwice(s: string, t: string, u: string)
    requires KeepsToColon(s, t) && KeepsToColon(t, u)
    ensures KeepsToColon(s, u)
  {
    var z := IndexChar(s, ':', 0);
    if z < |s| {
      IndexAgree(s, t, ':', 0, z + 1);
      forall k | 0 <= k < z + 1
        ensures s[k] == u[k]
      {
        AgreeAt(s, t, z + 1, k);
        AgreeAt(t, u, z + 1, k);
      }
    }
  }

  // ----- Keys do not appear -----

  /** A key that no masked value can show and no scan can find across a colon. */
  predicate Tidy(key: string) {
    ':' !in key && '*' !in key
  }

  lemma NeedleTidy(key: string, m: nat)
    requires Tidy(key) && m < |Needle(key)|
    ensures Needle(key)[m] != ':' && Needle(key)[m] != '*'
  {
    if 0 < m < |key| + 1 {
      assert Needle(key)[m] == key[m - 1];
    }
  }

  /** An occurrence of the key covers neither a colon nor a star. */
  lemma OccurrenceTidy(s: string, key: string, q: nat, x: nat)
    requires Tidy(key) && OccursAt(s, Needle(key), q) && q <= x < q + |Needle(key)|
    ensures x < |s| && s[x] != ':' && s[x] != '*'
  {
    OccursMeans(s, Needle(key), q, x - q);
    NeedleTidy(key, x - q);
  }

  lemma {:induction false} NotBeforeFirst(s: string, needle: string, i: nat, q: nat)
    requires i <= q <= |s| && needle != "" && q < Find(s, needle, i)
    ensures !OccursAt(s, needle, q)
    decreases q - i
  {
    if i < q {
      NotBeforeFirst(s, needle, i + 1, q);
    }
  }

  lemma {:induction false} FirstAtLeast(s: string, needle: string, i: nat, n: nat)
    requires i <= n <= |s| && needle != "" && forall q :: i <= q < n ==> !OccursAt(s, needle, q)
    ensures n <= Find(s, needle, i)
    decreases n - i
  {
    if i < n {
      FirstAtLeast(s, needle, i + 1, n);
    }
  }

  /** The same characters, as far as the needle reaches. */
  lemma OccursAlike(s: string, t: string, needle: string, q: nat)
    requires OccursAt(s, needle, q) && q + |needle| <= |t|
    requires forall x :: q <= x < q + |needle| ==> s[x] == t[x]
    ensures OccursAt(t, needle, q)
  {
    forall m | 0 <= m < |needle|
      ensures LowerChar(t[q + m]) == needle[m]
    {
      OccursMeans(s, needle, q, m);
    }
  }

  /** Changes behind the first colon of the rest make no key appear that starts in front of the rest. */
  lemma OccursInOriginal(front: string, rest: string, rest': string, key: string, q: nat)
    requires Tidy(key) && KeepsToColon(rest, rest') && q < |front| && OccursAt(front + rest', Needle(key), q)
    ensures OccursAt(front + rest, Needle(key), q)
  {
    var z := IndexChar(rest, ':', 0);
    if z < |rest| {
      IndexFound(rest, ':', 0);
      AgreeAt(rest, rest', z + 1, z);
      assert (front + rest')[|front| + z] == ':';
      if |front| + z < q + |Needle(key)| {
        OccurrenceTidy(front + rest', key, q, |front| + z);
      }
      forall x | q <= x < q + |Needle(key)|
        ensures (front + rest)[x] == (front + rest')[x]
      {
        if x >= |front| {
          AgreeAt(rest, rest', z + 1, x - |front|);
        }
      }
      OccursAlike(front + rest', front + rest, Needle(key), q);
    }
  }

  // ----- The text in front of the rest, with one value masked -----

  /** What masking writes for the text up to the end of the first replacement. */
  function Front(s: string, c: Cut): string
    requires c.keep <= |s|
  {
    s[..c.keep] + Masked(c.piece)
  }

  /** An array would lend its new closing quote to the key. */
  predicate Completes(rest: string, key: string) {
    OccursAt(['"'] + rest, Needle(key), 0)
  }

  /** A masked string differs from the string by stars only. */
  lemma StarsOnly(s: string, c: Cut, k: nat)
    requires CutOk(s, c) && c.piece.Value? && k < |s|
    ensures |Front(s, c)| == c.next && |Front(s, c) + s[c.next..]| == |s|
    ensures (Front(s, c) + s[c.next..])[k] == s[k] || (Front(s, c) + s[c.next..])[k] == '*'
  {
    var v := c.piece.contents;
    var m := Quoted(MaskValue(v));
    assert |s[c.keep..c.next]| == |Quoted(v)| == |m|;
    if c.keep <= k < c.next {
      assert s[k] == s[c.keep..c.next][k - c.keep] == Quoted(v)[k - c.keep];
      assert (Front(s, c) + s[c.next..])[k] == m[k - c.keep];
      QuotedAt(v, k - c.keep);
      QuotedAt(MaskValue(v), k - c.keep);
    }
  }

  lemma QuotedAt(v: string, k: nat)
    requires k < |v| + 2
    ensures Quoted(v)[k] == if 0 < k <= |v| then v[k - 1] else '"'
  {
  }

  lemma ValueFrontClean(s: string, c: Cut, key: string, q: nat)
    requires CutOk(s, c) && c.piece.Value? && Tidy(key) && q < c.next <= First(s, key)
    ensures !OccursAt(Front(s, c) + s[c.next..], Needle(key), q)
  {
    var t := Front(s, c) + s[c.next..];
    StarsOnly(s, c, q);
    NotBeforeFirst(s, Needle(key), 0, q);
    if OccursAt(t, Needle(key), q) {
      forall x | q <= x < q + |Needle(key)|
        ensures t[x] == s[x]
      {
        OccurrenceTidy(t, key, q, x);
        StarsOnly(s, c, x);
      }
      OccursAlike(t, s, Needle(key), q);
    }
  }

  /** In front of a value stand blanks, and a colon. */
  lemma ColonLeft(s: string, key: string, c: Cut) returns (colon: nat)
    requires NextCut(s, key) == Some(c) && !c.piece.Other?
    ensures colon < c.keep <= |s| && s[colon] == ':' && forall k :: colon < k < c.keep ==> Blank(s[k])
  {
    var pos, keyEnd := CutStart(s, key, c);
    ValueStartBounds(s, keyEnd);
    colon := IndexChar(s, ':', keyEnd);
    BlanksEnd(s, colon + 1);
  }

  lemma ListFrontParts(s: string, c: Cut)
    requires CutOk(s, c) && c.piece.List?
    ensures var t := Front(s, c) + s[c.next..];
            && |Front(s, c)| == c.keep + 5 && |t| >= c.keep + 5
            && (forall k :: 0 <= k < c.keep ==> t[k] == s[k])
            && t[c.keep + 1] == '*' && t[c.keep + 2] == '*' && t[c.keep + 3] == '*'
            && t[c.keep + 4..] == ['"'] + s[c.next..]
  {
    assert Masked(c.piece) == ['"', '*', '*', '*', '"'];
  }

  /** No key ends at the new opening quote: that would take the colon along, or start with a blank. */
  lemma NotAtOpening(s: string, t: string, keep: nat, colon: nat, key: string, q: nat)
    requires colon < keep < |t| && keep <= |s| && s[colon] == ':' && (forall k :: colon < k < keep ==> Blank(s[k]))
    requires Agree(s, t, keep) && Tidy(key) && q < keep < q + |Needle(key)|
    ensures !OccursAt(t, Needle(key), q)
  {
    if OccursAt(t, Needle(key), q) {
      AgreeAt(s, t, keep, q);
      OccursMeans(t, Needle(key), q, 0);
      if q <= colon {
        AgreeAt(s, t, keep, colon);
        OccurrenceTidy(t, key, q, colon);
      }
    }
  }

  lemma ListFrontClean(s: string, a: string, c: Cut, key: string, q: nat)
    requires NextCut(s, a) == Some(c) && CutOk(s, c) && c.piece.List? && Tidy(key)
    requires q < |Front(s, c)| && c.next <= First(s, key) && !Completes(s[c.next..], key)
    ensures !OccursAt(Front(s, c) + s[c.next..], Needle(key), q)
  {
    var t := Front(s, c) + s[c.next..];
    ListFrontParts(s, c);
    if q == c.keep + 4 {
      OccursShift(t, Needle(key), q, 0);
    } else if q < c.keep && q + |Needle(key)| <= c.keep {
      NotBeforeFirst(s, Needle(key), 0, q);
      if OccursAt(t, Needle(key), q) {
        OccursAlike(t, s, Needle(key), q);
      }
    } else if q < c.keep {
      var colon := ColonLeft(s, a, c);
      NotAtOpening(s, t, c.keep, colon, key, q);
    } else if OccursAt(t, Needle(key), q) {
      OccurrenceTidy(t, key, q, if q == c.keep then q + 1 else q);
    }
  }

  /** Behind one masked value no key appears that was not there before. */
  lemma FrontClean(s: string, a: string, c: Cut, key: string, q: nat)
    requires NextCut(s, a) == Some(c) && CutOk(s, c) && Tidy(key)
    requires q < |Front(s, c)| && c.next <= First(s, key) && (c.piece.List? ==> !Completes(s[c.next..], key))
    ensures !OccursAt(Front(s, c) + s[c.next..], Needle(key), q)
  {
    match c.piece
    case Value(_) =>
      StarsOnly(s, c, 0);
      ValueFrontClean(s, c, key, q);
    case List(_) => ListFrontClean(s, a, c, key, q);
    case Other =>
      assert Front(s, c) + s[c.next..] == s;
      NotBeforeFirst(s, Needle(key), 0, q);
  }

  /** So the scan for the key passes over it, whatever has been masked in the rest. */
  lemma FrontSkipped(s: string, a: string, c: Cut, key: string, rest: string)
    requires NextCut(s, a) == Some(c) && CutOk(s, c) && Tidy(key) && KeepsToColon(s[c.next..], rest)
    requires c.next <= First(s, key) && (c.piece.List? ==> !Completes(s[c.next..], key))
    ensures Mask(Front(s, c) + rest, key) == Front(s, c) + Mask(rest, key)
  {
    var front := Front(s, c);
    forall q | 0 <= q < |front|
      ensures !OccursAt(front + rest, Needle(key), q)
    {
      FrontClean(s, a, c, key, q);
      if OccursAt(front + rest, Needle(key), q) {
        OccursInOriginal(front, s[c.next..], rest, key, q);
      }
    }
    FirstAtLeast(front + rest, Needle(key), 0, |front|);
    MaskSkip(front + rest, key, |front|);
    assert (front + rest)[..|front|] == front && (front + rest)[|front|..] == rest;
  }

  // ----- One scan step reads only its stretch -----

  /** How far the scan reads for one replacement. */
  function Reach(s: string, c: Cut): nat
    requires c.next <= |s|
  {
    if c.piece.Other? then ValueStart(s, c.next) + 1 else c.next
  }

  lemma {:induction false} QuoteAgree(s: string, t: string, j: nat, b: nat)
    requires Agree(s, t, b) && ClosingQuote(s, j) < b
    ensures ClosingQuote(t, j) == ClosingQuote(s, j)
    decreases b - j
  {
    AgreeAt(s, t, b, j);
    if s[j] == '\\' {
      QuoteAgree(s, t, j + 2, b);
    } else if s[j] != '"' {
      QuoteAgree(s, t, j + 1, b);
    }
  }

  lemma SliceAgree(s: string, t: string, i: nat, j: nat, b: nat)
    requires Agree(s, t, b) && i <= j <= b
    ensures s[i..j] == t[i..j]
  {
  }

  lemma CutAtAgree(s: string, t: string, i: nat, keyEnd: nat, c: Cut)
    requires i < |s| && CutAt(s, i, keyEnd) == Some(c) && !c.piece.Other? && c.next <= |s| && Agree(s, t, c.next) && i < c.next
    ensures i < |t| && CutAt(t, i, keyEnd) == Some(c)
  {
    AgreeAt(s, t, c.next, i);
    if s[i] == '"' {
      QuoteAgree(s, t, i + 1, c.next);
      SliceAgree(s, t, i + 1, c.next - 1, c.next);
    } else {
      IndexAgree(s, t, ']', i, c.next);
      SliceAgree(s, t, i, c.next, c.next);
    }
  }

  /** A text that agrees as far as the scan reads has the same next replacement. */
  lemma CutAgrees(s: string, t: string, key: string, c: Cut)
    requires NextCut(s, key) == Some(c) && CutOk(s, c) && Agree(s, t, Reach(s, c))
    ensures NextCut(t, key) == Some(c)
  {
    var pos, keyEnd := CutStart(s, key, c);
    if c.piece.Other? {
      OtherAgain(s, t, key, c);
    } else {
      CutAtAgree(s, t, c.keep, keyEnd, c);
      ValueStartBounds(s, keyEnd);
      AgreeAt(s, t, c.next, c.keep);
      SameKey(s, t, key, pos, keyEnd, c.keep);
    }
  }

  // ----- Several fields in turn -----

  /** Masks one field after the other. */
  function MaskFields(s: string, keys: seq<string>): string
    decreases |keys|
  {
    if keys == [] then s else MaskFields(Mask(s, keys[0]), keys[1..])
  }

  lemma {:induction false} FieldsAppend(s: string, ks: seq<string>, ms: seq<string>)
    ensures MaskFields(s, ks + ms) == MaskFields(MaskFields(s, ks), ms)
    decreases |ks|
  {
    if ks == [] {
      assert ks + ms == ms;
    } else {
      assert (ks + ms)[1..] == ks[1..] + ms;
      FieldsAppend(Mask(s, ks[0]), ks[1..], ms);
    }
  }

  lemma {:induction false} FieldsNothing(s: string, ks: seq<string>)
    requires forall k :: k in ks ==> Mask(s, k) == s
    ensures MaskFields(s, ks) == s
    decreases |ks|
  {
    if ks != [] {
      assert ks[0] in ks;
      FieldsNothing(s, ks[1..]);
    }
  }

  lemma {:induction false} FieldsKeepToColon(s: string, ks: seq<string>)
    ensures KeepsToColon(s, MaskFields(s, ks))
    decreases |ks|
  {
    if ks != [] {
      MaskKeepsToColon(s, ks[0]);
      FieldsKeepToColon(Mask(s, ks[0]), ks[1..]);
      KeepsToColonTwice(s, Mask(s, ks[0]), MaskFields(s, ks));
    }
  }

  /** Masking one field makes no other one start earlier. */
  lemma NoneEarlier(s: string, a: string, b: string, m: nat)
    requires Tidy(b) && m <= |s| && m <= First(s, a) && m <= First(s, b)
    ensures m <= |Mask(s, a)| && m <= First(Mask(s, a), b) && Agree(s, Mask(s, a), m)
  {
    MaskSkip(s, a, m);
    MaskKeepsToColon(s[m..], a);
    NotInFront(s, b, m, Mask(s[m..], a));
  }

  /** Changes of the rest behind its first colon make no key start in front of the rest. */
  lemma NotInFront(s: string, b: string, m: nat, rest: string)
    requires Tidy(b) && m <= |s| && m <= First(s, b) && KeepsToColon(s[m..], rest)
    ensures m <= First(s[..m] + rest, b)
  {
    assert s == s[..m] + s[m..];
    forall q | 0 <= q < m
      ensures !OccursAt(s[..m] + rest, Needle(b), q)
    {
      NotBeforeFirst(s, Needle(b), 0, q);
      if OccursAt(s[..m] + rest, Needle(b), q) {
        OccursInOriginal(s[..m], s[m..], rest, b, q);
      }
    }
    FirstAtLeast(s[..m] + rest, Needle(b), 0, m);
  }

  lemma AgreeTwice(s: string, t: string, u: string, m: nat)
    requires Agree(s, t, m) && Agree(t, u, m)
    ensures Agree(s, u, m)
  {
    forall k | 0 <= k < m
      ensures s[k] == u[k]
    {
      AgreeAt(s, t, m, k);
      AgreeAt(t, u, m, k);
    }
  }

  /** Fields that start behind `m` leave the text up to there, and may as well be masked from any earlier
      position on. */
  lemma {:induction false} FieldsSkip(s: string, ks: seq<string>, n: nat, m: nat)
    requires n <= m <= |s| && forall k :: k in ks ==> Tidy(k) && m <= First(s, k)
    ensures MaskFields(s, ks) == s[..n] + MaskFields(s[n..], ks)
    ensures Agree(s, MaskFields(s, ks), m)
    decreases |ks|
  {
    if ks == [] {
      assert s == s[..n] + s[n..];
    } else {
      var a, t := ks[0], Mask(s, ks[0]);
      assert a in ks;
      MaskSkip(s, a, n);
      NoneEarlier(s, a, a, m);
      forall k | k in ks[1..]
        ensures Tidy(k) && m <= First(t, k)
      {
        assert k in ks;
        NoneEarlier(s, a, k, m);
      }
      FieldsSkip(t, ks[1..], n, m);
      SkippedFront(s, n, Mask(s[n..], a), t);
      AgreeTwice(s, t, MaskFields(s, ks), m);
    }
  }

  lemma SkippedFront(s: string, n: nat, rest: string, t: string)
    requires n <= |s| && t == s[..n] + rest
    ensures t[..n] == s[..n] && t[n..] == rest
  {
  }

  /** The other fields pass over what masking one of them has written in front. */
  lemma {:induction false} FieldsBehind(s: string, a: string, c: Cut, ks: seq<string>, rest: string)
    requires NextCut(s, a) == Some(c) && CutOk(s, c) && KeepsToColon(s[c.next..], rest)
    requires forall k :: k in ks ==> Tidy(k) && c.next <= First(s, k) && (c.piece.List? ==> !Completes(s[c.next..], k))
    ensures MaskFields(Front(s, c) + rest, ks) == Front(s, c) + MaskFields(rest, ks)
    decreases |ks|
  {
    if ks != [] {
      assert ks[0] in ks;
      FrontSkipped(s, a, c, ks[0], rest);
      MaskKeepsToColon(rest, ks[0]);
      KeepsToColonTwice(s[c.next..], rest, Mask(rest, ks[0]));
      FieldsBehind(s, a, c, ks[1..], Mask(rest, ks[0]));
    }
  }

  lemma MaskedThere(s: string, t: string, a: string, c: Cut)
    requires NextCut(s, a) == Some(c) && CutOk(s, c) && c.next <= Reach(s, c) && Agree(s, t, Reach(s, c))
    ensures c.next <= |t| && Mask(t, a) == Front(s, c) + Mask(t[c.next..], a)
  {
    CutAgrees(s, t, a, c);
    NextCutOk(t, a);
    MaskStep(t, KeyScanner(a), c);
    SliceAgree(s, t, 0, c.keep, Reach(s, c));
    assert s[..c.keep] == s[0..c.keep] && t[..c.keep] == t[0..c.keep];
  }

  /** The earliest field, masked at its place among the others, can be taken out in front. */
  lemma FieldsStep(s: string, pre: seq<string>, a: string, post: seq<string>, c: Cut)
    requires NextCut(s, a) == Some(c) && CutOk(s, c) && c.next <= Reach(s, c) <= |s|
    requires forall k :: k in pre + post ==> Tidy(k) && Reach(s, c) <= First(s, k)
    requires forall k :: k in pre + post ==> (c.piece.List? ==> !Completes(s[c.next..], k))
    ensures MaskFields(s, pre + [a] + post) == Front(s, c) + MaskFields(s[c.next..], pre + [a] + post)
  {
    var n := c.next;
    var t, x := MaskFields(s, pre), MaskFields(s[n..], pre);
    forall k | k in pre
      ensures Tidy(k) && Reach(s, c) <= First(s, k)
    {
      assert k in pre + post;
    }
    FieldsSkip(s, pre, n, Reach(s, c));
    SkippedFront(s, n, x, t);
    MaskedThere(s, t, a, c);
    FieldsKeepToColon(s[n..], pre);
    MaskKeepsToColon(x, a);
    KeepsToColonTwice(s[n..], x, Mask(x, a));
    forall k | k in post
      ensures Tidy(k) && n <= First(s, k) && (c.piece.List? ==> !Completes(s[n..], k))
    {
      assert k in pre + post;
    }
    FieldsBehind(s, a, c, post, Mask(x, a));
    InTheMiddle(s, pre, a, post);
    InTheMiddle(s[n..], pre, a, post);
  }

  lemma InTheMiddle(s: string, pre: seq<string>, a: string, post: seq<string>)
    ensures MaskFields(s, pre + [a] + post) == MaskFields(Mask(MaskFields(s, pre), a), post)
  {
    FieldsAppend(s, pre + [a], post);
    FieldsAppend(s, pre, [a]);
    var t := MaskFields(s, pre);
    assert [a][1..] == [];
    assert MaskFields(t, [a]) == MaskFields(Mask(t, a), []);
  }

  predicate Distinct(ks: seq<string>) {
    forall i, j :: 0 <= i < j < |ks| ==> ks[i] != ks[j]
  }

  lemma SplitAt(ks: seq<string>, a: string) returns (pre: seq<string>, post: seq<string>)
    requires a in ks && Distinct(ks)
    ensures ks == pre + [a] + post && forall k :: k in pre + post ==> k in ks && k != a
  {
    var i :| 0 <= i < |ks| && ks[i] == a;
    pre, post := ks[..i], ks[i + 1..];
    forall k | k in pre + post
      ensures k in ks && k != a
    {
      if k in pre {
        var j :| 0 <= j < |pre| && pre[j] == k;
        assert ks[j] == k;
      } else {
        var j :| 0 <= j < |post| && post[j] == k;
        assert ks[i + 1 + j] == k;
      }
    }
  }

  /** The field `a`, done before any of the others starts, can be taken out in front. */
  lemma TakenOut(s: string, ks: seq<string>, a: string, c: Cut)
    requires a in ks && Distinct(ks) && (forall k :: k in ks ==> Tidy(k))
    requires NextCut(s, a) == Some(c) && CutOk(s, c) && c.next <= Reach(s, c) <= |s|
    requires forall k :: k in ks && k != a ==> Reach(s, c) <= First(s, k) && (c.piece.List? ==> !Completes(s[c.next..], k))
    ensures MaskFields(s, ks) == Front(s, c) + MaskFields(s[c.next..], ks)
  {
    var pre, post := SplitAt(ks, a);
    FieldsStep(s, pre, a, post, c);
  }

  lemma InTurn(s: string, first: string, second: string)
    ensures MaskFields(s, [first, second]) == Mask(Mask(s, first), second)
  {
    var once := Mask(s, first);
    assert [first, second][1..] == [second];
    assert [second][1..] == [];
    assert MaskFields(once, [second]) == MaskFields(Mask(once, second), []);
  }

}
