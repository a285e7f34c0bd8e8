/** Masking does not look at the case of letters: texts that differ in nothing else are cut at the same places,
    and still differ in nothing else afterwards. */
module LetterCase {
  import opened Collections
  import opened FieldOrder
  import opened Masking

  /** The same character, or the same letter of the alphabet in its two cases. */
  predicate SameLetter(a: char, b: char) {
    || a == b
    || ('a' <= a <= 'z' && b as int + 32 == a as int)
    || ('a' <= b <= 'z' && a as int + 32 == b as int)
  }

  predicate SameButCase(s: string, t: string) {
    |s| == |t| && forall i :: 0 <= i < |s| ==> SameLetter(s[i], t[i])
  }

  /** Not a letter. */
  predicate Caseless(c: char) {
    !('a' <= c <= 'z') && !('A' <= c <= 'Z')
  }

  lemma CaselessSame(a: char, b: char, c: char)
    requires SameLetter(a, b) && Caseless(c)
    ensures a == c <==> b == c
  {
  }

  lemma LowerSame(a: char, b: char)
    requires SameLetter(a, b)
    ensures LowerChar(a) == LowerChar(b)
  {
  }

  lemma TailSame(s: string, t: string, n: nat)
    requires SameButCase(s, t) && n <= |s|
    ensures SameButCase(s[n..], t[n..]) && SameButCase(s[..n], t[..n])
  {
  }

  lemma JoinSame(a: string, b: string, x: string, y: string)
    requires SameButCase(a, b) && SameButCase(x, y)
    ensures SameButCase(a + x, b + y)
  {
  }

  // ----- One scan step -----

  lemma OccursSame(s: string, t: string, needle: string, k: nat)
    requires SameButCase(s, t)
    ensures OccursAt(s, needle, k) <==> OccursAt(t, needle, k)
  {
    forall i | 0 <= i < |s|
      ensures LowerChar(s[i]) == LowerChar(t[i])
    {
      LowerSame(s[i], t[i]);
    }
  }

  lemma {:induction false} FindSame(s: string, t: string, needle: string, i: nat)
    requires SameButCase(s, t) && i <= |s| && needle != ""
    ensures Find(s, needle, i) == Find(t, needle, i)
    decreases |s| - i
  {
    if i < |s| {
      OccursSame(s, t, needle, i);
      FindSame(s, t, needle, i + 1);
    }
  }

  lemma {:induction false} IndexSame(s: string, t: string, c: char, i: nat)
    requires SameButCase(s, t) && i <= |s| && Caseless(c)
    ensures IndexChar(s, c, i) == IndexChar(t, c, i)
    decreases |s| - i
  {
    if i < |s| {
      CaselessSame(s[i], t[i], c);
      IndexSame(s, t, c, i + 1);
    }
  }

  lemma {:induction false} BlanksSame(s: string, t: string, i: nat)
    requires SameButCase(s, t) && i <= |s|
    ensures SkipBlanks(s, i) == SkipBlanks(t, i)
    decreases |s| - i
  {
    if i < |s| {
      CaselessSame(s[i], t[i], ' ');
      CaselessSame(s[i], t[i], '\t');
      BlanksSame(s, t, i + 1);
    }
  }

  lemma {:induction false} QuoteSame(s: string, t: string, j: nat)
    requires SameButCase(s, t)
    ensures ClosingQuote(s, j) == ClosingQuote(t, j)
    decreases |s| - j
  {
    if j < |s| {
      CaselessSame(s[j], t[j], '\\');
      CaselessSame(s[j], t[j], '"');
      QuoteSame(s, t, j + 1);
      QuoteSame(s, t, j + 2);
    }
  }

  /** The pieces are of the same kind, and string values are the same but for case. */
  predicate SamePiece(p: Piece, q: Piece) {
    match p
    case Value(v) => q.Value? && SameButCase(v, q.contents)
    case List(_) => q.List?
    case Other => q.Other?
  }

  /** Both texts are cut at the same place, or neither is cut. */
  predicate SameCut(c: Option<Cut>, d: Option<Cut>) {
    match c
    case None => d.None?
    case Some(x) => d.Some? && d.value.keep == x.keep && d.value.next == x.next && SamePiece(x.piece, d.value.piece)
  }

  lemma CutAtSame(s: string, t: string, i: nat, keyEnd: nat)
    requires SameButCase(s, t) && i < |s|
    ensures SameCut(CutAt(s, i, keyEnd), CutAt(t, i, keyEnd))
  {
    CaselessSame(s[i], t[i], '"');
    CaselessSame(s[i], t[i], '[');
    QuoteSame(s, t, i + 1);
    IndexSame(s, t, ']', i);
  }

  lemma ValueCutSame(s: string, t: string, keyEnd: nat)
    requires SameButCase(s, t) && keyEnd <= |s|
    ensures SameCut(ValueCut(s, keyEnd), ValueCut(t, keyEnd))
  {
    IndexSame(s, t, ':', keyEnd);
    var colon := IndexChar(s, ':', keyEnd);
    if colon < |s| {
      BlanksSame(s, t, colon + 1);
    }
    if ValueStart(s, keyEnd) < |s| {
      CutAtSame(s, t, ValueStart(s, keyEnd), keyEnd);
    }
  }

  /** A key, written in any case, is found at the same places, and its value is cut at the same places. */
  lemma NextCutSame(s: string, t: string, key: string)
    requires SameButCase(s, t)
    ensures SameCut(NextCut(s, key), NextCut(t, key))
  {
    FindSame(s, t, Needle(key), 0);
    var pos := Find(s, Needle(key), 0);
    if pos < |s| {
      ValueCutSame(s, t, pos + |Needle(key)|);
    }
  }

  // ----- Whole texts -----

  lemma MaskedSame(p: Piece, q: Piece)
    requires SamePiece(p, q)
    ensures SameButCase(Masked(p), Masked(q))
  {
    match p
    case Value(v) => assert SameButCase(MaskValue(v), MaskValue(q.contents));
    case _ =>
  }

  /** Over all texts: two texts that differ only in the case of letters are masked alike. */
  lemma {:induction false} CaseIgnored(s: string, t: string, key: string)
    requires SameButCase(s, t)
    ensures SameButCase(Mask(s, key), Mask(t, key))
    decreases |s|
  {
    NextCutSame(s, t, key);
    NextCutOk(s, key);
    NextCutOk(t, key);
    if NextCut(s, key).Some? {
      var c, d := NextCut(s, key).value, NextCut(t, key).value;
      TailSame(s, t, c.keep);
      TailSame(s, t, c.next);
      CaseIgnored(s[c.next..], t[c.next..], key);
      MaskedSame(c.piece, d.piece);
      MaskStep(s, KeyScanner(key), c);
      MaskStep(t, KeyScanner(key), d);
      JoinSame(s[..c.keep], t[..c.keep], Masked(c.piece), Masked(d.piece));
      JoinSame(s[..c.keep] + Masked(c.piece), t[..c.keep] + Masked(d.piece), Mask(s[c.next..], key), Mask(t[c.next..], key));
    }
  }

  /** So does the whole pass, in any order of the fields. */
  lemma {:induction false} PassIgnoresCase(s: string, t: string, ks: seq<string>)
    requires SameButCase(s, t)
    ensures SameButCase(MaskFields(s, ks), MaskFields(t, ks))
    decreases |ks|
  {
    if ks != [] {
      CaseIgnored(s, t, ks[0]);
      PassIgnoresCase(Mask(s, ks[0]), Mask(t, ks[0]), ks[1..]);
    }
  }
}
