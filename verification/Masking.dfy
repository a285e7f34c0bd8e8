/** Masking of sensitive fields in logged JSON text: a scanner that looks for a quoted key, walks to its
    value and replaces it, over a text that changes while it is scanned. Texts are ASCII; JSON strings
    and their escapes are those of section 7 of RFC 8259. */
module Masking {
  import opened Collections

  // ----- Searching -----

  function LowerChar(c: char): char {
    if 'A' <= c <= 'Z' then (c as int + 32) as char else c
  }

  /** The needle occurs at `k`, letters compared without case. */
  predicate OccursAt(s: string, needle: string, k: nat) {
    k + |needle| <= |s| && forall m :: 0 <= m < |needle| ==> LowerChar(s[k + m]) == needle[m]
  }

  /** The first occurrence of the needle from `i` on, or the length of the text. */
  function Find(s: string, needle: string, i: nat): (r: nat)
    requires i <= |s| && needle != ""
    ensures i <= r <= |s| && (r < |s| ==> r + |needle| <= |s|)
    decreases |s| - i
  {
    if i == |s| then i else if OccursAt(s, needle, i) then i else Find(s, needle, i + 1)
  }

  /** The first `c` from `i` on, or the length of the text. */
  function IndexChar(s: string, c: char, i: nat): (r: nat)
    requires i <= |s|
    ensures i <= r <= |s|
    decreases |s| - i
  {
    if i == |s| then i else if s[i] == c then i else IndexChar(s, c, i + 1)
  }

  predicate Blank(c: char) {
    c == ' ' || c == '\t'
  }

  /** The first position from `i` on that is not blank, or the length of the text. */
  function SkipBlanks(s: string, i: nat): (r: nat)
    requires i <= |s|
    ensures i <= r <= |s|
    decreases |s| - i
  {
    if i == |s| then i else if Blank(s[i]) then SkipBlanks(s, i + 1) else i
  }

  /** The closing quote of a string whose contents start at `j`; a backslash takes the next character
      with it. Past the end if the string is not closed. */
  function ClosingQuote(s: string, j: nat): (r: nat)
    ensures r >= j && (r < |s| ==> s[r] == '"')
    decreases |s| - j
  {
    if j >= |s| then j
    else if s[j] == '\\' then ClosingQuote(s, j + 2)
    else if s[j] == '"' then j
    else ClosingQuote(s, j + 1)
  }

  // ----- One value -----

  function Stars(n: nat): (r: string)
    ensures |r| == n && forall k :: 0 <= k < n ==> r[k] == '*'
  {
    seq(n, _ => '*')
  }

  /** Keeps the first two characters of a longer value. */
  function MaskValue(v: string): (m: string)
    ensures |m| == |v|
    ensures forall k :: 0 <= k < |v| ==> m[k] == if k < 2 < |v| then v[k] else '*'
  {
    if |v| <= 2 then Stars(|v|) else v[..2] + Stars(|v| - 2)
  }

  function Quoted(v: string): string {
    ['"'] + v + ['"']
  }

  /** A stretch that masking may rewrite: a string value, an array, or nothing at all. */
  datatype Piece = Value(contents: string) | List(text: string) | Other

  function Before(p: Piece): string {
    match p
    case Value(contents) => Quoted(contents)
    case List(text) => text
    case Other => ""
  }

  function Masked(p: Piece): string {
    match p
    case Value(contents) => Quoted(MaskValue(contents))
    case List(_) => Quoted("***")
    case Other => ""
  }

  // ----- One step of the scan -----

  /** One replacement: the piece stands at `keep .. next` of what is left of the text, and the scan goes
      on behind it. */
  datatype Cut = Cut(keep: nat, piece: Piece, next: nat)

  predicate CutOk(s: string, c: Cut) {
    && c.keep <= c.next <= |s| && 0 < c.next
    && s[c.keep..c.next] == Before(c.piece)
    && (c.piece.List? ==> c.piece.text != "" && c.piece.text[0] == '[')
  }

  /** Where the value of a key that ends at `keyEnd` starts: behind the next colon and blanks, wherever
      that colon is. The length of the text if there is none. */
  function ValueStart(s: string, keyEnd: nat): (i: nat)
    requires keyEnd <= |s|
    ensures keyEnd <= i <= |s|
  {
    var colon := IndexChar(s, ':', keyEnd);
    if colon == |s| then |s| else SkipBlanks(s, colon + 1)
  }

  /** The replacement for a value that starts at `i`; values that are neither strings nor arrays, and
      unclosed ones, are left alone. */
  function CutAt(s: string, i: nat, keyEnd: nat): Option<Cut>
    requires i < |s|
  {
    if s[i] == '"' then
      var j := ClosingQuote(s, i + 1);
      if j >= |s| then None else Some(Cut(i, Value(s[i + 1..j]), j + 1))
    else if s[i] == '[' then
      var end := IndexChar(s, ']', i);
      if end == |s| then None else Some(Cut(i, List(s[i..end + 1]), end + 1))
    else Some(Cut(keyEnd, Other, keyEnd))
  }

  function ValueCut(s: string, keyEnd: nat): Option<Cut>
    requires keyEnd <= |s|
  {
    var i := ValueStart(s, keyEnd);
    if i == |s| then None else CutAt(s, i, keyEnd)
  }

  function Needle(key: string): string {
    Quoted(key)
  }

  function NextCut(s: string, key: string): Option<Cut> {
    var needle := Needle(key);
    var pos := Find(s, needle, 0);
    if pos == |s| then None else ValueCut(s, pos + |needle|)
  }

  lemma NextCutOk(s: string, key: string)
    ensures NextCut(s, key).Some? ==> CutOk(s, NextCut(s, key).value)
  {
    var pos := Find(s, Needle(key), 0);
    if pos < |s| {
      var keyEnd := pos + |Needle(key)|;
      ValueCutOk(s, keyEnd);
      assert NextCut(s, key) == ValueCut(s, keyEnd);
    }
  }

  lemma ValueCutOk(s: string, keyEnd: nat)
    requires 0 < keyEnd <= |s|
    ensures ValueCut(s, keyEnd).Some? ==> CutOk(s, ValueCut(s, keyEnd).value)
  {
    var c := ValueCut(s, keyEnd);
    if c.Some? && c.value.piece.Value? {
      assert s[c.value.keep..c.value.next] == Quoted(c.value.piece.contents);
    }
  }

  // ----- The whole scan, for any way of finding the next replacement -----

  type Scanner = string -> Option<Cut>

  predicate Finds(scan: Scanner, s: string, c: Cut) {
    scan(s) == Some(c) && CutOk(s, c)
  }

  function KeyScanner(key: string): Scanner {
    s => NextCut(s, key)
  }

  /** All replacements in a text, each counted from the end of the one before. */
  function CutsBy(s: string, scan: Scanner): (cs: seq<Cut>)
    ensures PlanOk(s, cs)
    decreases |s|
  {
    match scan(s)
    case Some(c) => if CutOk(s, c) then [c] + CutsBy(s[c.next..], scan) else []
    case None => []
  }

  function MaskBy(s: string, scan: Scanner): string
    decreases |s|
  {
    match scan(s)
    case Some(c) => if CutOk(s, c) then s[..c.keep] + Masked(c.piece) + MaskBy(s[c.next..], scan) else s
    case None => s
  }

  lemma {:induction false} MaskIsRewrite(s: string, scan: Scanner)
    ensures Rewrite(s, CutsBy(s, scan), true) == MaskBy(s, scan)
    decreases |s|
  {
    match scan(s)
    case Some(c) =>
      if CutOk(s, c) {
        MaskIsRewrite(s[c.next..], scan);
        assert CutsBy(s, scan)[1..] == CutsBy(s[c.next..], scan);
      }
    case None =>
  }

  function Cuts(s: string, key: string): (cs: seq<Cut>)
    ensures PlanOk(s, cs)
  {
    CutsBy(s, KeyScanner(key))
  }

  /** The text with every value of the key masked. */
  function Mask(s: string, key: string): string {
    MaskBy(s, KeyScanner(key))
  }

  predicate PlanOk(s: string, cs: seq<Cut>)
    decreases |cs|
  {
    cs == [] || (CutOk(s, cs[0]) && PlanOk(s[cs[0].next..], cs[1..]))
  }

  /** Carries the replacements out; with `masking` off, writes every piece back as it was. */
  function Rewrite(s: string, cs: seq<Cut>, masking: bool): string
    requires PlanOk(s, cs)
    decreases |cs|
  {
    if cs == [] then s
    else
      var c := cs[0];
      s[..c.keep] + (if masking then Masked(c.piece) else Before(c.piece)) + Rewrite(s[c.next..], cs[1..], masking)
  }

  /** Masking changes nothing outside the pieces: written back with the pieces as they were, the same
      stretches make up the original text. */
  lemma {:induction false} OnlyPiecesChange(s: string, cs: seq<Cut>)
    requires PlanOk(s, cs)
    ensures Rewrite(s, cs, false) == s
    decreases |cs|
  {
    if cs != [] {
      var c := cs[0];
      OnlyPiecesChange(s[c.next..], cs[1..]);
      SpliceBack(s, c);
    }
  }

  lemma SpliceBack(s: string, c: Cut)
    requires CutOk(s, c)
    ensures s == s[..c.keep] + Before(c.piece) + s[c.next..]
  {
    assert s == s[..c.keep] + s[c.keep..c.next] + s[c.next..];
  }

  /** Without array values the length does not change either. */
  lemma {:induction false} LengthKept(s: string, cs: seq<Cut>)
    requires PlanOk(s, cs)
    requires forall c :: c in cs ==> !c.piece.List?
    ensures |Rewrite(s, cs, true)| == |s|
    decreases |cs|
  {
    if cs != [] {
      LengthKept(s[cs[0].next..], cs[1..]);
      assert cs[0] in cs;
    }
  }

  /** At most two characters are still readable, and none of a short value. */
  predicate AlreadyMasked(v: string) {
    forall k :: 0 <= k < |v| && !(k < 2 < |v|) ==> v[k] == '*'
  }

  predicate PieceMasked(p: Piece) {
    match p
    case Value(contents) => AlreadyMasked(contents)
    case List(_) => false
    case Other => true
  }

  lemma MaskedPieceFixed(p: Piece)
    requires p.List? ==> p.text != "" && p.text[0] == '['
    ensures Masked(p) == Before(p) <==> PieceMasked(p)
    ensures Masked(p) != "" <==> Before(p) != ""
    ensures p.Value? ==> |Masked(p)| == |Before(p)|
    ensures p.List? ==> Masked(p)[0] != Before(p)[0]
  {
    match p
    case Value(v) =>
      assert Masked(p)[1..|v| + 1] == MaskValue(v);
      assert Before(p)[1..|v| + 1] == v;
      assert AlreadyMasked(v) <==> MaskValue(v) == v;
    case List(_) =>
    case Other =>
  }

  /** Carrying out a plan leaves the text as it is if and only if all its pieces are masked already. */
  lemma {:induction false} FixedPlan(s: string, cs: seq<Cut>)
    requires PlanOk(s, cs)
    ensures Rewrite(s, cs, true) == s <==> forall c :: c in cs ==> PieceMasked(c.piece)
    decreases |cs|
  {
    if cs != [] {
      var c := cs[0];
      var rest := s[c.next..];
      FixedPlan(rest, cs[1..]);
      MaskedPieceFixed(c.piece);
      assert cs == [c] + cs[1..];
      SpliceFixed(s, c, Rewrite(rest, cs[1..], true));
    }
  }

  lemma SpliceFixed(s: string, c: Cut, rest: string)
    requires CutOk(s, c)
    ensures s[..c.keep] + Masked(c.piece) + rest == s <==> PieceMasked(c.piece) && rest == s[c.next..]
  {
    MaskedPieceFixed(c.piece);
    var t := s[..c.keep] + Masked(c.piece) + rest;
    SpliceBack(s, c);
    if c.piece.List? {
      assert t[c.keep] == Masked(c.piece)[0];
      assert s[c.keep] == Before(c.piece)[0];
    } else {
      assert t[c.keep..c.next] == Masked(c.piece);
      assert t[c.next..] == rest;
    }
  }

  // ----- Scanning a masked text again -----

  ghost predicate Agree(s: string, t: string, b: nat) {
    b <= |s| && b <= |t| && forall k :: 0 <= k < b ==> s[k] == t[k]
  }

  lemma AgreeAt(s: string, t: string, b: nat, k: nat)
    requires Agree(s, t, b) && k < b
    ensures s[k] == t[k]
  {
  }

  lemma OccursAgree(s: string, t: string, needle: string, k: nat, b: nat)
    requires Agree(s, t, b) && k + |needle| <= b
    ensures OccursAt(s, needle, k) == OccursAt(t, needle, k)
  {
    forall x | k <= x < k + |needle|
      ensures s[x] == t[x]
    {
      AgreeAt(s, t, b, x);
    }
  }

  lemma {:induction false} FindAgree(s: string, t: string, needle: string, i: nat, b: nat)
    requires Agree(s, t, b) && i <= |s| && needle != ""
    requires Find(s, needle, i) < |s| && Find(s, needle, i) + |needle| <= b
    ensures i <= |t| && Find(t, needle, i) == Find(s, needle, i)
    decreases |s| - i
  {
    OccursAgree(s, t, needle, i, b);
    if !OccursAt(s, needle, i) {
      FindAgree(s, t, needle, i + 1, b);
    }
  }

  lemma {:induction false} IndexAgree(s: string, t: string, c: char, i: nat, b: nat)
    requires Agree(s, t, b) && i <= |s| && IndexChar(s, c, i) < b
    ensures i <= |t| && IndexChar(t, c, i) == IndexChar(s, c, i)
    decreases |s| - i
  {
    AgreeAt(s, t, b, i);
    if s[i] != c {
      IndexAgree(s, t, c, i + 1, b);
    }
  }

  lemma {:induction false} BlanksAgree(s: string, t: string, i: nat, b: nat)
    requires Agree(s, t, b) && i <= b && SkipBlanks(s, i) == b < |t| && !Blank(t[b])
    ensures SkipBlanks(t, i) == b
    decreases b - i
  {
    if i < b {
      AgreeAt(s, t, b, i);
      BlanksAgree(s, t, i + 1, b);
    }
  }

  lemma ValueStartBounds(s: string, keyEnd: nat)
    requires keyEnd <= |s| && ValueStart(s, keyEnd) < |s|
    ensures var colon := IndexChar(s, ':', keyEnd);
            keyEnd <= colon < ValueStart(s, keyEnd) && s[colon] == ':' && !Blank(s[ValueStart(s, keyEnd)])
  {
    IndexFound(s, ':', keyEnd);
    BlanksEnd(s, IndexChar(s, ':', keyEnd) + 1);
  }

  lemma {:induction false} IndexFound(s: string, c: char, i: nat)
    requires i <= |s|
    ensures IndexChar(s, c, i) < |s| ==> s[IndexChar(s, c, i)] == c
    ensures forall k :: i <= k < IndexChar(s, c, i) ==> s[k] != c
    decreases |s| - i
  {
    if i < |s| && s[i] != c {
      IndexFound(s, c, i + 1);
    }
  }

  lemma {:induction false} BlanksEnd(s: string, i: nat)
    requires i <= |s|
    ensures SkipBlanks(s, i) < |s| ==> !Blank(s[SkipBlanks(s, i)])
    ensures forall k :: i <= k < SkipBlanks(s, i) ==> Blank(s[k])
    decreases |s| - i
  {
    if i < |s| && Blank(s[i]) {
      BlanksEnd(s, i + 1);
    }
  }

  /** Two texts that agree up to where a value starts, and both have one there. */
  lemma StartAgree(s: string, t: string, keyEnd: nat)
    requires keyEnd <= |s| && ValueStart(s, keyEnd) < |s| && Agree(s, t, ValueStart(s, keyEnd))
    requires ValueStart(s, keyEnd) < |t| && !Blank(t[ValueStart(s, keyEnd)])
    ensures keyEnd <= ValueStart(s, keyEnd) && ValueStart(t, keyEnd) == ValueStart(s, keyEnd)
  {
    var start := ValueStart(s, keyEnd);
    ValueStartBounds(s, keyEnd);
    IndexAgree(s, t, ':', keyEnd, start);
    BlanksAgree(s, t, IndexChar(s, ':', keyEnd) + 1, start);
  }

  // The closing quote of a masked value is found at the same place.

  lemma {:induction false} QuoteAfterStars(t: string, k: nat, j: nat)
    requires k <= j < |t| && t[j] == '"' && forall m :: k <= m < j ==> t[m] == '*'
    ensures ClosingQuote(t, k) == j
    decreases j - k
  {
    if k < j {
      QuoteAfterStars(t, k + 1, j);
    }
  }

  /** Escapes cut in two do not move the closing quote: a backslash kept as the second character takes a
      star with it. */
  lemma QuoteStays(s: string, t: string, i: nat, j: nat)
    requires i <= j < |s| && ClosingQuote(s, i) == j
    requires j < |t| && t[j] == '"'
    requires forall k :: i <= k < j ==> t[k] == if k - i < 2 < j - i then s[k] else '*'
    ensures ClosingQuote(t, i) == j
  {
    if j - i <= 2 {
      QuoteAfterStars(t, i, j);
    } else if s[i] == '\\' {
      QuoteAfterStars(t, i + 2, j);
    } else if s[i + 1] == '\\' {
      assert ClosingQuote(s, i) == ClosingQuote(s, i + 1) == ClosingQuote(s, i + 3);
      QuoteAfterStars(t, i + 3, j);
    } else {
      assert ClosingQuote(s, i) == ClosingQuote(s, i + 1);
      QuoteAfterStars(t, i + 2, j);
    }
  }

  /** If two texts agree up to where the value of the next key starts, and the other has a value there
      as well, the scan of the other text stops at the same place. */
  lemma SameKey(s: string, t: string, key: string, pos: nat, keyEnd: nat, i: nat)
    requires Find(s, Needle(key), 0) == pos < |s| && keyEnd == pos + |Needle(key)| <= |s|
    requires ValueStart(s, keyEnd) == i < |s| && Agree(s, t, i) && i < |t| && !Blank(t[i])
    ensures NextCut(t, key) == CutAt(t, i, keyEnd)
  {
    FindAgree(s, t, Needle(key), 0, i);
    StartAgree(s, t, keyEnd);
    NextCutIs(t, key, pos, keyEnd, i);
  }

  lemma NextCutIs(t: string, key: string, pos: nat, keyEnd: nat, i: nat)
    requires Find(t, Needle(key), 0) == pos < |t| && keyEnd == pos + |Needle(key)| <= |t|
    requires ValueStart(t, keyEnd) == i < |t|
    ensures NextCut(t, key) == CutAt(t, i, keyEnd)
  {
  }

  lemma SliceOfSlice(t: string, a: nat, b: nat, c: nat, d: nat)
    requires a <= b <= |t| && c <= d <= b - a
    ensures t[a..b][c..d] == t[a + c..a + d]
  {
    forall k | 0 <= k < d - c
      ensures t[a..b][c..d][k] == t[a + c..a + d][k]
    {
    }
  }

  lemma QuotedParts(m: string)
    ensures Quoted(m)[0] == '"' && Quoted(m)[|m| + 1] == '"' && Quoted(m)[1..|m| + 1] == m
  {
  }

  /** The characters of a masked value, seen in the text it was put into. */
  lemma MaskedChars(t: string, i: nat, j: nat, v: string)
    requires i < j < |t| && |v| == j - (i + 1) && t[i..j + 1] == Quoted(MaskValue(v))
    ensures t[i] == '"' && t[j] == '"' && t[i + 1..j] == MaskValue(v)
    ensures forall k :: i + 1 <= k < j ==> t[k] == if k - (i + 1) < 2 < j - (i + 1) then v[k - (i + 1)] else '*'
  {
    var q := t[i..j + 1];
    var m := MaskValue(v);
    QuotedParts(m);
    SliceOfSlice(t, i, j + 1, 1, j - i);
    forall k | i + 1 <= k < j
      ensures t[k] == m[k - (i + 1)]
    {
      assert t[i + 1..j][k - (i + 1)] == t[k];
    }
  }

  lemma ValueCutAgain(s: string, t: string, i: nat, j: nat, keyEnd: nat)
    requires i < j < |s| && ClosingQuote(s, i + 1) == j
    requires j < |t| && t[i..j + 1] == Quoted(MaskValue(s[i + 1..j]))
    ensures t[i] == '"' && CutAt(t, i, keyEnd) == Some(Cut(i, Value(MaskValue(s[i + 1..j])), j + 1))
  {
    MaskedChars(t, i, j, s[i + 1..j]);
    QuoteStays(s, t, i + 1, j);
  }

  lemma ListCutAgain(t: string, i: nat, keyEnd: nat)
    requires i + 5 <= |t| && t[i..i + 5] == Quoted("***")
    ensures t[i] == '"' && CutAt(t, i, keyEnd) == Some(Cut(i, Value("***"), i + 5))
  {
    var q := t[i..i + 5];
    assert q == ['"', '*', '*', '*', '"'];
    assert t[i] == q[0] && t[i + 1] == q[1] && t[i + 2] == q[2] && t[i + 3] == q[3] && t[i + 4] == q[4];
    QuoteAfterStars(t, i + 1, i + 4);
    assert t[i + 1..i + 4] == "***";
  }

  /** What the second scan will find where the first one made a replacement. */
  function Settled(c: Cut): Cut {
    match c.piece
    case Value(contents) => Cut(c.keep, Value(MaskValue(contents)), c.next)
    case List(_) => Cut(c.keep, Value("***"), c.keep + 5)
    case Other => c
  }

  /** The start of the value behind a cut that replaces one. */
  lemma CutStart(s: string, key: string, c: Cut) returns (pos: nat, keyEnd: nat)
    requires NextCut(s, key) == Some(c)
    ensures Find(s, Needle(key), 0) == pos < |s| && keyEnd == pos + |Needle(key)| <= |s|
    ensures ValueStart(s, keyEnd) < |s| && CutAt(s, ValueStart(s, keyEnd), keyEnd) == Some(c)
    ensures if c.piece.Other? then c.keep == keyEnd else c.keep == ValueStart(s, keyEnd)
  {
    pos := Find(s, Needle(key), 0);
    keyEnd := pos + |Needle(key)|;
  }

  lemma CutAgain(s: string, t: string, key: string, c: Cut)
    requires NextCut(s, key) == Some(c) && !c.piece.Other?
    requires var after := c.keep + |Masked(c.piece)|;
             after <= |t| && Agree(s, t, c.keep) && t[c.keep..after] == Masked(c.piece)
    ensures NextCut(t, key) == Some(Settled(c))
  {
    var pos, keyEnd := CutStart(s, key, c);
    CutAtAgain(s, t, c, keyEnd);
    SameKey(s, t, key, pos, keyEnd, c.keep);
  }

  lemma CutAtAgain(s: string, t: string, c: Cut, keyEnd: nat)
    requires c.keep < |s| && CutAt(s, c.keep, keyEnd) == Some(c) && !c.piece.Other?
    requires var after := c.keep + |Masked(c.piece)|;
             after <= |t| && t[c.keep..after] == Masked(c.piece)
    ensures c.keep < |t| && t[c.keep] == '"' && CutAt(t, c.keep, keyEnd) == Some(Settled(c))
  {
    match c.piece {
      case Value(v) => ValueCutAgain(s, t, c.keep, c.next - 1, keyEnd);
      case List(_) => ListCutAgain(t, c.keep, keyEnd);
    }
  }

  lemma OtherAgain(s: string, t: string, key: string, c: Cut)
    requires NextCut(s, key) == Some(c) && c.piece.Other?
    requires c.next <= |s| && ValueStart(s, c.next) < |s| && Agree(s, t, ValueStart(s, c.next) + 1)
    ensures NextCut(t, key) == Some(c)
  {
    var pos, keyEnd := CutStart(s, key, c);
    var i := ValueStart(s, keyEnd);
    ValueStartBounds(s, keyEnd);
    AgreeAt(s, t, i + 1, i);
    SameKey(s, t, key, pos, keyEnd, i);
  }

  // A value of another kind is not disturbed by replacements behind its key.

  lemma {:induction false} IndexIs(s: string, c: char, i: nat, r: nat)
    requires i <= r < |s| && s[r] == c && forall k :: i <= k < r ==> s[k] != c
    ensures IndexChar(s, c, i) == r
    decreases r - i
  {
    if i < r {
      IndexIs(s, c, i + 1, r);
    }
  }

  lemma {:induction false} BlanksAre(s: string, i: nat, r: nat)
    requires i <= r < |s| && !Blank(s[r]) && forall k :: i <= k < r ==> Blank(s[k])
    ensures SkipBlanks(s, i) == r
    decreases r - i
  {
    if i < r {
      BlanksAre(s, i + 1, r);
    }
  }

  /** A colon at `q`, then blanks, then a value at `i` that is neither a string nor an array. */
  ghost predicate PlainValue(s: string, q: nat, i: nat) {
    && q < i < |s|
    && s[q] == ':' && (forall k :: 0 <= k < q ==> s[k] != ':')
    && (forall k :: q < k < i ==> Blank(s[k]))
    && !Blank(s[i]) && s[i] != '"' && s[i] != '['
  }

  lemma {:induction false} KeyOccurs(s: string, needle: string, i: nat)
    requires i <= |s| && needle != "" && Find(s, needle, i) < |s|
    ensures OccursAt(s, needle, Find(s, needle, i))
    decreases |s| - i
  {
    if !OccursAt(s, needle, i) {
      KeyOccurs(s, needle, i + 1);
    }
  }

  /** A key without a colon lies wholly before the colon or behind the value. */
  lemma KeyAside(s: string, key: string, q: nat, i: nat)
    requires ':' !in key && PlainValue(s, q, i) && Find(s, Needle(key), 0) < |s|
    ensures var pos := Find(s, Needle(key), 0);
            pos + |Needle(key)| <= q || i < pos
  {
    var needle := Needle(key);
    var pos := Find(s, needle, 0);
    KeyOccurs(s, needle, 0);
    assert LowerChar(s[pos + 0]) == needle[0] == '"';
    if pos <= q < pos + |needle| {
      NoColonInKey(s, key, pos, q);
    }
  }

  lemma NoColonInKey(s: string, key: string, pos: nat, q: nat)
    requires ':' !in key && OccursAt(s, Needle(key), pos) && pos <= q < pos + |Needle(key)|
    ensures s[q] != ':'
  {
    NeedleColonFree(key, q - pos);
    assert LowerChar(s[pos + (q - pos)]) == Needle(key)[q - pos];
  }

  lemma NeedleColonFree(key: string, m: nat)
    requires ':' !in key && m < |Needle(key)|
    ensures Needle(key)[m] != ':'
  {
    if 0 < m < |key| + 1 {
      assert Needle(key)[m] == key[m - 1];
    }
  }

  lemma PlainStart(s: string, keyEnd: nat, q: nat, i: nat)
    requires PlainValue(s, q, i) && keyEnd <= q
    ensures ValueStart(s, keyEnd) == i && CutAt(s, i, keyEnd) == Some(Cut(keyEnd, Other, keyEnd))
  {
    IndexIs(s, ':', keyEnd, q);
    BlanksAre(s, q + 1, i);
  }

  /** The first value of the text starts at `i` and is neither a string nor an array. */
  predicate PlainFirst(s: string, i: nat) {
    i < |s| && ValueStart(s, 0) == i && s[i] != '"' && s[i] != '['
  }

  lemma PlainFirstMeans(s: string, i: nat)
    requires PlainFirst(s, i)
    ensures PlainValue(s, IndexChar(s, ':', 0), i)
  {
    ValueStartBounds(s, 0);
    IndexFound(s, ':', 0);
    BlanksEnd(s, IndexChar(s, ':', 0) + 1);
  }

  lemma PlainRest(s: string, k: nat, q: nat, i: nat)
    requires PlainValue(s, q, i) && k <= q
    ensures k <= i && PlainFirst(s[k..], i - k)
  {
    var rest := s[k..];
    IndexIs(rest, ':', 0, q - k);
    BlanksAre(rest, q - k + 1, i - k);
  }

  /** The next replacement happens behind a plain first value, unless it is a key passed over before it. */
  lemma CutAside(s: string, key: string, c: Cut, i: nat)
    requires ':' !in key && PlainFirst(s, i) && NextCut(s, key) == Some(c)
    ensures i < c.keep || (c.piece.Other? && c.keep == c.next <= i && PlainFirst(s[c.next..], i - c.next))
  {
    PlainFirstMeans(s, i);
    var q := IndexChar(s, ':', 0);
    var pos, keyEnd := CutStart(s, key, c);
    KeyAside(s, key, q, i);
    if keyEnd <= q {
      PlainStart(s, keyEnd, q, i);
      PlainRest(s, keyEnd, q, i);
    }
  }

  // ----- Masking by any scanner that passes over plain values -----

  /** A replacement happens behind a plain first value, or is a key passed over before it. */
  predicate Aside(s: string, c: Cut, i: nat) {
    i < c.keep
    || (c.piece.Other? && c.keep == c.next <= i && c.next <= |s| && PlainFirst(s[c.next..], i - c.next))
  }

  /** The other text shows at the cut what masking puts there. */
  ghost predicate Shows(s: string, t: string, c: Cut) {
    if c.piece.Other? then
      c.next <= |s| && ValueStart(s, c.next) < |s| && Agree(s, t, ValueStart(s, c.next) + 1)
    else
      var after := c.keep + |Masked(c.piece)|;
      after <= |t| && Agree(s, t, c.keep) && t[c.keep..after] == Masked(c.piece)
  }

  /** Behind a key that is passed over stands a plain value. */
  predicate PlainBehind(s: string, c: Cut) {
    && c.keep == c.next <= |s|
    && ValueStart(s, c.next) < |s| && PlainFirst(s[c.next..], ValueStart(s, c.next) - c.next)
  }

  ghost predicate GoodScanner(scan: Scanner) {
    && (forall s, c :: scan(s) == Some(c) ==> CutOk(s, c))
    && (forall s, c :: Finds(scan, s, c) && c.piece.Other? ==> PlainBehind(s, c))
    && (forall s, c, i :: Finds(scan, s, c) && PlainFirst(s, i) ==> Aside(s, c, i))
    && (forall s, t, c :: Finds(scan, s, c) && Shows(s, t, c) ==> scan(t) == Some(Settled(c)))
  }

  lemma MaskStep(s: string, scan: Scanner, c: Cut)
    requires Finds(scan, s, c)
    ensures MaskBy(s, scan) == s[..c.keep] + Masked(c.piece) + MaskBy(s[c.next..], scan)
  {
  }

  /** A replacement leaves what stands before it. */
  lemma CutKeeps(s: string, scan: Scanner, c: Cut, b: nat)
    requires Finds(scan, s, c) && b <= c.keep
    ensures Agree(s, MaskBy(s, scan), b)
  {
    MaskStep(s, scan, c);
    AgreeFront(s, MaskBy(s, scan), Masked(c.piece), MaskBy(s[c.next..], scan), c.keep, b);
  }

  lemma AgreeFront(s: string, t: string, middle: string, tail: string, k: nat, b: nat)
    requires b <= k <= |s| && t == s[..k] + middle + tail
    ensures Agree(s, t, b)
  {
  }

  /** Passing over a key leaves it, and as much behind it as the rest of the scan leaves. */
  lemma SkipKeeps(s: string, scan: Scanner, c: Cut, b: nat)
    requires Finds(scan, s, c) && c.piece.Other? && c.keep == c.next <= b <= |s|
    requires Agree(s[c.next..], MaskBy(s[c.next..], scan), b - c.next)
    ensures Agree(s, MaskBy(s, scan), b)
  {
    MaskStep(s, scan, c);
    AgreeJoin(s, MaskBy(s, scan), Masked(c.piece), MaskBy(s[c.next..], scan), c.next, b);
  }

  lemma AgreeJoin(s: string, t: string, middle: string, tail: string, k: nat, b: nat)
    requires k <= b <= |s| && middle == "" && t == s[..k] + middle + tail && Agree(s[k..], tail, b - k)
    ensures Agree(s, t, b)
  {
    forall x | k <= x < b
      ensures s[x] == t[x]
    {
      assert s[k..][x - k] == tail[x - k];
    }
  }

  lemma {:induction false} PlainFirstKept(s: string, scan: Scanner, i: nat)
    requires GoodScanner(scan) && PlainFirst(s, i)
    ensures Agree(s, MaskBy(s, scan), i + 1)
    decreases |s|
  {
    if scan(s).Some? {
      var c := scan(s).value;
      assert Finds(scan, s, c) && Aside(s, c, i);
      if i < c.keep {
        CutKeeps(s, scan, c, i + 1);
      } else {
        PlainFirstKept(s[c.next..], scan, i - c.next);
        SkipKeeps(s, scan, c, i + 1);
      }
    }
  }

  /** After masking, a second scan starts where the first one did. */
  lemma MaskedShows(s: string, scan: Scanner, c: Cut)
    requires GoodScanner(scan) && Finds(scan, s, c)
    ensures Shows(s, MaskBy(s, scan), c)
  {
    if c.piece.Other? {
      assert PlainBehind(s, c);
      var i := ValueStart(s, c.next);
      PlainFirstKept(s[c.next..], scan, i - c.next);
      SkipKeeps(s, scan, c, i + 1);
    } else {
      CutKeeps(s, scan, c, c.keep);
      MaskStep(s, scan, c);
    }
  }

  function SettledAll(cs: seq<Cut>): seq<Cut> {
    if cs == [] then [] else [Settled(cs[0])] + SettledAll(cs[1..])
  }

  /** Scanning a masked text again finds the same values at the same places, arrays now as strings, and
      passes over the same other values. */
  lemma {:induction false} SecondScan(s: string, scan: Scanner)
    requires GoodScanner(scan)
    ensures CutsBy(MaskBy(s, scan), scan) == SettledAll(CutsBy(s, scan))
    decreases |s|
  {
    if scan(s).Some? {
      var c := scan(s).value;
      assert Finds(scan, s, c);
      SecondScan(s[c.next..], scan);
      MaskedShows(s, scan, c);
      assert scan(MaskBy(s, scan)) == Some(Settled(c));
      RestOfMasked(s, scan, c);
      CutsStep(s, scan, c);
      CutsStep(MaskBy(s, scan), scan, Settled(c));
    }
  }

  lemma CutsStep(s: string, scan: Scanner, c: Cut)
    requires Finds(scan, s, c)
    ensures CutsBy(s, scan) == [c] + CutsBy(s[c.next..], scan)
  {
  }

  lemma RestOfMasked(s: string, scan: Scanner, c: Cut)
    requires Finds(scan, s, c)
    ensures Settled(c).next <= |MaskBy(s, scan)|
    ensures MaskBy(s, scan)[Settled(c).next..] == MaskBy(s[c.next..], scan)
  {
    MaskStep(s, scan, c);
  }

  lemma {:induction false} SettledMasked(cs: seq<Cut>)
    ensures forall c :: c in SettledAll(cs) ==> PieceMasked(c.piece)
    decreases |cs|
  {
    if cs != [] {
      SettledMasked(cs[1..]);
    }
  }

  // ----- Main results -----

  lemma OtherStart(s: string, key: string, c: Cut)
    requires NextCut(s, key) == Some(c) && c.piece.Other?
    ensures c.keep == c.next <= |s|
    ensures var i := ValueStart(s, c.next); i < |s| && s[i] != '"' && s[i] != '['
  {
    var pos, keyEnd := CutStart(s, key, c);
  }

  lemma PlainBehindKey(s: string, keyEnd: nat, i: nat)
    requires keyEnd <= |s| && ValueStart(s, keyEnd) == i < |s| && s[i] != '"' && s[i] != '['
    ensures PlainFirst(s[keyEnd..], i - keyEnd)
  {
    ValueStartBounds(s, keyEnd);
    IndexFound(s, ':', keyEnd);
    var q := IndexChar(s, ':', keyEnd);
    BlanksEnd(s, q + 1);
    var rest := s[keyEnd..];
    IndexIs(rest, ':', 0, q - keyEnd);
    BlanksAre(rest, q - keyEnd + 1, i - keyEnd);
  }

  /** The scanner for one key, as long as the key has no colon in it, is a good one. */
  lemma KeyScannerIsGood(key: string)
    requires ':' !in key
    ensures GoodScanner(KeyScanner(key))
  {
    var scan := KeyScanner(key);
    forall s, c | scan(s) == Some(c)
      ensures CutOk(s, c)
    {
      NextCutOk(s, key);
    }
    forall s, c | Finds(scan, s, c) && c.piece.Other?
      ensures PlainBehind(s, c)
    {
      OtherStart(s, key, c);
      PlainBehindKey(s, c.next, ValueStart(s, c.next));
    }
    forall s, c, i | Finds(scan, s, c) && PlainFirst(s, i)
      ensures Aside(s, c, i)
    {
      CutAside(s, key, c, i);
    }
    forall s, t, c | Finds(scan, s, c) && Shows(s, t, c)
      ensures scan(t) == Some(Settled(c))
    {
      if c.piece.Other? {
        OtherAgain(s, t, key, c);
      } else {
        CutAgain(s, t, key, c);
      }
    }
  }

  /** Masking is idempotent. */
  lemma MaskIdempotent(s: string, key: string)
    requires ':' !in key
    ensures Mask(Mask(s, key), key) == Mask(s, key)
  {
    var scan := KeyScanner(key);
    KeyScannerIsGood(key);
    SecondScan(s, scan);
    SettledMasked(CutsBy(s, scan));
    MaskIsRewrite(MaskBy(s, scan), scan);
    FixedPlan(MaskBy(s, scan), CutsBy(MaskBy(s, scan), scan));
  }

  /** The unchanged texts are exactly those in which every value found is already masked, and masking
      always produces one of them. */
  lemma MaskedTexts(s: string, key: string)
    ensures Mask(s, key) == s <==> forall c :: c in Cuts(s, key) ==> PieceMasked(c.piece)
    ensures ':' !in key ==> forall c :: c in Cuts(Mask(s, key), key) ==> PieceMasked(c.piece)
  {
    var scan := KeyScanner(key);
    FixedPlan(s, CutsBy(s, scan));
    MaskIsRewrite(s, scan);
    if ':' !in key {
      KeyScannerIsGood(key);
      SecondScan(s, scan);
      SettledMasked(CutsBy(s, scan));
    }
  }

  /** Only the replaced values differ, and without array values not even the length does. */
  lemma MaskTouchesOnlyValues(s: string, key: string)
    ensures Rewrite(s, Cuts(s, key), false) == s && Rewrite(s, Cuts(s, key), true) == Mask(s, key)
    ensures (forall c :: c in Cuts(s, key) ==> !c.piece.List?) ==> |Mask(s, key)| == |s|
  {
    var cs := Cuts(s, key);
    OnlyPiecesChange(s, cs);
    MaskIsRewrite(s, KeyScanner(key));
    if forall c :: c in cs ==> !c.piece.List? {
      LengthKept(s, cs);
    }
  }

  // ----- The loop of the source -----

  /** The scan for the next value, step by step. */
  method LocateNext(rest: string, key: string) returns (c: Option<Cut>)
    ensures c == NextCut(rest, key)
  {
    var needle := Needle(key);
    var pos := Find(rest, needle, 0);
    if pos == |rest| {
      return None;
    }
    var keyEnd := pos + |needle|;
    var i := FindValue(rest, keyEnd);
    if i >= |rest| {
      return None;
    }
    c := ReadValue(rest, i, keyEnd);
    NextCutIs(rest, key, pos, keyEnd, i);
  }

  /** Walks to the next colon and over the blanks behind it. */
  method FindValue(rest: string, keyEnd: nat) returns (i: nat)
    requires keyEnd <= |rest|
    ensures i == ValueStart(rest, keyEnd)
  {
    var colon := IndexChar(rest, ':', keyEnd);
    if colon == |rest| {
      return |rest|;
    }
    i := colon + 1;
    while i < |rest| && (rest[i] == ' ' || rest[i] == '\t')
      invariant colon < i <= |rest|
      invariant SkipBlanks(rest, colon + 1) == SkipBlanks(rest, i)
    {
      i := i + 1;
    }
  }

  method ReadValue(rest: string, i: nat, keyEnd: nat) returns (c: Option<Cut>)
    requires i < |rest|
    ensures c == CutAt(rest, i, keyEnd)
  {
    if rest[i] == '"' {
      var j := i + 1;
      while j < |rest| && rest[j] != '"'
        invariant i < j && ClosingQuote(rest, i + 1) == ClosingQuote(rest, j)
        decreases |rest| - j
      {
        j := if rest[j] == '\\' then j + 2 else j + 1;
      }
      return if j >= |rest| then None else Some(Cut(i, Value(rest[i + 1..j]), j + 1));
    }
    if rest[i] == '[' {
      var end := IndexChar(rest, ']', i);
      return if end == |rest| then None else Some(Cut(i, List(rest[i..end + 1]), end + 1));
    }
    c := Some(Cut(keyEnd, Other, keyEnd));
  }

  /** The loop rewrites the text in place while it scans it. The text may grow or shrink at an array, but
      what is left to scan always shrinks. */
  method MaskField(input: string, key: string) returns (body: string)
    ensures body == Mask(input, key)
  {
    body := input;
    var idx: nat := 0;
    while true
      invariant idx <= |body|
      invariant Mask(input, key) == body[..idx] + Mask(body[idx..], key)
      decreases |body| - idx
    {
      var rest := body[idx..];
      var found := LocateNext(rest, key);
      if found.None? {
        assert body == body[..idx] + rest;
        return;
      }
      var c := found.value;
      NextCutOk(rest, key);
      MaskStep(rest, KeyScanner(key), c);
      ghost var done, tail := body[..idx], Mask(rest[c.next..], key);
      body, idx := Replaced(body, idx, c.keep, c.next, Masked(c.piece));
      Regroup(done, rest[..c.keep] + Masked(c.piece), tail);
    }
  }

  lemma Regroup(a: string, b: string, c: string)
    ensures a + b + c == a + (b + c)
  {
  }

  /** Writes the masked piece over the text at the cut and moves behind it. */
  method Replaced(text: string, idx: nat, keep: nat, next: nat, masked: string) returns (body: string, after: nat)
    requires idx <= |text| && keep <= next <= |text| - idx && 0 < next
    ensures after <= |body| && |body| - after < |text| - idx
    ensures body[after..] == text[idx..][next..]
    ensures body[..after] == text[..idx] + (text[idx..][..keep] + masked)
  {
    body := text[..idx + keep] + masked + text[idx + next..];
    after := idx + keep + |masked|;
    assert body[..after] == text[..idx + keep] + masked;
    assert text[..idx + keep] == text[..idx] + text[idx..][..keep];
  }
}
