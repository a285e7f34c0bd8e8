/** The IP access list: two lists of addresses and networks, compiled into an exact-address set and
    one list of networks per address family, and consulted blacklist first. */
module IpAcl {
  import opened Collections

  // ----- Addresses and networks -----

  datatype Address = V4(bits: nat) | V6(bits: nat)

  /** A network: the first `length` bits of `base`. */
  datatype Network = Network(base: Address, length: nat)

  function Pow2(k: nat): (p: nat)
    ensures p > 0
  {
    if k == 0 then 1 else 2 * Pow2(k - 1)
  }

  function Width(a: Address): nat {
    if a.V4? then 32 else 128
  }

  predicate ValidAddress(a: Address) {
    a.bits < Pow2(Width(a))
  }

  predicate ValidNetwork(n: Network) {
    ValidAddress(n.base) && n.length <= Width(n.base)
  }

  /** The network ::ffff:0:0/96 of IPv4-mapped addresses (section 2.5.5.2 of RFC 4291). */
  const MAPPED: nat := 0xffff * 0x1_0000_0000

  predicate IsMapped(a: Address) {
    a.V6? && MAPPED <= a.bits < MAPPED + 0x1_0000_0000
  }

  function Unmap(a: Address): Address {
    if IsMapped(a) then V4(a.bits - MAPPED) else a
  }

  /** An IPv4 address written in 16 bytes. */
  function As16(a: Address): Address
    requires a.V4?
  {
    V6(MAPPED + a.bits)
  }

  function RoundDown(x: nat, d: nat): nat
    requires d > 0
  {
    var q: nat := x / d;
    q * d
  }

  /** Clears the host bits. */
  function Masked(n: Network): Network
    requires ValidNetwork(n)
  {
    var kept := RoundDown(n.base.bits, Pow2(Width(n.base) - n.length));
    Network(if n.base.V4? then V4(kept) else V6(kept), n.length)
  }

  /** A network contains addresses of its own family only. */
  predicate Contains(n: Network, a: Address)
    requires n.length <= Width(n.base)
  {
    && n.base.V4? == a.V4?
    && a.bits / Pow2(Width(n.base) - n.length) == n.base.bits / Pow2(Width(n.base) - n.length)
  }

  // ----- What the entries mean, in one space of 128-bit numbers -----

  function Embed(a: Address): nat {
    if a.V4? then MAPPED + a.bits else a.bits
  }

  /** The text of an entry, once parsed. */
  datatype Parsed = Invalid | Host(a: Address) | Net(n: Network)

  predicate ValidParsed(e: Parsed) {
    match e
    case Invalid => false
    case Host(a) => ValidAddress(a)
    case Net(n) => ValidNetwork(n)
  }

  /** Membership of a 128-bit number in an entry: an IPv4 network of length n is the 128-bit network of
      length 96 + n around its embedded base; host bits are ignored. */
  ghost predicate Covers(e: Parsed, x: nat) {
    match e
    case Invalid => false
    case Host(a) => x == Embed(a)
    case Net(n) =>
      var length := if n.base.V4? then 96 + n.length else n.length;
      length <= 128 && x / Pow2(128 - length) == Embed(n.base) / Pow2(128 - length)
  }

  ghost predicate Listed(es: seq<Parsed>, a: Address) {
    exists i :: 0 <= i < |es| && Covers(es[i], Embed(a))
  }

  // ----- The compiled index -----

  datatype Rules = Rules(exact: set<Address>, prefix4: seq<Network>, prefix6: seq<Network>)

  const NO_RULES := Rules({}, [], [])

  function Added(r: Rules, e: Parsed): Rules
    requires ValidParsed(e)
  {
    match e
    case Host(a) => r.(exact := r.exact + {Unmap(a)})
    case Net(n) =>
      var m := Masked(n);
      if m.base.V4? then r.(prefix4 := r.prefix4 + [m]) else r.(prefix6 := r.prefix6 + [m])
  }

  predicate AllValid(es: seq<Parsed>) {
    forall e :: e in es ==> ValidParsed(e)
  }

  function Compiled(es: seq<Parsed>): Rules
    requires AllValid(es)
  {
    if es == [] then NO_RULES else Added(Compiled(es[..|es| - 1]), es[|es| - 1])
  }

  ghost predicate AnyContains(ns: seq<Network>, a: Address) {
    exists i :: 0 <= i < |ns| && ns[i].length <= Width(ns[i].base) && Contains(ns[i], a)
  }

  /** The lookup of the source: exact address first, then the networks of the family, and for an IPv4
      address also the IPv6 networks that cover its mapped form. */
  ghost predicate Matches(r: Rules, a: Address) {
    var u := Unmap(a);
    || u in r.exact
    || (u.V4? && AnyContains(r.prefix4, u))
    || AnyContains(r.prefix6, if u.V4? then As16(u) else u)
  }

  // ----- Arithmetic of prefixes -----

  lemma DivUnique(x: nat, d: nat, q: nat)
    requires d > 0 && q * d <= x < (q + 1) * d
    ensures x / d == q
  {
    var a := x / d;
    assert a * d <= x < (a + 1) * d;
    if a > q {
      TimesMonotone(q + 1, a, d);
    } else if a < q {
      TimesMonotone(a + 1, q, d);
    }
  }

  lemma MultipleDivides(q: nat, d: nat)
    requires d > 0
    ensures q * d / d == q
  {
    assert (q + 1) * d == q * d + d;
    DivUnique(q * d, d, q);
  }

  /** Adding a multiple of the divisor shifts the quotient. */
  lemma DivShift(x: nat, k: nat, d: nat)
    requires d > 0
    ensures (k * d + x) / d == k + x / d
  {
    var q := x / d;
    assert q * d <= x < q * d + d;
    assert (k + q) * d == k * d + q * d && (k + q + 1) * d == k * d + q * d + d;
    DivUnique(k * d + x, d, k + q);
  }

  lemma {:induction false} Pow2Splits(a: nat, b: nat)
    ensures Pow2(a + b) == Pow2(a) * Pow2(b)
    decreases a
  {
    if a > 0 {
      Pow2Splits(a - 1, b);
      TimesAssociative(2, Pow2(a - 1), Pow2(b));
    }
  }

  lemma Pow2Of32()
    ensures Pow2(32) == 0x1_0000_0000
  {
    assert Pow2(8) == 256;
    Pow2Splits(8, 8);
    Pow2Splits(16, 16);
  }

  lemma TimesAssociative(a: nat, b: nat, c: nat)
    ensures (a * b) * c == a * (b * c)
  {
  }

  /** `top` networks of `d` addresses make up the IPv4 space. */
  lemma Splits32(host: nat) returns (top: nat)
    requires host <= 32
    ensures top == Pow2(32 - host) && top * Pow2(host) == 0x1_0000_0000
  {
    top := Pow2(32 - host);
    Pow2Splits(32 - host, host);
    Pow2Of32();
  }

  /** The mapped block is aligned for every IPv4 host part. */
  lemma MappedAligned(host: nat, x: nat)
    requires host <= 32
    ensures (MAPPED + x) / Pow2(host) == 0xffff * Pow2(32 - host) + x / Pow2(host)
  {
    var top := Splits32(host);
    var d := Pow2(host);
    TimesAssociative(0xffff, top, d);
    DivShift(x, 0xffff * top, d);
  }

  lemma RoundDownQuotient(x: nat, d: nat)
    requires d > 0
    ensures RoundDown(x, d) / d == x / d
  {
    var q: nat := x / d;
    MultipleDivides(q, d);
  }

  lemma MaskedContainsAlike(n: Network, a: Address)
    requires ValidNetwork(n)
    ensures Contains(Masked(n), a) == Contains(n, a)
  {
    RoundDownQuotient(n.base.bits, Pow2(Width(n.base) - n.length));
  }

  /** An IPv4 network and its 128-bit form contain the same IPv4 addresses. */
  lemma V4NetworkCovers(n: Network, a: Address)
    requires ValidNetwork(n) && n.base.V4? && a.V4?
    ensures Contains(n, a) == Covers(Net(n), Embed(a))
  {
    MappedAligned(32 - n.length, a.bits);
    MappedAligned(32 - n.length, n.base.bits);
  }

  /** A number covered by an IPv4 network lies in the mapped block. */
  lemma V4NetworkInMapped(n: Network, x: nat)
    requires ValidNetwork(n) && n.base.V4? && Covers(Net(n), x)
    ensures MAPPED <= x < MAPPED + 0x1_0000_0000
  {
    var host := 32 - n.length;
    var top := Splits32(host);
    var d := Pow2(host);
    MappedAligned(host, n.base.bits);
    Pow2Of32();
    QuotientBelow(n.base.bits, top, d);
    BlockBounds(x, 0xffff * top, 0xffff * top + top, d);
    TimesAssociative(0xffff, top, d);
    TimesAssociative(0x1_0000, top, d);
  }

  lemma QuotientBelow(x: nat, top: nat, d: nat)
    requires d > 0 && x < top * d
    ensures 0 <= x / d < top
  {
    var q := x / d;
    assert q * d <= x;
    if q >= top {
      TimesMonotone(top, q, d);
    }
  }

  lemma BlockBounds(x: nat, low: nat, high: nat, d: nat)
    requires d > 0 && low <= x / d < high
    ensures low * d <= x < high * d
  {
    var y := x / d;
    assert y * d <= x < (y + 1) * d;
    TimesMonotone(low, y, d);
    TimesMonotone(y + 1, high, d);
  }

  lemma QuotientRange(x: nat, e: nat, d: nat)
    requires d > 0
    ensures x / d == e / d <==> e - e % d <= x < e - e % d + d
  {
    var q := e / d;
    assert q * d == e - e % d && (q + 1) * d == q * d + d;
    if q * d <= x < (q + 1) * d {
      DivUnique(x, d, q);
    }
  }

  /** A network is a range of numbers: as many as its host bits can write, from its base without them on. */
  lemma CoversRange(n: Network, x: nat)
    requires ValidNetwork(n)
    ensures var size := Pow2(Width(n.base) - n.length);
            var low := Embed(n.base) - n.base.bits % size;
            Covers(Net(n), x) <==> low <= x < low + size
  {
    var size := Pow2(Width(n.base) - n.length);
    QuotientRange(x, Embed(n.base), size);
    if n.base.V4? {
      MappedRemainder(32 - n.length, n.base.bits);
    }
  }

  lemma RemainderShift(x: nat, k: nat, d: nat)
    requires d > 0
    ensures (k * d + x) % d == x % d
  {
    DivShift(x, k, d);
    var q, y := x / d, k * d + x;
    assert (k + q) * d == k * d + q * d;
    assert y == (y / d) * d + y % d && x == q * d + x % d;
  }

  lemma MappedRemainder(host: nat, x: nat)
    requires host <= 32
    ensures (MAPPED + x) % Pow2(host) == x % Pow2(host)
  {
    var top := Splits32(host);
    TimesAssociative(0xffff, top, Pow2(host));
    RemainderShift(x, 0xffff * top, Pow2(host));
  }

  // ----- The index agrees with the entries -----

  lemma UnmapEmbeds(a: Address)
    ensures Embed(Unmap(a)) == Embed(a)
  {
  }

  /** Unmapping picks one representative per number. */
  lemma UnmapInjective(a: Address, b: Address)
    requires ValidAddress(a) && ValidAddress(b) && Embed(a) == Embed(b)
    ensures Unmap(a) == Unmap(b)
  {
    Pow2Of32();
  }

  /** One more entry adds exactly the addresses it covers. */
  lemma AddedMatches(r: Rules, e: Parsed, a: Address)
    requires ValidParsed(e) && ValidAddress(a)
    ensures Matches(Added(r, e), a) <==> Matches(r, a) || Covers(e, Embed(a))
  {
    var u := Unmap(a);
    UnmapEmbeds(a);
    match e
    case Host(h) => HostMatches(r, h, a);
    case Net(n) =>
      if n.base.V4? {
        AddedNetwork(r.prefix4, n, u);
        if u.V4? {
          V4NetworkCovers(n, u);
        } else if Covers(e, Embed(a)) {
          V4NetworkInMapped(n, Embed(a));
        }
      } else {
        AddedNetwork(r.prefix6, n, if u.V4? then As16(u) else u);
      }
  }

  lemma HostMatches(r: Rules, h: Address, a: Address)
    requires ValidAddress(h) && ValidAddress(a)
    ensures Matches(Added(r, Host(h)), a) <==> Matches(r, a) || Embed(a) == Embed(h)
  {
    if Embed(a) == Embed(h) {
      UnmapInjective(a, h);
    } else if Unmap(a) == Unmap(h) {
      UnmapEmbeds(a);
      UnmapEmbeds(h);
    }
  }

  lemma AddedNetwork(ns: seq<Network>, n: Network, a: Address)
    requires ValidNetwork(n)
    ensures AnyContains(ns + [Masked(n)], a) <==> AnyContains(ns, a) || Contains(n, a)
  {
    MaskedContainsAlike(n, a);
    var more := ns + [Masked(n)];
    if AnyContains(ns, a) {
      var i :| 0 <= i < |ns| && ns[i].length <= Width(ns[i].base) && Contains(ns[i], a);
      assert more[i] == ns[i];
    }
    if Contains(n, a) {
      assert more[|ns|] == Masked(n);
    }
  }

  lemma ListedLast(es: seq<Parsed>, a: Address)
    requires es != []
    ensures Listed(es, a) <==> Listed(es[..|es| - 1], a) || Covers(es[|es| - 1], Embed(a))
  {
    var prefix := es[..|es| - 1];
    if Listed(prefix, a) {
      var i :| 0 <= i < |prefix| && Covers(prefix[i], Embed(a));
      assert es[i] == prefix[i];
    }
    if Listed(es, a) {
      var i :| 0 <= i < |es| && Covers(es[i], Embed(a));
      assert i < |prefix| ==> prefix[i] == es[i];
    }
  }

  /** For every entry list and every address, the compiled index finds the address if and only if it
      lies, as a 128-bit number, in the address set of some entry. */
  lemma {:induction false} IndexAgrees(es: seq<Parsed>, a: Address)
    requires AllValid(es) && ValidAddress(a)
    ensures Matches(Compiled(es), a) <==> Listed(es, a)
    decreases |es|
  {
    if es != [] {
      IndexAgrees(es[..|es| - 1], a);
      AddedMatches(Compiled(es[..|es| - 1]), es[|es| - 1], a);
      ListedLast(es, a);
    }
  }

  // ----- Configurations -----

  /** Text handling of the libraries: trimming, and parsing of a trimmed entry or client address. */
  datatype Texts = Texts(trim: string -> string, parse: string -> Parsed)

  ghost predicate ValidTexts(texts: Texts) {
    forall t: string :: texts.parse(t).Invalid? || ValidParsed(texts.parse(t))
  }

  datatype Entry = Entry(value: string, note: string)

  datatype Config = Config(mode: string, default_: string, blacklist: seq<Entry>, whitelist: seq<Entry>)

  function Text(e: Entry, texts: Texts): string {
    texts.trim(e.value)
  }

  /** An entry is not empty, parses, and differs as a trimmed text from those before it. */
  ghost predicate EntryOk(entries: seq<Entry>, texts: Texts, i: nat)
    requires i < |entries|
  {
    && Text(entries[i], texts) != ""
    && !texts.parse(Text(entries[i], texts)).Invalid?
    && forall j :: 0 <= j < i ==> Text(entries[j], texts) != Text(entries[i], texts)
  }

  /** The first `k` entries are all right. */
  ghost predicate WellFormed(entries: seq<Entry>, texts: Texts, k: nat)
    requires k <= |entries|
  {
    forall i :: 0 <= i < k ==> EntryOk(entries, texts, i)
  }

  function ParsedEntries(entries: seq<Entry>, texts: Texts): (es: seq<Parsed>)
    ensures |es| == |entries|
    ensures forall i :: 0 <= i < |es| ==> es[i] == texts.parse(Text(entries[i], texts))
  {
    if entries == [] then []
    else
      ParsedEntries(entries[..|entries| - 1], texts)
      + [texts.parse(Text(entries[|entries| - 1], texts))]
  }

  datatype Result<T> = Success(value: T) | BadEntry(index: nat) | BadMode | BadDefault | EmptyWhitelist

  /** The texts of the first `k` entries. */
  function Seen(entries: seq<Entry>, texts: Texts, k: nat): set<string>
    requires k <= |entries|
  {
    if k == 0 then {} else Seen(entries, texts, k - 1) + {Text(entries[k - 1], texts)}
  }

  lemma {:induction false} SeenMeans(entries: seq<Entry>, texts: Texts, k: nat, v: string)
    requires k <= |entries|
    ensures v in Seen(entries, texts, k) <==> exists j :: 0 <= j < k && Text(entries[j], texts) == v
    decreases k
  {
    if k > 0 {
      SeenMeans(entries, texts, k - 1, v);
    }
  }

  lemma EntryOkChecked(entries: seq<Entry>, texts: Texts, i: nat)
    requires i < |entries|
    ensures EntryOk(entries, texts, i)
       <==> var v := Text(entries[i], texts);
            v != "" && v !in Seen(entries, texts, i) && !texts.parse(v).Invalid?
  {
    SeenMeans(entries, texts, i, Text(entries[i], texts));
  }

  /** Compiles one list; the first entry that is empty, repeated or unparsable rejects all of it. */
  method CompileRules(entries: seq<Entry>, texts: Texts) returns (r: Result<Rules>)
    requires ValidTexts(texts)
    ensures r.Success? || r.BadEntry?
    ensures r.Success? <==> WellFormed(entries, texts, |entries|)
    ensures r.Success? ==> AllValid(ParsedEntries(entries, texts)) && r.value == Compiled(ParsedEntries(entries, texts))
    ensures r.BadEntry? ==> r.index < |entries| && WellFormed(entries, texts, r.index) && !WellFormed(entries, texts, r.index + 1)
  {
    var rules := NO_RULES;
    var seen := {};
    for i := 0 to |entries|
      invariant WellFormed(entries, texts, i)
      invariant seen == Seen(entries, texts, i)
      invariant BuiltSoFar(entries, texts, i, rules)
    {
      var parsed := CheckEntry(entries, texts, i, seen);
      if parsed.Invalid? {
        FirstBad(entries, texts, i);
        return BadEntry(i);
      }
      OneMoreWellFormed(entries, texts, i);
      seen := seen + {texts.trim(entries[i].value)};
      OneMoreEntry(entries, texts, i, rules);
      rules := AddRule(rules, parsed);
    }
    FullyBuilt(entries, texts, rules);
    r := Success(rules);
  }

  lemma FirstBad(entries: seq<Entry>, texts: Texts, i: nat)
    requires i < |entries| && !EntryOk(entries, texts, i)
    ensures !WellFormed(entries, texts, i + 1) && !WellFormed(entries, texts, |entries|)
  {
  }

  lemma OneMoreWellFormed(entries: seq<Entry>, texts: Texts, i: nat)
    requires i < |entries| && WellFormed(entries, texts, i) && EntryOk(entries, texts, i)
    ensures WellFormed(entries, texts, i + 1)
  {
  }

  lemma FullyBuilt(entries: seq<Entry>, texts: Texts, rules: Rules)
    requires BuiltSoFar(entries, texts, |entries|, rules)
    ensures AllValid(ParsedEntries(entries, texts)) && rules == Compiled(ParsedEntries(entries, texts))
  {
    assert entries[..|entries|] == entries;
  }

  /** Parses entry `i`; an empty or repeated one counts as invalid. */
  method CheckEntry(entries: seq<Entry>, texts: Texts, i: nat, seen: set<string>) returns (parsed: Parsed)
    requires i < |entries| && ValidTexts(texts) && seen == Seen(entries, texts, i)
    ensures parsed.Invalid? <==> !EntryOk(entries, texts, i)
    ensures !parsed.Invalid? ==> ValidParsed(parsed) && parsed == texts.parse(Text(entries[i], texts))
  {
    EntryOkChecked(entries, texts, i);
    var v := texts.trim(entries[i].value);
    if v == "" {
      return Invalid;
    }
    if v in seen {
      return Invalid;
    }
    parsed := texts.parse(v);
  }

  method AddRule(rules: Rules, parsed: Parsed) returns (r: Rules)
    requires ValidParsed(parsed)
    ensures r == Added(rules, parsed)
  {
    match parsed {
      case Net(n) =>
        var m := Masked(n);
        if m.base.V4? {
          r := rules.(prefix4 := rules.prefix4 + [m]);
        } else {
          r := rules.(prefix6 := rules.prefix6 + [m]);
        }
      case Host(a) =>
        r := rules.(exact := rules.exact + {Unmap(a)});
    }
  }

  ghost predicate BuiltSoFar(entries: seq<Entry>, texts: Texts, i: nat, rules: Rules)
    requires i <= |entries|
  {
    AllValid(ParsedEntries(entries[..i], texts)) && rules == Compiled(ParsedEntries(entries[..i], texts))
  }

  lemma OneMoreEntry(entries: seq<Entry>, texts: Texts, i: nat, rules: Rules)
    requires i < |entries| && ValidTexts(texts) && BuiltSoFar(entries, texts, i, rules)
    requires !texts.parse(Text(entries[i], texts)).Invalid?
    ensures BuiltSoFar(entries, texts, i + 1, Added(rules, texts.parse(Text(entries[i], texts))))
  {
    var es := ParsedEntries(entries[..i + 1], texts);
    var before := ParsedEntries(entries[..i], texts);
    assert entries[..i + 1][..i] == entries[..i];
    assert es == before + [texts.parse(Text(entries[i], texts))];
    assert es[..|es| - 1] == before;
  }

  datatype List = List(on: bool, allowByDefault: bool, black: Rules, white: Rules)

  ghost predicate CompileOk(cfg: Config, texts: Texts) {
    && cfg.mode in {"off", "on"}
    && cfg.default_ in {"", "allow", "deny"}
    && WellFormed(cfg.blacklist, texts, |cfg.blacklist|)
    && WellFormed(cfg.whitelist, texts, |cfg.whitelist|)
    && !(cfg.mode == "on" && cfg.default_ == "deny" && cfg.whitelist == [])
  }

  /** Compiles a configuration as a whole, or rejects it as a whole. */
  method Compile(cfg: Config, texts: Texts) returns (r: Result<List>)
    requires ValidTexts(texts)
    ensures r.Success? <==> CompileOk(cfg, texts)
    ensures r.Success? <==>
              && (cfg.mode == "off" || cfg.mode == "on")
              && (cfg.default_ == "" || cfg.default_ == "allow" || cfg.default_ == "deny")
              && WellFormed(cfg.blacklist, texts, |cfg.blacklist|) && WellFormed(cfg.whitelist, texts, |cfg.whitelist|)
              && !(cfg.mode == "on" && cfg.default_ == "deny" && cfg.whitelist == [])
    ensures r.Success? ==>
              && AllValid(ParsedEntries(cfg.blacklist, texts)) && AllValid(ParsedEntries(cfg.whitelist, texts))
              && r.value == List(cfg.mode == "on", cfg.default_ != "deny",
                                 Compiled(ParsedEntries(cfg.blacklist, texts)), Compiled(ParsedEntries(cfg.whitelist, texts)))
  {
    if cfg.mode != "off" && cfg.mode != "on" {
      return BadMode;
    }
    if cfg.default_ != "" && cfg.default_ != "allow" && cfg.default_ != "deny" {
      return BadDefault;
    }
    var black := CompileRules(cfg.blacklist, texts);
    if black.BadEntry? {
      return BadEntry(black.index);
    }
    var white := CompileRules(cfg.whitelist, texts);
    if white.BadEntry? {
      return BadEntry(white.index);
    }
    if cfg.mode == "on" && cfg.default_ == "deny" && |cfg.whitelist| == 0 {
      return EmptyWhitelist;
    }
    r := Success(List(cfg.mode == "on", cfg.default_ != "deny", black.value, white.value));
  }

  ghost predicate Sized(r: Rules) {
    && (forall i :: 0 <= i < |r.prefix4| ==> r.prefix4[i].length <= Width(r.prefix4[i].base))
    && (forall i :: 0 <= i < |r.prefix6| ==> r.prefix6[i].length <= Width(r.prefix6[i].base))
  }

  lemma AddedSized(r: Rules, e: Parsed)
    requires Sized(r) && ValidParsed(e)
    ensures Sized(Added(r, e))
  {
    if e.Net? {
      assert Masked(e.n).length == e.n.length && Width(Masked(e.n).base) == Width(e.n.base);
    }
  }

  lemma {:induction false} CompiledSized(es: seq<Parsed>)
    requires AllValid(es)
    ensures Sized(Compiled(es))
    decreases |es|
  {
    if es != [] {
      CompiledSized(es[..|es| - 1]);
      AddedSized(Compiled(es[..|es| - 1]), es[|es| - 1]);
    }
  }

  method AnyNetwork(ns: seq<Network>, a: Address) returns (hit: bool)
    requires forall i :: 0 <= i < |ns| ==> ns[i].length <= Width(ns[i].base)
    ensures hit <==> AnyContains(ns, a)
  {
    for i := 0 to |ns|
      invariant forall j :: 0 <= j < i ==> !Contains(ns[j], a)
    {
      if Contains(ns[i], a) {
        return true;
      }
    }
    hit := false;
  }

  /** Looks a client address up; text that is not an address is never found. */
  method Lookup(r: Rules, ip: string, texts: Texts) returns (hit: bool)
    requires Sized(r)
    ensures var p := texts.parse(texts.trim(ip));
            hit <==> p.Host? && Matches(r, p.a)
  {
    var p := texts.parse(texts.trim(ip));
    if !p.Host? {
      return false;
    }
    var a := Unmap(p.a);
    if a in r.exact {
      return true;
    }
    if a.V4? {
      hit := AnyNetwork(r.prefix4, a);
      if hit {
        return;
      }
      hit := AnyNetwork(r.prefix6, As16(a));
      return;
    }
    hit := AnyNetwork(r.prefix6, a);
  }

  // ----- Decisions -----

  /** A client text names an address that some entry covers. */
  ghost predicate Member(entries: seq<Entry>, texts: Texts, ip: string) {
    var p := texts.parse(texts.trim(ip));
    p.Host? && Listed(ParsedEntries(entries, texts), p.a)
  }

  /** The documented policy: blacklisted is refused, then whitelisted is allowed, then the default. */
  ghost predicate Permits(cfg: Config, texts: Texts, ip: string) {
    cfg.mode != "on"
    || (!Member(cfg.blacklist, texts, ip) && (Member(cfg.whitelist, texts, ip) || cfg.default_ != "deny"))
  }

  /** A compiled list decides as the documented policy does on the entries themselves. */
  method Allowed(l: List, ip: string, texts: Texts, ghost cfg: Config) returns (ok: bool)
    requires ValidTexts(texts)
    requires AllValid(ParsedEntries(cfg.blacklist, texts)) && AllValid(ParsedEntries(cfg.whitelist, texts))
    requires l == List(cfg.mode == "on", cfg.default_ != "deny",
                       Compiled(ParsedEntries(cfg.blacklist, texts)), Compiled(ParsedEntries(cfg.whitelist, texts)))
    ensures ok <==> Permits(cfg, texts, ip)
    ensures ok <==> cfg.mode != "on"
                    || (!Member(cfg.blacklist, texts, ip) && (Member(cfg.whitelist, texts, ip) || cfg.default_ != "deny"))
  {
    if !l.on {
      return true;
    }
    LookupIsMember(cfg.blacklist, texts, ip);
    LookupIsMember(cfg.whitelist, texts, ip);
    var black := Lookup(l.black, ip, texts);
    if black {
      return false;
    }
    var white := Lookup(l.white, ip, texts);
    if white {
      return true;
    }
    ok := l.allowByDefault;
  }

  lemma LookupIsMember(entries: seq<Entry>, texts: Texts, ip: string)
    requires ValidTexts(texts) && AllValid(ParsedEntries(entries, texts))
    ensures Sized(Compiled(ParsedEntries(entries, texts)))
    ensures var p := texts.parse(texts.trim(ip));
            Member(entries, texts, ip) <==> p.Host? && Matches(Compiled(ParsedEntries(entries, texts)), p.a)
  {
    CompiledSized(ParsedEntries(entries, texts));
    var p := texts.parse(texts.trim(ip));
    if p.Host? {
      IndexAgrees(ParsedEntries(entries, texts), p.a);
    }
  }

  lemma MemberMonotone(entries: seq<Entry>, entries': seq<Entry>, texts: Texts, ip: string)
    requires forall e :: e in entries ==> e in entries'
    requires Member(entries, texts, ip)
    ensures Member(entries', texts, ip)
  {
    var a := texts.parse(texts.trim(ip)).a;
    var es := ParsedEntries(entries, texts);
    var i :| 0 <= i < |es| && Covers(es[i], Embed(a));
    assert entries[i] in entries';
    var j :| 0 <= j < |entries'| && entries'[j] == entries[i];
    assert ParsedEntries(entries', texts)[j] == es[i];
  }

  /** The order of the entries matters neither for whether a configuration is accepted nor for what it
      decides. */
  lemma OrderIrrelevant(cfg: Config, cfg': Config, texts: Texts, ip: string)
    requires cfg.mode == cfg'.mode && cfg.default_ == cfg'.default_
    requires multiset(cfg.blacklist) == multiset(cfg'.blacklist)
    requires multiset(cfg.whitelist) == multiset(cfg'.whitelist)
    ensures CompileOk(cfg, texts) <==> CompileOk(cfg', texts)
    ensures Permits(cfg, texts, ip) <==> Permits(cfg', texts, ip)
  {
    SameMembers(cfg.blacklist, cfg'.blacklist, texts, ip);
    SameMembers(cfg.whitelist, cfg'.whitelist, texts, ip);
    WellFormedAsBag(cfg.blacklist, texts);
    WellFormedAsBag(cfg'.blacklist, texts);
    WellFormedAsBag(cfg.whitelist, texts);
    WellFormedAsBag(cfg'.whitelist, texts);
    SameSize(cfg.whitelist, cfg'.whitelist);
  }

  lemma SameSize(entries: seq<Entry>, entries': seq<Entry>)
    requires multiset(entries) == multiset(entries')
    ensures |entries| == |entries'|
  {
    assert |multiset(entries)| == |entries| && |multiset(entries')| == |entries'|;
  }

  /** The entries in any order: each parses, none occurs twice, and no two share their text. */
  ghost predicate WellFormedBag(bag: multiset<Entry>, texts: Texts) {
    && (forall e :: e in bag ==> bag[e] == 1 && Text(e, texts) != "" && !texts.parse(Text(e, texts)).Invalid?)
    && (forall e, e' :: e in bag && e' in bag && e != e' ==> Text(e, texts) != Text(e', texts))
  }

  /** An element at two places counts twice. */
  lemma TwiceCounts(entries: seq<Entry>, i: nat, j: nat)
    requires i < j < |entries| && entries[i] == entries[j]
    ensures multiset(entries)[entries[i]] >= 2
  {
    assert entries == entries[..j] + entries[j..];
    assert entries[..j][i] == entries[i] && entries[j..][0] == entries[i];
    assert entries[i] in multiset(entries[..j]) && entries[i] in multiset(entries[j..]);
  }

  /** An element that counts more than once stands at two places. */
  lemma {:induction false} CountsTwice(entries: seq<Entry>, e: Entry) returns (i: nat, j: nat)
    requires multiset(entries)[e] >= 2
    ensures i < j < |entries| && entries[i] == entries[j] == e
    decreases |entries|
  {
    var k := |entries| - 1;
    assert entries == entries[..k] + [entries[k]];
    if entries[k] == e {
      assert e in multiset(entries[..k]);
      i :| 0 <= i < k && entries[..k][i] == e;
      j := k;
    } else {
      i, j := CountsTwice(entries[..k], e);
    }
  }

  lemma BagIsWellFormed(entries: seq<Entry>, texts: Texts)
    requires WellFormedBag(multiset(entries), texts)
    ensures WellFormed(entries, texts, |entries|)
  {
    forall i | 0 <= i < |entries|
      ensures EntryOk(entries, texts, i)
    {
      assert entries[i] in multiset(entries);
      forall j | 0 <= j < i
        ensures Text(entries[j], texts) != Text(entries[i], texts)
      {
        assert entries[j] in multiset(entries);
        if entries[j] == entries[i] {
          TwiceCounts(entries, j, i);
        }
      }
    }
  }

  lemma RepetitionIsBad(entries: seq<Entry>, texts: Texts, i: nat, j: nat)
    requires i < j < |entries| && entries[i] == entries[j]
    ensures !EntryOk(entries, texts, j)
  {
  }

  lemma NoRepetition(entries: seq<Entry>, texts: Texts, e: Entry)
    requires WellFormed(entries, texts, |entries|)
    ensures multiset(entries)[e] <= 1
  {
    if multiset(entries)[e] >= 2 {
      var i, j := CountsTwice(entries, e);
      RepetitionIsBad(entries, texts, i, j);
    }
  }

  lemma WellFormedIsBag(entries: seq<Entry>, texts: Texts)
    requires WellFormed(entries, texts, |entries|)
    ensures WellFormedBag(multiset(entries), texts)
  {
    var bag := multiset(entries);
    forall e | e in bag
      ensures bag[e] == 1 && Text(e, texts) != "" && !texts.parse(Text(e, texts)).Invalid?
    {
      var i :| 0 <= i < |entries| && entries[i] == e;
      assert EntryOk(entries, texts, i);
      NoRepetition(entries, texts, e);
    }
    forall e, e' | e in bag && e' in bag && e != e'
      ensures Text(e, texts) != Text(e', texts)
    {
      var i :| 0 <= i < |entries| && entries[i] == e;
      var j :| 0 <= j < |entries| && entries[j] == e';
      assert EntryOk(entries, texts, if i < j then j else i);
    }
  }

  lemma WellFormedAsBag(entries: seq<Entry>, texts: Texts)
    ensures WellFormed(entries, texts, |entries|) <==> WellFormedBag(multiset(entries), texts)
  {
    if WellFormed(entries, texts, |entries|) {
      WellFormedIsBag(entries, texts);
    }
    if WellFormedBag(multiset(entries), texts) {
      BagIsWellFormed(entries, texts);
    }
  }

  lemma SameMembers(entries: seq<Entry>, entries': seq<Entry>, texts: Texts, ip: string)
    requires multiset(entries) == multiset(entries')
    ensures Member(entries, texts, ip) <==> Member(entries', texts, ip)
  {
    forall e: Entry
      ensures e in entries <==> e in entries'
    {
      assert e in entries <==> e in multiset(entries);
      assert e in entries' <==> e in multiset(entries');
    }
    if Member(entries, texts, ip) {
      MemberMonotone(entries, entries', texts, ip);
    }
    if Member(entries', texts, ip) {
      MemberMonotone(entries', entries, texts, ip);
    }
  }

  // ----- Lists stored in the older single-list format -----

  datatype Legacy = Legacy(mode: string, entries: seq<Entry>)

  function Converted(old_: Legacy): Config {
    if old_.mode == "off" then Config("off", "allow", [], [])
    else if old_.mode == "blacklist" then Config("on", "allow", old_.entries, [])
    else if old_.mode == "whitelist" then Config("on", "deny", [], old_.entries)
    else Config("off", "allow", old_.entries, [])
  }

  /** What the single-list format meant. */
  ghost predicate LegacyPermits(old_: Legacy, texts: Texts, ip: string) {
    (old_.mode == "blacklist" ==> !Member(old_.entries, texts, ip))
    && (old_.mode == "whitelist" ==> Member(old_.entries, texts, ip))
  }

  /** Stored lists keep their decisions, and still compile exactly when their entries do; only an empty
      whitelist, which would refuse everyone, is no longer accepted. */
  lemma LegacyKept(old_: Legacy, texts: Texts, ip: string)
    ensures Permits(Converted(old_), texts, ip) <==> LegacyPermits(old_, texts, ip)
    ensures CompileOk(Converted(old_), texts)
       <==> (old_.mode == "off" || WellFormed(old_.entries, texts, |old_.entries|))
            && !(old_.mode == "whitelist" && old_.entries == [])
  {
    assert !Member([], texts, ip);
  }
}
