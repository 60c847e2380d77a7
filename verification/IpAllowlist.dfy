/** IPv4 allowlist entries: exact addresses and CIDR blocks (section 3.1 of RFC 4632). */
module IpAllowlist {
  import opened Text
  import opened Bits

  // --- Text forms -----------------------------------------------------------------

  /** One to `most` digits: `\d{1,most}`. */
  predicate IsNumeral(s: string, most: nat) {
    1 <= |s| <= most && AllDigits(s)
  }

  datatype Quad = Quad(a: string, b: string, c: string, d: string)

  function Dotted(q: Quad): string {
    q.a + "." + q.b + "." + q.c + "." + q.d
  }

  predicate IsQuad(q: Quad) {
    IsNumeral(q.a, 3) && IsNumeral(q.b, 3) && IsNumeral(q.c, 3) && IsNumeral(q.d, 3)
  }

  predicate Digits(s: string) {
    forall i :: 0 <= i < |s| ==> '0' <= s[i] <= '9'
  }

  /** The groups are of one to three digits each, the prefix length of one or two. */
  lemma GroupsAre(q: Quad, prefix: string)
    ensures IsQuad(q) <==> Digits(q.a) && Digits(q.b) && Digits(q.c) && Digits(q.d)
                           && 1 <= |q.a| <= 3 && 1 <= |q.b| <= 3 && 1 <= |q.c| <= 3 && 1 <= |q.d| <= 3
    ensures IsNumeral(prefix, 2) <==> Digits(prefix) && 1 <= |prefix| <= 2
  {
  }

  /** `IPV4.exec`: the four groups, or nothing. */
  function ExecIpv4(s: string): (r: Option<Quad>)
    ensures r.Some? ==> IsQuad(r.value)
  {
    var r1 := Cut(s, '.');
    if r1.None? then None
    else
      var r2 := Cut(r1.value.1, '.');
      if r2.None? then None
      else
        var r3 := Cut(r2.value.1, '.');
        if r3.None? then None
        else
          var q := Quad(r1.value.0, r2.value.0, r3.value.0, r3.value.1);
          if IsQuad(q) then Some(q) else None
  }

  /** `IPV4_CIDR.exec`: the address groups and the prefix length, or nothing. */
  function ExecCidr(s: string): (r: Option<(Quad, string)>)
    ensures r.Some? ==> IsQuad(r.value.0) && IsNumeral(r.value.1, 2)
  {
    var r := Cut(s, '/');
    if r.None? then None
    else
      var q := ExecIpv4(r.value.0);
      if q.Some? && IsNumeral(r.value.1, 2) then Some((q.value, r.value.1)) else None
  }

  lemma DigitsLack(s: string, c: char)
    requires AllDigits(s) && !IsDigit(c)
    ensures c !in s
  {
  }

  lemma CutDigits(a: string, b: string)
    requires AllDigits(a)
    ensures Cut(a + "." + b, '.') == Some((a, b))
  {
    DigitsLack(a, '.');
    CutAt(a, '.', b);
    assert a + "." + b == a + ['.'] + b;
  }

  lemma ExecFinds(q: Quad)
    requires IsQuad(q)
    ensures ExecIpv4(Dotted(q)) == Some(q)
  {
    Regroup(q.a, q.b, q.c, q.d);
    CutDigits(q.a, q.b + "." + (q.c + "." + q.d));
    CutDigits(q.b, q.c + "." + q.d);
    CutDigits(q.c, q.d);
  }

  lemma Regroup(a: string, b: string, c: string, d: string)
    ensures a + "." + (b + "." + (c + "." + d)) == a + "." + b + "." + c + "." + d
  {
    assert b + "." + (c + "." + d) == b + "." + c + "." + d;
  }

  lemma ExecReads(s: string)
    requires ExecIpv4(s).Some?
    ensures s == Dotted(ExecIpv4(s).value)
  {
    var r1 := Cut(s, '.').value;
    var r2 := Cut(r1.1, '.').value;
    var r3 := Cut(r2.1, '.').value;
    assert s == r1.0 + "." + r1.1 && r1.1 == r2.0 + "." + r2.1 && r2.1 == r3.0 + "." + r3.1;
    Regroup(r1.0, r2.0, r3.0, r3.1);
  }

  /** The recogniser finds exactly the strings of the grammar, with their only reading. */
  lemma ExecIpv4Means(s: string, q: Quad)
    ensures ExecIpv4(s) == Some(q) <==> IsQuad(q) && s == Dotted(q)
  {
    if IsQuad(q) { ExecFinds(q); }
    if ExecIpv4(s).Some? { ExecReads(s); }
  }

  lemma DottedLacksSlash(q: Quad)
    requires IsQuad(q)
    ensures '/' !in Dotted(q)
  {
    DigitsLack(q.a, '/');
    DigitsLack(q.b, '/');
    DigitsLack(q.c, '/');
    DigitsLack(q.d, '/');
  }

  lemma ExecCidrMeans(s: string, q: Quad, prefix: string)
    ensures ExecCidr(s) == Some((q, prefix)) <==> IsQuad(q) && IsNumeral(prefix, 2) && s == Dotted(q) + "/" + prefix
  {
    if IsQuad(q) && s == Dotted(q) + "/" + prefix {
      DottedLacksSlash(q);
      CutAt(Dotted(q), '/', prefix);
      assert s == Dotted(q) + ['/'] + prefix;
      ExecIpv4Means(Dotted(q), q);
    }
    if ExecCidr(s) == Some((q, prefix)) {
      ExecIpv4Means(Cut(s, '/').value.0, q);
      assert s == Dotted(q) + ['/'] + prefix;
    }
  }

  /** No string is both an address and a block. */
  lemma NotBoth(s: string)
    ensures ExecIpv4(s).None? || ExecCidr(s).None?
  {
    if ExecIpv4(s).Some? {
      var q := ExecIpv4(s).value;
      ExecIpv4Means(s, q);
      DottedLacksSlash(q);
    }
  }

  // --- Addresses ----------------------------------------------------------------------

  function ToInt(q: Quad): Option<nat>
    requires IsQuad(q)
  {
    var a, b, c, d := NumberOf(q.a), NumberOf(q.b), NumberOf(q.c), NumberOf(q.d);
    if a > 255 || b > 255 || c > 255 || d > 255 then None
    else Some(Or(Or(Or(Shl(a, 24), Shl(b, 16)), Shl(c, 8)), d))
  }

  /** `ipv4ToInt`. */
  function Ipv4ToInt(ip: string): Option<nat> {
    var m := ExecIpv4(ip);
    if m.None? then None else ToInt(m.value)
  }

  /** An address is its four octets read as a base-256 number below 2^32. */
  lemma ToIntMeans(q: Quad)
    requires IsQuad(q)
    ensures var a, b, c, d := NumberOf(q.a), NumberOf(q.b), NumberOf(q.c), NumberOf(q.d);
      && (ToInt(q).Some? <==> a < 256 && b < 256 && c < 256 && d < 256)
      && (ToInt(q).Some? ==> ToInt(q).value == a * 0x100_0000 + b * 0x1_0000 + c * 0x100 + d && ToInt(q).value < WORD)
  {
    var a, b, c, d := NumberOf(q.a), NumberOf(q.b), NumberOf(q.c), NumberOf(q.d);
    if a < 256 && b < 256 && c < 256 && d < 256 { JoinBytes(a, b, c, d); }
  }

  // --- Entries --------------------------------------------------------------------------

  /** `isValidIpv4OrCidr`. */
  predicate IsValid(entry: string) {
    var v := Trim(entry);
    if ExecIpv4(v).Some? then Ipv4ToInt(v).Some?
    else
      var c := ExecCidr(v);
      c.Some? && NumberOf(c.value.1) <= 32 && Ipv4ToInt(Dotted(c.value.0)).Some?
  }

  const ALL_ONES: nat := 0xffff_ffff

  /** The mask test, with the shift and the two `&` of the source. */
  predicate InBlock(ip: nat, base: nat, prefix: nat)
    requires prefix <= 32
  {
    prefix == 0 ||
    var mask := Shl(ALL_ONES, 32 - prefix);
    And(ip, mask) == And(base, mask)
  }

  predicate MatchesEntry(ip: nat, entry: string) {
    var v := Trim(entry);
    var exact := Ipv4ToInt(v);
    if exact.Some? then exact.value == ip
    else
      var c := ExecCidr(v);
      if c.None? then false
      else
        var base := Ipv4ToInt(Dotted(c.value.0));
        base.Some?
        && NumberOf(c.value.1) <= 32 && InBlock(ip, base.value, NumberOf(c.value.1))
  }

  // --- Blocks ---------------------------------------------------------------------------

  /** The first address of the aligned block of 2^(32 - prefix) addresses that holds base. */
  function BlockStart(base: nat, prefix: nat): nat
    requires prefix <= 32
  {
    RemainderBelow(base, Pow2(32 - prefix));
    base - base % Pow2(32 - prefix)
  }

  lemma OnesShifted(p: nat)
    requires 1 <= p <= WORD
    ensures ALL_ONES * p % WORD == WORD - p
  {
    ModUnique(ALL_ONES * p, WORD, p - 1, WORD - p);
  }

  lemma MaskShifted(k: nat)
    requires k < 32
    ensures Pow2(k) <= WORD && Shl(ALL_ONES, k) == WORD - Pow2(k)
  {
    Pow2Values();
    Pow2Monotone(k, 32);
    OnesShifted(Pow2(k));
    SmallMod(k, 32);
  }

  lemma SameBlock(x: nat, y: nat, p: nat)
    requires p >= 1
    ensures x - x % p == y - y % p <==> y - y % p <= x < y - y % p + p
  {
    var start := y - y % p;
    assert x == p * (x / p) + x % p && y == p * (y / p) + y % p;
    if start <= x < start + p {
      ModUnique(x, p, y / p, x - start);
    }
  }

  /** The mask test holds exactly inside the aligned block, the whole space and one address included. */
  lemma BlockIsInterval(ip: nat, base: nat, prefix: nat)
    requires ip < WORD && base < WORD && prefix <= 32
    ensures InBlock(ip, base, prefix)
            <==> BlockStart(base, prefix) <= ip < BlockStart(base, prefix) + Pow2(32 - prefix)
  {
    Pow2Values();
    var k := 32 - prefix;
    if prefix == 0 {
      ModUnique(base, WORD, 0, base);
    } else {
      MaskShifted(k);
      assert k + prefix == 32;
      AndHighMask(ip, k, prefix, Shl(ALL_ONES, k));
      AndHighMask(base, k, prefix, Shl(ALL_ONES, k));
      SameBlock(ip, base, Pow2(k));
    }
  }

  /** A shorter prefix never loses a match. */
  lemma ShorterPrefixIsWider(ip: nat, base: nat, short: nat, long: nat)
    requires ip < WORD && base < WORD && short <= long <= 32 && InBlock(ip, base, long)
    ensures InBlock(ip, base, short)
  {
    var p, q := Pow2(32 - long), Pow2(long - short);
    Pow2Sum(32 - long, long - short);
    assert 32 - long + (long - short) == 32 - short;
    BlockIsInterval(ip, base, long);
    BlockIsInterval(ip, base, short);
    SameBlock(ip, base, p);
    Coarser(ip, base, p, q);
    SameBlock(ip, base, p * q);
  }

  lemma Coarser(x: nat, y: nat, p: nat, q: nat)
    requires p >= 1 && q >= 1 && x - x % p == y - y % p
    ensures p * q >= 1 && x - x % (p * q) == y - y % (p * q)
  {
    var n := x / p;
    assert x == p * n + x % p;
    ModUnique(y, p, n, y % p);
    MulFar(p, q);
    InCoarse(x, n, p, q);
    InCoarse(y, n, p, q);
  }

  lemma InCoarse(x: nat, n: nat, p: nat, q: nat)
    requires p >= 1 && q >= 1 && n == x / p
    ensures p * q >= 1 && x - x % (p * q) == p * q * (n / q)
  {
    MulFar(p, q);
    assert n == q * (n / q) + n % q;
    assert x == p * n + x % p;
    assert p * n == p * q * (n / q) + p * (n % q);
    MulFar(p, q - n % q);
    assert p * (n % q) + p <= p * q;
    ModUnique(x, p * q, n / q, p * (n % q) + x % p);
  }

  // --- Entries and lists -------------------------------------------------------------------

  lemma QuadTrims(before: string, q: Quad, after: string)
    requires Blank(before) && Blank(after) && IsQuad(q)
    ensures Trim(before + Dotted(q) + after) == Dotted(q)
  {
    var v := Dotted(q);
    assert v[0] == q.a[0] && v[|v| - 1] == q.d[|q.d| - 1];
    assert IsDigit(v[0]) && IsDigit(v[|v| - 1]);
    TrimPadded(before, v, after);
  }

  lemma CidrTrims(before: string, q: Quad, prefix: string, after: string)
    requires Blank(before) && Blank(after) && IsQuad(q) && IsNumeral(prefix, 2)
    ensures Trim(before + (Dotted(q) + "/" + prefix) + after) == Dotted(q) + "/" + prefix
  {
    var v := Dotted(q) + "/" + prefix;
    assert v[0] == q.a[0] && v[|v| - 1] == prefix[|prefix| - 1];
    assert IsDigit(v[0]) && IsDigit(v[|v| - 1]);
    TrimPadded(before, v, after);
  }

  /** An address entry matches exactly its address, and nothing when an octet is above 255. */
  lemma ExactMatches(ip: nat, before: string, q: Quad, after: string)
    requires Blank(before) && Blank(after) && IsQuad(q)
    ensures MatchesEntry(ip, before + Dotted(q) + after) <==> ToInt(q) == Some(ip)
  {
    QuadTrims(before, q, after);
    ExecFinds(q);
    NotBoth(Dotted(q));
  }

  /** A block entry with a valid base and prefix matches exactly the addresses of its block. */
  lemma CidrMatches(ip: nat, before: string, q: Quad, prefix: string, after: string)
    requires ip < WORD && Blank(before) && Blank(after) && IsQuad(q) && IsNumeral(prefix, 2)
    requires ToInt(q).Some? && NumberOf(prefix) <= 32
    ensures var start := BlockStart(ToInt(q).value, NumberOf(prefix));
      MatchesEntry(ip, before + (Dotted(q) + "/" + prefix) + after)
      <==> start <= ip < start + Pow2(32 - NumberOf(prefix))
  {
    CidrTrims(before, q, prefix, after);
    var v := Dotted(q) + "/" + prefix;
    ExecCidrMeans(v, q, prefix);
    ExecFinds(q);
    NotBoth(v);
    ToIntMeans(q);
    BlockIsInterval(ip, ToInt(q).value, NumberOf(prefix));
  }

  // What an entry says, without the matcher.

  ghost predicate IsAddress(entry: string, before: string, q: Quad, after: string) {
    Blank(before) && Blank(after) && IsQuad(q) && entry == before + Dotted(q) + after
  }

  ghost predicate IsBlock(entry: string, before: string, q: Quad, prefix: string, after: string) {
    && Blank(before) && Blank(after) && IsQuad(q) && IsNumeral(prefix, 2)
    && entry == before + (Dotted(q) + "/" + prefix) + after
  }

  /** The entry is this address, padded or not. */
  ghost predicate Names(entry: string, ip: nat) {
    exists before, q, after :: IsAddress(entry, before, q, after) && ToInt(q) == Some(ip)
  }

  /** The aligned block of this base and prefix length holds the address; its octets and prefix are in range. */
  predicate Holds(q: Quad, prefix: string, ip: nat)
    requires IsQuad(q) && IsNumeral(prefix, 2)
  {
    ToInt(q).Some? && NumberOf(prefix) <= 32 &&
    var start := BlockStart(ToInt(q).value, NumberOf(prefix));
    start <= ip < start + Pow2(32 - NumberOf(prefix))
  }

  /** So a block entry matches what it holds, and nothing when it is not valid. */
  lemma BlockMatches(ip: nat, before: string, q: Quad, prefix: string, after: string)
    requires ip < WORD && Blank(before) && Blank(after) && IsQuad(q) && IsNumeral(prefix, 2)
    ensures MatchesEntry(ip, before + (Dotted(q) + "/" + prefix) + after) <==> Holds(q, prefix, ip)
  {
    if ToInt(q).Some? && NumberOf(prefix) <= 32 {
      CidrMatches(ip, before, q, prefix, after);
    } else {
      InvalidBlock(ip, before, q, prefix, after);
    }
  }

  lemma InvalidBlock(ip: nat, before: string, q: Quad, prefix: string, after: string)
    requires Blank(before) && Blank(after) && IsQuad(q) && IsNumeral(prefix, 2)
    requires ToInt(q).None? || NumberOf(prefix) > 32
    ensures !MatchesEntry(ip, before + (Dotted(q) + "/" + prefix) + after)
  {
    CidrTrims(before, q, prefix, after);
    ExecCidrMeans(Dotted(q) + "/" + prefix, q, prefix);
    ExecFinds(q);
    NotBoth(Dotted(q) + "/" + prefix);
  }

  /** The entry is a valid block, padded or not, that holds this address. */
  ghost predicate Spans(entry: string, ip: nat) {
    exists before, q, prefix, after :: IsBlock(entry, before, q, prefix, after) && Holds(q, prefix, ip)
  }

  lemma SpansMatch(entry: string, ip: nat)
    requires ip < WORD && Spans(entry, ip)
    ensures MatchesEntry(ip, entry)
  {
    var before, q, prefix, after :| IsBlock(entry, before, q, prefix, after) && Holds(q, prefix, ip);
    BlockMatches(ip, before, q, prefix, after);
  }

  lemma ExactNames(entry: string, ip: nat)
    requires Ipv4ToInt(Trim(entry)).Some? && MatchesEntry(ip, entry)
    ensures Names(entry, ip)
  {
    var before, after := TrimSplits(entry);
    var q := ExecIpv4(Trim(entry)).value;
    ExecIpv4Means(Trim(entry), q);
    assert IsAddress(entry, before, q, after);
  }

  lemma ReadsBlock(entry: string, ip: nat) returns (before: string, q: Quad, prefix: string, after: string)
    requires Ipv4ToInt(Trim(entry)).None? && MatchesEntry(ip, entry)
    ensures IsBlock(entry, before, q, prefix, after)
  {
    before, after := TrimSplits(entry);
    q, prefix := ExecCidr(Trim(entry)).value.0, ExecCidr(Trim(entry)).value.1;
    ExecCidrMeans(Trim(entry), q, prefix);
  }

  lemma BlockSpans(entry: string, ip: nat)
    requires ip < WORD && Ipv4ToInt(Trim(entry)).None? && MatchesEntry(ip, entry)
    ensures Spans(entry, ip)
  {
    var before, q, prefix, after := ReadsBlock(entry, ip);
    BlockMatches(ip, before, q, prefix, after);
  }

  /** An entry matches the address it is, or those of the block it is, and no other; anything else matches nothing. */
  lemma EntryMeans(ip: nat, entry: string)
    requires ip < WORD
    ensures MatchesEntry(ip, entry) <==> Names(entry, ip) || Spans(entry, ip)
  {
    if MatchesEntry(ip, entry) {
      if Ipv4ToInt(Trim(entry)).Some? { ExactNames(entry, ip); } else { BlockSpans(entry, ip); }
    }
    if Names(entry, ip) {
      var before, q, after :| IsAddress(entry, before, q, after) && ToInt(q) == Some(ip);
      ExactMatches(ip, before, q, after);
    }
    if Spans(entry, ip) { SpansMatch(entry, ip); }
  }

  lemma MatchesSome(entry: string)
    ensures IsValid(entry) <==> exists ip :: 0 <= ip < WORD && MatchesEntry(ip, entry)
  {
    var v := Trim(entry);
    NotBoth(v);
    if IsValid(entry) {
      if ExecIpv4(v).Some? {
        ToIntMeans(ExecIpv4(v).value);
        assert MatchesEntry(Ipv4ToInt(v).value, entry);
      } else {
        var c := ExecCidr(v).value;
        var base := Ipv4ToInt(Dotted(c.0)).value;
        ToIntMeans(ExecIpv4(Dotted(c.0)).value);
        assert MatchesEntry(base, entry);
      }
    }
    if exists ip :: 0 <= ip < WORD && MatchesEntry(ip, entry) {
      var ip :| 0 <= ip < WORD && MatchesEntry(ip, entry);
      if ExecIpv4(v).Some? { assert ExecCidr(v).None?; }
    }
  }

  /** An entry is valid if and only if it is some address, or a block that holds one. */
  lemma ValidIffMatchable(entry: string)
    ensures IsValid(entry) <==> exists ip :: 0 <= ip < WORD && (Names(entry, ip) || Spans(entry, ip))
  {
    MatchesSome(entry);
    forall ip: nat | ip < WORD ensures MatchesEntry(ip, entry) <==> Names(entry, ip) || Spans(entry, ip) {
      EntryMeans(ip, entry);
    }
  }

  const MAPPED := "::ffff:"

  /** `normalizeIp`: trimmed, without the IPv4-mapped prefix. */
  function NormalizeIp(ip: Option<string>): string {
    if ip.None? || ip.value == "" then ""
    else Unmapped(Trim(ip.value))
  }

  function Unmapped(ip: string): string {
    if |ip| >= 7 && ToLower(ip)[..7] == MAPPED then ip[7..] else ip
  }

  function IsIpAllowed(clientIp: Option<string>, allowlist: seq<string>): bool {
    if |allowlist| == 0 then true
    else
      var ip := Ipv4ToInt(NormalizeIp(clientIp));
      ip.Some? && exists entry :: entry in allowlist && MatchesEntry(ip.value, entry)
  }

  lemma Unmaps(mapped: string, ip: string)
    requires ip != "" && IsDigit(ip[0]) && (mapped == "" || ToLower(mapped) == "::ffff:")
    ensures Unmapped(mapped + ip) == ip
  {
    var v := mapped + ip;
    if mapped == "" {
      assert v == ip && ToLower(v)[0] == v[0];
      assert |v| >= 7 ==> ToLower(v)[..7][0] == v[0] != MAPPED[0];
    } else {
      assert |mapped| == 7 && ToLower(v)[..7] == ToLower(mapped);
    }
  }

  /** A text from digit to digit, plain or mapped in either case, and padded, normalizes to itself. */
  lemma NormalizesMapped(before: string, mapped: string, ip: string, after: string)
    requires Blank(before) && Blank(after) && (mapped == "" || ToLower(mapped) == "::ffff:")
    requires ip != "" && IsDigit(ip[0]) && IsDigit(ip[|ip| - 1])
    ensures NormalizeIp(Some(before + (mapped + ip) + after)) == ip
  {
    var v := mapped + ip;
    if mapped != "" { assert v[0] == mapped[0] && ToLower(mapped)[0] == ToLowerChar(mapped[0]) == ':'; }
    assert v[|v| - 1] == ip[|ip| - 1];
    TrimPadded(before, v, after);
    Unmaps(mapped, ip);
  }

  /** So a dotted quad is looked up by its number in every such form. */
  lemma QuadNormalizes(before: string, mapped: string, q: Quad, after: string)
    requires Blank(before) && Blank(after) && IsQuad(q) && (mapped == "" || ToLower(mapped) == "::ffff:")
    ensures Ipv4ToInt(NormalizeIp(Some(before + (mapped + Dotted(q)) + after))) == ToInt(q)
  {
    var s := Dotted(q);
    assert s[0] == q.a[0] && s[|s| - 1] == q.d[|q.d| - 1];
    NormalizesMapped(before, mapped, s, after);
    ExecFinds(q);
  }

  /** The address is on the list, or in one of its blocks. */
  ghost predicate Lists(allowlist: seq<string>, ip: nat) {
    exists entry :: entry in allowlist && (Names(entry, ip) || Spans(entry, ip))
  }

  /** The client's address is this dotted quad, plain or mapped, padded or not. */
  ghost predicate IsClient(clientIp: Option<string>, before: string, mapped: string, q: Quad, after: string) {
    && Blank(before) && Blank(after) && IsQuad(q) && (mapped == "" || ToLower(mapped) == "::ffff:")
    && clientIp == Some(before + (mapped + Dotted(q)) + after)
  }

  lemma ParsedFits(s: string)
    ensures Ipv4ToInt(s).Some? ==> Ipv4ToInt(s).value < WORD
  {
    if ExecIpv4(s).Some? { ToIntMeans(ExecIpv4(s).value); }
  }

  lemma AllowedByLists(clientIp: Option<string>, allowlist: seq<string>)
    requires allowlist != []
    ensures var ip := Ipv4ToInt(NormalizeIp(clientIp));
      IsIpAllowed(clientIp, allowlist) <==> ip.Some? && Lists(allowlist, ip.value)
  {
    var ip := Ipv4ToInt(NormalizeIp(clientIp));
    ParsedFits(NormalizeIp(clientIp));
    if ip.Some? {
      forall entry ensures MatchesEntry(ip.value, entry) <==> Names(entry, ip.value) || Spans(entry, ip.value) {
        EntryMeans(ip.value, entry);
      }
    }
  }

  lemma UnmappedSplits(v: string) returns (mapped: string)
    ensures v == mapped + Unmapped(v) && (mapped == "" || ToLower(mapped) == "::ffff:")
  {
    mapped := v[..|v| - |Unmapped(v)|];
    if mapped != "" { assert ToLower(mapped) == ToLower(v)[..7]; }
  }

  /** A client whose address is read at all is a dotted quad in one of its forms. */
  lemma ClientReads(clientIp: Option<string>) returns (before: string, mapped: string, q: Quad, after: string)
    requires Ipv4ToInt(NormalizeIp(clientIp)).Some?
    ensures IsClient(clientIp, before, mapped, q, after) && ToInt(q) == Ipv4ToInt(NormalizeIp(clientIp))
  {
    var s := NormalizeIp(clientIp);
    q := ExecIpv4(s).value;
    ExecIpv4Means(s, q);
    before, after := TrimSplits(clientIp.value);
    mapped := UnmappedSplits(Trim(clientIp.value));
  }

  /**
   An empty list admits everybody; any other list admits exactly the dotted quads, plain or mapped and padded or not,
   whose address it names or has in a block.
   */
  lemma AllowedIff(clientIp: Option<string>, allowlist: seq<string>)
    ensures IsIpAllowed(clientIp, allowlist)
            <==> allowlist == []
                 || exists before, mapped, q, after ::
                   IsClient(clientIp, before, mapped, q, after) && ToInt(q).Some? && Lists(allowlist, ToInt(q).value)
  {
    if allowlist != [] {
      AllowedByLists(clientIp, allowlist);
      if IsIpAllowed(clientIp, allowlist) {
        var before, mapped, q, after := ClientReads(clientIp);
      }
      forall before, mapped, q, after | IsClient(clientIp, before, mapped, q, after)
        ensures Ipv4ToInt(NormalizeIp(clientIp)) == ToInt(q)
      {
        QuadNormalizes(before, mapped, q, after);
      }
    }
  }

  function Valid(allowlist: seq<string>): seq<string> {
    if allowlist == [] then []
    else (if IsValid(allowlist[0]) then [allowlist[0]] else []) + Valid(allowlist[1..])
  }

  lemma {:induction false} InValid(entry: string, allowlist: seq<string>)
    ensures entry in Valid(allowlist) <==> entry in allowlist && IsValid(entry)
  {
    if allowlist != [] { InValid(entry, allowlist[1..]); }
  }

  /** In a non-empty list the entries that fail validation change nothing. */
  lemma InvalidEntriesAreInert(clientIp: Option<string>, allowlist: seq<string>)
    requires allowlist != []
    ensures var ip := Ipv4ToInt(NormalizeIp(clientIp));
      IsIpAllowed(clientIp, allowlist) <==> ip.Some? && Lists(Valid(allowlist), ip.value)
  {
    var ip := Ipv4ToInt(NormalizeIp(clientIp));
    AllowedByLists(clientIp, allowlist);
    ParsedFits(NormalizeIp(clientIp));
    forall entry { InValid(entry, allowlist); }
    forall entry { ValidIffMatchable(entry); }
  }

  /**
   So dropping them from a list is harmless for every client if and only if something is left: a list
   of nothing but invalid entries admits nobody, and the empty list admits everybody.
   */
  lemma DroppingInvalidEntries(allowlist: seq<string>)
    ensures (forall ip :: IsIpAllowed(ip, allowlist) == IsIpAllowed(ip, Valid(allowlist)))
            <==> allowlist == [] || Valid(allowlist) != []
  {
    if allowlist != [] {
      forall ip ensures Valid(allowlist) != [] ==> IsIpAllowed(ip, allowlist) == IsIpAllowed(ip, Valid(allowlist)) {
        InvalidEntriesAreInert(ip, allowlist);
        if Valid(allowlist) != [] { AllowedByLists(ip, Valid(allowlist)); }
      }
      if Valid(allowlist) == [] {
        InvalidEntriesAreInert(None, allowlist);
        assert !IsIpAllowed(None, allowlist) && IsIpAllowed(None, []);
      }
    }
  }

  /** The shortest such list holds one empty entry. */
  lemma OneEmptyEntry(clientIp: Option<string>)
    ensures Valid([""]) == [] && !IsIpAllowed(clientIp, [""]) && IsIpAllowed(clientIp, Valid([""]))
  {
    assert Trim("") == "" && ExecIpv4("").None? && ExecCidr("").None?;
    assert !IsValid("");
    assert [""][1..] == [];
    InvalidEntriesAreInert(clientIp, [""]);
  }
}
