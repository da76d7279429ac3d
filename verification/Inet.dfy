/**
 * The address parser of src/mingw_inet.cc. A text is the characters before the terminating NUL.
 * The grammar (RFC 4291 section 2.2) comes first; ReadQuad and ReadGroups read it token by
 * token; the methods at the end are the code's loops over characters.
 */
module Inet {
  import opened Bytes
  import opened Wrappers

  const NS_INADDRSZ := 4
  const NS_IN6ADDRSZ := 16
  const NS_INT16SZ := 2

  // ---------- dotted quads ----------

  predicate IsDigit(c: char) {
    '0' <= c <= '9'
  }

  function DigitValue(c: char): nat
    requires IsDigit(c)
  {
    (c - '0') as nat
  }

  predicate AllDigits(s: string) {
    forall i :: 0 <= i < |s| ==> IsDigit(s[i])
  }

  function Decimal(s: string): nat
    requires AllDigits(s)
  {
    if s == "" then 0 else Decimal(s[..|s| - 1]) * 10 + DigitValue(s[|s| - 1])
  }

  /** A decimal number up to 255, without a leading zero. */
  predicate Octet(s: string) {
    s != "" && AllDigits(s) && Decimal(s) <= 255 && (|s| > 1 ==> s[0] != '0')
  }

  function OctetValue(s: string): byte
    requires Octet(s)
  {
    Decimal(s)
  }

  function QuadText(q: seq<string>): string {
    if q == [] then "" else if |q| == 1 then q[0] else q[0] + "." + QuadText(q[1..])
  }

  predicate IsQuad(q: seq<string>) {
    |q| == NS_INADDRSZ && AllOctets(q)
  }

  predicate AllOctets(q: seq<string>) {
    forall i :: 0 <= i < |q| ==> Octet(q[i])
  }

  function OctetValues(q: seq<string>): (r: seq<byte>)
    requires AllOctets(q)
    ensures |r| == |q|
  {
    seq(|q|, i requires 0 <= i < |q| => OctetValue(q[i]))
  }

  function DigitEnd(t: string, p: nat): (e: nat)
    requires p <= |t|
    ensures p <= e <= |t| && AllDigits(t[p..e]) && (e < |t| ==> !IsDigit(t[e]))
    decreases |t| - p
  {
    if p < |t| && IsDigit(t[p]) then
      var e := DigitEnd(t, p + 1);
      assert t[p..e] == [t[p]] + t[p + 1..e];
      e
    else p
  }

  /** Reads the octets from p to the end of the text, after those read before. */
  function ReadQuad(t: string, p: nat, before: seq<byte>): Option<seq<byte>>
    requires p <= |t| && |before| < NS_INADDRSZ
    decreases |t| - p
  {
    var e := DigitEnd(t, p);
    if !Octet(t[p..e]) then None
    else
      var octets := before + [OctetValue(t[p..e])];
      if e == |t| then (if |octets| == NS_INADDRSZ then Some(octets) else None)
      else if t[e] == '.' && |octets| < NS_INADDRSZ then ReadQuad(t, e + 1, octets)
      else None
  }

  lemma {:induction false} DigitEndIs(t: string, p: nat, e: nat)
    requires p <= e <= |t| && AllDigits(t[p..e]) && (e < |t| ==> !IsDigit(t[e]))
    ensures DigitEnd(t, p) == e
    decreases e - p
  {
    if p < e {
      assert t[p] == t[p..e][0] && t[p..e][1..] == t[p + 1..e];
      DigitEndIs(t, p + 1, e);
    }
  }

  /** The token that starts at p. */
  lemma TokenAt(t: string, p: nat, first: string, rest: string)
    requires p <= |t| && t[p..] == first + rest
    ensures p + |first| <= |t| && t[p..p + |first|] == first && t[p + |first|..] == rest
  {
    assert t[p..p + |first|] == t[p..][..|first|];
    assert t[p + |first|..] == t[p..][|first|..];
  }

  lemma AfterToken(t: string, e: nat, c: char, rest: string)
    requires e <= |t| && t[e..] == [c] + rest
    ensures e < |t| && t[e] == c && t[e + 1..] == rest
  {
    assert t[e] == t[e..][0];
    assert t[e + 1..] == t[e..][1..];
  }

  lemma OctetIsRead(t: string, p: nat, s: string, rest: string)
    requires p <= |t| && t[p..] == s + rest && Octet(s) && (rest == "" || !IsDigit(rest[0]))
    ensures DigitEnd(t, p) == p + |s| <= |t| && t[p..p + |s|] == s && t[p + |s|..] == rest
  {
    TokenAt(t, p, s, rest);
    var e := p + |s|;
    if e < |t| {
      assert t[e] == t[e..][0];
    }
    DigitEndIs(t, p, e);
  }

  lemma LastOctetIsRead(t: string, p: nat, before: seq<byte>, s: string)
    requires p <= |t| && t[p..] == s && Octet(s) && |before| + 1 == NS_INADDRSZ
    ensures ReadQuad(t, p, before) == Some(before + [OctetValue(s)])
  {
    assert t[p..] == s + "";
    OctetIsRead(t, p, s, "");
  }

  lemma DotIsRead(t: string, p: nat, before: seq<byte>, s: string, rest: string)
    requires p <= |t| && t[p..] == s + "." + rest && Octet(s) && |before| + 1 < NS_INADDRSZ
    ensures var next := p + |s| + 1;
            next <= |t| && t[next..] == rest && ReadQuad(t, p, before) == ReadQuad(t, next, before + [OctetValue(s)])
  {
    hide DigitEnd, AllDigits, OctetValue, Octet;
    assert t[p..] == s + ("." + rest);
    OctetIsRead(t, p, s, "." + rest);
    AfterToken(t, p + |s|, '.', rest);
  }

  /** Every dotted quad is read. */
  lemma {:induction false} QuadIsRead(t: string, p: nat, before: seq<byte>, q: seq<string>)
    requires p <= |t| && t[p..] == QuadText(q) && q != [] && |before| + |q| == NS_INADDRSZ && AllOctets(q)
    ensures ReadQuad(t, p, before) == Some(before + OctetValues(q))
    decreases |q|
  {
    hide Octet, OctetValue, ReadQuad;
    assert Octet(q[0]);
    if |q| == 1 {
      LastOctetIsRead(t, p, before, q[0]);
      assert OctetValues(q) == [OctetValue(q[0])];
    } else {
      DotIsRead(t, p, before, q[0], QuadText(q[1..]));
      var octets := before + [OctetValue(q[0])];
      QuadIsRead(t, p + |q[0]| + 1, octets, q[1..]);
      assert octets + OctetValues(q[1..]) == before + OctetValues(q);
    }
  }

  /** Nothing else is. */
  lemma {:induction false} ReadIsQuad(t: string, p: nat, before: seq<byte>) returns (q: seq<string>)
    requires p <= |t| && |before| < NS_INADDRSZ && ReadQuad(t, p, before).Some?
    ensures t[p..] == QuadText(q) && |before| + |q| == NS_INADDRSZ && AllOctets(q)
    decreases |t| - p
  {
    var e := DigitEnd(t, p);
    var first := t[p..e];
    if e == |t| {
      q := [first];
      assert t[p..] == first;
    } else {
      var rest := ReadIsQuad(t, e + 1, before + [OctetValue(first)]);
      q := [first] + rest;
      assert q[1..] == rest;
      assert t[p..] == first + "." + t[e + 1..];
    }
  }

  // ---------- IPv6 addresses ----------

  function Lower(c: char): char {
    if 'A' <= c <= 'Z' then c - 'A' + 'a' else c
  }

  predicate IsHex(c: char) {
    IsDigit(c) || 'a' <= Lower(c) <= 'f'
  }

  function HexDigit(c: char): (r: nat)
    requires IsHex(c)
    ensures r < 16
  {
    if IsDigit(c) then DigitValue(c) else (Lower(c) - 'a') as nat + 10
  }

  predicate AllHex(s: string) {
    forall i :: 0 <= i < |s| ==> IsHex(s[i])
  }

  function Hexadecimal(s: string): nat
    requires AllHex(s)
  {
    if s == "" then 0 else Hexadecimal(s[..|s| - 1]) * 16 + HexDigit(s[|s| - 1])
  }

  /** Any number of digits, as long as the value fits 16 bits. */
  predicate IsGroup(s: string) {
    s != "" && AllHex(s) && Hexadecimal(s) <= 0xffff
  }

  predicate AllGroups(groups: seq<string>) {
    forall i :: 0 <= i < |groups| ==> IsGroup(groups[i])
  }

  function GroupValue(s: string): u16
    requires IsGroup(s)
  {
    Hexadecimal(s)
  }

  function GroupBytes(groups: seq<string>): (b: seq<byte>)
    requires AllGroups(groups)
    ensures |b| == NS_INT16SZ * |groups|
  {
    assert groups != [] ==> IsGroup(groups[0]);
    if groups == [] then [] else Be16(GroupValue(groups[0])) + GroupBytes(groups[1..])
  }

  /** Groups, and perhaps a dotted quad after them, with colons between. */
  datatype Part = Part(groups: seq<string>, quad: seq<string>)

  predicate IsPart(x: Part) {
    AllGroups(x.groups) && (x.quad == [] || IsQuad(x.quad))
  }

  function PartText(x: Part): string
    decreases |x.groups|
  {
    if x.groups == [] then QuadText(x.quad)
    else if |x.groups| == 1 && x.quad == [] then x.groups[0]
    else x.groups[0] + ":" + PartText(Part(x.groups[1..], x.quad))
  }

  function PartBytes(x: Part): (b: seq<byte>)
    requires IsPart(x)
    ensures |b| == NS_INT16SZ * |x.groups| + |x.quad|
  {
    GroupBytes(x.groups) + OctetValues(x.quad)
  }

  /** Every group followed by a colon. */
  function Leading(groups: seq<string>): string {
    if groups == [] then "" else groups[0] + ":" + Leading(groups[1..])
  }

  datatype Address =
    | Plain(all: Part)
    | Compressed(prefix: seq<string>, suffix: Part)  // two colons between

  /** Sixteen octets, or fewer than that if some are left out. */
  predicate IsAddress(a: Address) {
    match a
    case Plain(all) => IsPart(all) && |PartBytes(all)| == NS_IN6ADDRSZ
    case Compressed(prefix, suffix) =>
      IsPart(suffix) && AllGroups(prefix) &&
      |GroupBytes(prefix)| + |PartBytes(suffix)| < NS_IN6ADDRSZ
  }

  function AddressText(a: Address): string {
    match a
    case Plain(all) => PartText(all)
    case Compressed(prefix, suffix) => (if prefix == [] then ":" else Leading(prefix)) + ":" + PartText(suffix)
  }

  function Zeros(n: nat): (z: seq<byte>)
    ensures |z| == n
  {
    seq(n, _ => 0)
  }

  function AddressBytes(a: Address): (b: seq<byte>)
    requires IsAddress(a)
    ensures |b| == NS_IN6ADDRSZ
  {
    match a
    case Plain(all) => PartBytes(all)
    case Compressed(prefix, suffix) =>
      var (p, s) := (GroupBytes(prefix), PartBytes(suffix));
      p + Zeros(NS_IN6ADDRSZ - |p| - |s|) + s
  }

  function HexEnd(t: string, p: nat): (e: nat)
    requires p <= |t|
    ensures p <= e <= |t| && AllHex(t[p..e]) && (e < |t| ==> !IsHex(t[e]))
    decreases |t| - p
  {
    if p < |t| && IsHex(t[p]) then
      var e := HexEnd(t, p + 1);
      assert t[p..e] == [t[p]] + t[p + 1..e];
      e
    else p
  }

  /** The octets so far, and after how many of them two colons were seen. */
  datatype Progress = Progress(octets: seq<byte>, gap: Option<nat>)

  /** Reads the text from the start of a token at p. */
  function ReadGroups(t: string, p: nat, x: Progress): Option<Progress>
    requires p <= |t|
    decreases |t| - p
  {
    var e := HexEnd(t, p);
    if Hexadecimal(t[p..e]) > 0xffff then None
    else
      var more := x.(octets := x.octets + Be16(Hexadecimal(t[p..e])));
      var fits := |more.octets| <= NS_IN6ADDRSZ;
      if e == |t| then (if e == p then Some(x) else if fits then Some(more) else None)
      else if t[e] == ':' then
        if e == p then (if x.gap.Some? then None else ReadGroups(t, e + 1, x.(gap := Some(|x.octets|))))
        else if e + 1 == |t| || !fits then None
        else ReadGroups(t, e + 1, more)
      else if t[e] == '.' && |x.octets| + NS_INADDRSZ <= NS_IN6ADDRSZ then
        match ReadQuad(t, p, [])
        case None => None
        case Some(quad) => Some(x.(octets := x.octets + quad))
      else None
  }

  /** The octets left out are zeros; there must be some. */
  function Expanded(x: Progress): Option<seq<byte>> {
    match x.gap
    case None => if |x.octets| == NS_IN6ADDRSZ then Some(x.octets) else None
    case Some(gap) =>
      if gap <= |x.octets| < NS_IN6ADDRSZ then
        Some(x.octets[..gap] + Zeros(NS_IN6ADDRSZ - |x.octets|) + x.octets[gap..])
      else None
  }

  /** A single colon cannot lead. */
  function ReadAddress(t: string): Option<seq<byte>> {
    if |t| > 0 && t[0] == ':' && (|t| == 1 || t[1] != ':') then None
    else Finished(ReadGroups(t, if |t| > 0 && t[0] == ':' then 1 else 0, Progress([], None)))
  }

  function Finished(x: Option<Progress>): Option<seq<byte>> {
    if x.None? then None else Expanded(x.value)
  }

  // ---------- every address is read ----------

  lemma {:induction false} HexEndIs(t: string, p: nat, e: nat)
    requires p <= e <= |t| && AllHex(t[p..e]) && (e < |t| ==> !IsHex(t[e]))
    ensures HexEnd(t, p) == e
    decreases e - p
  {
    if p < e {
      assert t[p] == t[p..e][0] && t[p..e][1..] == t[p + 1..e];
      HexEndIs(t, p + 1, e);
    }
  }

  lemma HexIsRead(t: string, p: nat, s: string, rest: string)
    requires p <= |t| && t[p..] == s + rest && AllHex(s) && (rest == "" || !IsHex(rest[0]))
    ensures HexEnd(t, p) == p + |s| <= |t| && t[p..p + |s|] == s && t[p + |s|..] == rest
  {
    TokenAt(t, p, s, rest);
    var e := p + |s|;
    if e < |t| {
      assert t[e] == t[e..][0];
    }
    HexEndIs(t, p, e);
  }

  lemma {:induction false} DecimalIsLarge(s: string)
    requires s != "" && AllDigits(s) && s[0] != '0'
    ensures Decimal(s) >= 1 && (|s| > 1 ==> Decimal(s) >= 10) && (|s| > 2 ==> Decimal(s) >= 100)
    ensures |s| > 3 ==> Decimal(s) >= 1000
  {
    if |s| == 1 {
      assert s[..0] == "";
      assert Decimal(s) == DigitValue(s[0]);
    } else {
      DecimalIsLarge(s[..|s| - 1]);
    }
  }

  lemma {:induction false} HexBound(s: string)
    requires AllHex(s)
    ensures Hexadecimal(s) < Pow2(4 * |s|)
  {
    if s != "" {
      HexBound(s[..|s| - 1]);
      var k := 4 * (|s| - 1);
      assert Pow2(k + 2) == 4 * Pow2(k);
      assert Pow2(k + 4) == 4 * Pow2(k + 2);
    }
  }

  /** An octet of a dotted quad does not overflow when its digits are taken as hexadecimal. */
  lemma OctetIsShort(s: string)
    requires Octet(s)
    ensures AllHex(s) && Hexadecimal(s) <= 0xffff
  {
    if |s| > 1 {
      DecimalIsLarge(s);
    }
    assert |s| <= 3;
    HexBound(s);
    ShortPowers(4 * |s|);
  }

  lemma ShortPowers(k: nat)
    requires k <= 12
    ensures Pow2(k) <= 0x1000
  {
    if k < 12 {
      PowerGrows(k, 12);
    }
    assert Pow2(12) == 0x1000 by {
      assert Pow2(4) == 16 && Pow2(8) == 256;
    }
  }

  lemma {:induction false} PowerGrows(i: nat, j: nat)
    requires i <= j
    ensures Pow2(i) <= Pow2(j)
  {
    if i < j {
      PowerGrows(i, j - 1);
    }
  }

  lemma QuadPartIsRead(t: string, p: nat, q: seq<string>, x: Progress)
    requires p <= |t| && t[p..] == QuadText(q) && IsQuad(q) && |x.octets| + NS_INADDRSZ <= NS_IN6ADDRSZ
    ensures ReadGroups(t, p, x) == Some(x.(octets := x.octets + OctetValues(q)))
  {
    hide Octet, OctetValues, Hexadecimal, ReadQuad, HexEnd;
    assert Octet(q[0]);
    OctetIsShort(q[0]);
    var rest := QuadText(q[1..]);
    assert t[p..] == q[0] + ("." + rest);
    HexIsRead(t, p, q[0], "." + rest);
    AfterToken(t, p + |q[0]|, '.', rest);
    assert q[0] != "" by { OctetIsNotEmpty(q[0]); }
    QuadIsRead(t, p, [], q);
    assert [] + OctetValues(q) == OctetValues(q);
  }

  lemma OctetIsNotEmpty(s: string)
    requires Octet(s)
    ensures s != ""
  {}

  lemma PartIsNotEmpty(x: Part)
    requires IsPart(x) && (x.groups != [] || x.quad != [])
    ensures PartText(x) != "" && PartText(x)[0] != ':'
  {
    if x.groups == [] {
      assert Octet(x.quad[0]);
      assert PartText(x)[0] == x.quad[0][0];
    } else {
      assert IsGroup(x.groups[0]);
      assert PartText(x)[0] == x.groups[0][0];
    }
  }

  lemma GroupStep(t: string, p: nat, e: nat, x: Progress)
    requires p < e < |t| - 1 && HexEnd(t, p) == e && t[e] == ':' && IsGroup(t[p..e])
    requires |x.octets| + NS_INT16SZ <= NS_IN6ADDRSZ
    ensures ReadGroups(t, p, x) == ReadGroups(t, e + 1, x.(octets := x.octets + Be16(GroupValue(t[p..e]))))
  {
    hide Hexadecimal, AllHex, HexEnd, ReadQuad, Be16;
  }

  /** A group followed by a colon and more. */
  lemma GroupIsRead(t: string, p: nat, g: string, rest: string, x: Progress)
    requires p <= |t| && t[p..] == g + ":" + rest && IsGroup(g) && rest != "" && |x.octets| + NS_INT16SZ <= NS_IN6ADDRSZ
    ensures var next := p + |g| + 1;
            next <= |t| && t[next..] == rest &&
            ReadGroups(t, p, x) == ReadGroups(t, next, x.(octets := x.octets + Be16(GroupValue(g))))
  {
    hide ReadGroups, HexEnd, Be16;
    assert t[p..] == g + (":" + rest);
    HexIsRead(t, p, g, ":" + rest);
    AfterToken(t, p + |g|, ':', rest);
    GroupStep(t, p, p + |g|, x);
  }

  lemma BytesCons(o: seq<byte>, x: Part)
    requires IsPart(x) && x.groups != []
    ensures AllGroups(x.groups[1..]) && IsGroup(x.groups[0])
    ensures o + PartBytes(x) == o + Be16(GroupValue(x.groups[0])) + PartBytes(Part(x.groups[1..], x.quad))
  {
    assert IsGroup(x.groups[0]);
  }

  lemma {:induction false} PartIsRead(t: string, p: nat, x: Part, y: Progress)
    requires p <= |t| && t[p..] == PartText(x) && IsPart(x) && |y.octets| + |PartBytes(x)| <= NS_IN6ADDRSZ
    ensures ReadGroups(t, p, y) == Some(y.(octets := y.octets + PartBytes(x)))
    decreases |x.groups|
  {
    hide IsGroup, Octet, OctetValues, ReadGroups, GroupValue;
    if x.groups == [] {
      assert GroupBytes([]) + OctetValues(x.quad) == OctetValues(x.quad);
      if x.quad == [] {
        assert y.octets + PartBytes(x) == y.octets;
        NothingIsRead(t, p, y);
      } else {
        QuadPartIsRead(t, p, x.quad, y);
      }
    } else {
      BytesCons(y.octets, x);
      var (g, rest) := (x.groups[0], Part(x.groups[1..], x.quad));
      if |x.groups| == 1 && x.quad == [] {
        LastGroupIsRead(t, p, g, y);
        assert y.octets + Be16(GroupValue(g)) + PartBytes(rest) == y.octets + Be16(GroupValue(g));
      } else {
        PartIsNotEmpty(rest);
        GroupIsRead(t, p, g, PartText(rest), y);
        PartIsRead(t, p + |g| + 1, rest, y.(octets := y.octets + Be16(GroupValue(g))));
      }
    }
  }

  lemma NothingIsRead(t: string, p: nat, y: Progress)
    requires p <= |t| && t[p..] == ""
    ensures ReadGroups(t, p, y) == Some(y)
  {
    assert HexEnd(t, p) == p && t[p..p] == "";
  }

  lemma LastGroupIsRead(t: string, p: nat, g: string, y: Progress)
    requires p <= |t| && t[p..] == g && IsGroup(g) && |y.octets| + NS_INT16SZ <= NS_IN6ADDRSZ
    ensures ReadGroups(t, p, y) == Some(y.(octets := y.octets + Be16(GroupValue(g))))
  {
    hide Hexadecimal;
    assert t[p..] == g + "";
    HexIsRead(t, p, g, "");
  }

  lemma GapIsRead(t: string, p: nat, rest: string, octets: seq<byte>)
    requires p <= |t| && t[p..] == ":" + rest
    ensures p + 1 <= |t| && t[p + 1..] == rest
    ensures ReadGroups(t, p, Progress(octets, None)) == ReadGroups(t, p + 1, Progress(octets, Some(|octets|)))
  {
    AfterToken(t, p, ':', rest);
    HexEndIs(t, p, p);
    assert t[p..p] == "" && Hexadecimal("") == 0;
  }

  /** Groups up to the two colons. */
  lemma {:induction false} PrefixIsRead(t: string, p: nat, prefix: seq<string>, rest: string, octets: seq<byte>)
    requires p <= |t| && t[p..] == Leading(prefix) + ":" + rest && AllGroups(prefix)
    requires |octets| + |GroupBytes(prefix)| <= NS_IN6ADDRSZ
    ensures var q := |t| - |rest|;
            var o := octets + GroupBytes(prefix);
            p < q && t[q..] == rest &&
            ReadGroups(t, p, Progress(octets, None)) == ReadGroups(t, q, Progress(o, Some(|o|)))
    decreases |prefix|
  {
    hide IsGroup, ReadGroups, ReadQuad, HexEnd, GroupValue;
    if prefix == [] {
      assert Leading(prefix) + ":" + rest == ":" + rest;
      assert octets + GroupBytes(prefix) == octets;
      GapIsRead(t, p, rest, octets);
    } else {
      assert IsGroup(prefix[0]);
      var tail := Leading(prefix[1..]) + ":" + rest;
      assert t[p..] == prefix[0] + ":" + tail;
      GroupIsRead(t, p, prefix[0], tail, Progress(octets, None));
      var o := octets + Be16(GroupValue(prefix[0]));
      assert o + GroupBytes(prefix[1..]) == octets + GroupBytes(prefix);
      PrefixIsRead(t, p + |prefix[0]| + 1, prefix[1..], rest, o);
    }
  }

  lemma AddressIsRead(a: Address)
    requires IsAddress(a)
    ensures ReadAddress(AddressText(a)) == Some(AddressBytes(a))
  {
    var t := AddressText(a);
    assert t[0..] == t;
    match a
    case Plain(all) =>
      PartIsNotEmpty(all);
      PartIsRead(t, 0, all, Progress([], None));
      assert [] + PartBytes(all) == PartBytes(all);
    case Compressed(prefix, suffix) =>
      CompressedIsRead(prefix, suffix);
  }

  lemma CompressedIsRead(prefix: seq<string>, suffix: Part)
    requires IsAddress(Compressed(prefix, suffix))
    ensures ReadAddress(AddressText(Compressed(prefix, suffix))) == Some(AddressBytes(Compressed(prefix, suffix)))
  {
    hide IsPart, PartText, PartBytes, ReadGroups;
    var t := AddressText(Compressed(prefix, suffix));
    var (text, start, g) := (PartText(suffix), if prefix == [] then 1 else 0, GroupBytes(prefix));
    if prefix == [] {
      assert t == ":" + (":" + text);
      assert t[0] == ':' && t[1] == ':' && t[1..] == Leading(prefix) + ":" + text;
    } else {
      assert IsGroup(prefix[0]);
      assert t[0] == prefix[0][0];
      assert t[0..] == Leading(prefix) + ":" + text;
    }
    assert [] + g == g;
    PrefixIsRead(t, start, prefix, text, []);
    PartIsRead(t, |t| - |text|, suffix, Progress(g, Some(|g|)));
    assert (g + PartBytes(suffix))[..|g|] == g && (g + PartBytes(suffix))[|g|..] == PartBytes(suffix);
  }

  // ---------- nothing else is ----------

  /** What has been read from p on: the rest of a part or, if two colons were still to come,
      groups, two colons and a part. */
  predicate Explains(t: string, p: nat, x: Progress, y: Progress, prefix: seq<string>, part: Part)
    requires p <= |t|
  {
    && IsPart(part) && AllGroups(prefix)
    && if y.gap == x.gap then t[p..] == PartText(part) && y.octets == x.octets + PartBytes(part)
       else
         x.gap.None? && t[p..] == Leading(prefix) + ":" + PartText(part) &&
         y == Progress(x.octets + GroupBytes(prefix) + PartBytes(part), Some(|x.octets| + |GroupBytes(prefix)|))
  }

  lemma QuadExplains(t: string, p: nat, x: Progress, quad: seq<byte>) returns (part: Part)
    requires p <= |t| && ReadQuad(t, p, []) == Some(quad)
    ensures Explains(t, p, x, x.(octets := x.octets + quad), [], part)
  {
    var q := ReadIsQuad(t, p, []);
    part := Part([], q);
    assert t[p..] == QuadText(q);
    QuadIsRead(t, p, [], q);
    assert [] + OctetValues(q) == OctetValues(q);
    assert [] + quad == quad;
  }

  lemma OneGroupExplains(t: string, p: nat, x: Progress, g: string) returns (part: Part)
    requires p <= |t| && t[p..] == g && (g == "" || IsGroup(g))
    ensures Explains(t, p, x, if g == "" then x else x.(octets := x.octets + Be16(GroupValue(g))), [], part)
  {
    if g == "" {
      part := Part([], []);
      assert x.octets + PartBytes(part) == x.octets;
    } else {
      part := Part([g], []);
      assert GroupBytes([g]) == Be16(GroupValue(g)) + GroupBytes([]);
      assert PartBytes(part) == Be16(GroupValue(g));
    }
  }

  lemma ConsExplains(t: string, p: nat, x: Progress, y: Progress, g: string, next: nat, prefix: seq<string>, part: Part)
    returns (longer: seq<string>, all: Part)
    requires p <= next < |t| && IsGroup(g) && t[p..] == g + ":" + t[next..]
    requires Explains(t, next, x.(octets := x.octets + Be16(GroupValue(g))), y, prefix, part)
    ensures Explains(t, p, x, y, longer, all)
  {
    hide PartText, Leading, GroupBytes, OctetValues, IsGroup, GroupValue, Be16;
    if y.gap == x.gap {
      longer, all := [], Part([g] + part.groups, part.quad);
      ConsPart(x.octets, g, part);
      NoGroups();
    } else {
      longer, all := [g] + prefix, part;
      ConsPrefix(x.octets, g, prefix, PartText(part));
    }
  }

  lemma NoGroups()
    ensures AllGroups([])
  {}

  lemma ConsPart(o: seq<byte>, g: string, part: Part)
    requires IsGroup(g) && IsPart(part) && PartText(part) != ""
    ensures var all := Part([g] + part.groups, part.quad);
            IsPart(all) && PartText(all) == g + ":" + PartText(part) &&
            o + Be16(GroupValue(g)) + PartBytes(part) == o + PartBytes(all)
  {
    hide GroupValue, IsGroup, Octet, OctetValue, IsQuad;
    var all := Part([g] + part.groups, part.quad);
    assert all.groups[1..] == part.groups;
  }

  lemma ConsPrefix(o: seq<byte>, g: string, prefix: seq<string>, text: string)
    requires IsGroup(g) && AllGroups(prefix)
    ensures AllGroups([g] + prefix) && GroupBytes([g] + prefix) == Be16(GroupValue(g)) + GroupBytes(prefix)
    ensures o + Be16(GroupValue(g)) + GroupBytes(prefix) == o + GroupBytes([g] + prefix)
    ensures g + ":" + (Leading(prefix) + ":" + text) == Leading([g] + prefix) + ":" + text
  {
    hide Be16, GroupValue;
    assert ([g] + prefix)[1..] == prefix;
  }

  lemma GapExplains(t: string, p: nat, x: Progress, y: Progress, prefix: seq<string>, part: Part)
    requires p < |t| && t[p] == ':' && x.gap.None?
    requires Explains(t, p + 1, x.(gap := Some(|x.octets|)), y, prefix, part) && y.gap.Some?
    ensures Explains(t, p, x, y, [], part)
  {
    assert t[p..] == Leading([]) + ":" + t[p + 1..];
    assert x.octets + GroupBytes([]) + PartBytes(part) == x.octets + PartBytes(part);
  }

  lemma TokenSplit(t: string, p: nat, e: nat)
    requires p <= e < |t|
    ensures t[p..] == t[p..e] + [t[e]] + t[e + 1..]
  {}

  lemma {:induction false} ReadIsExplained(t: string, p: nat, x: Progress) returns (prefix: seq<string>, part: Part)
    requires p <= |t| && ReadGroups(t, p, x).Some?
    ensures Explains(t, p, x, ReadGroups(t, p, x).value, prefix, part)
    ensures x.gap.Some? ==> ReadGroups(t, p, x).value.gap == x.gap
    decreases |t| - p
  {
    hide Explains, Hexadecimal, ReadQuad, HexEnd, PartText, PartBytes;
    var e := HexEnd(t, p);
    var g := t[p..e];
    prefix := [];
    if e == |t| {
      assert t[p..] == g;
      part := OneGroupExplains(t, p, x, g);
    } else {
      TokenSplit(t, p, e);
      if t[e] == '.' {
        part := QuadExplains(t, p, x, ReadQuad(t, p, []).value);
      } else if e == p {
        var ignored;
        ignored, part := ReadIsExplained(t, p + 1, x.(gap := Some(|x.octets|)));
        GapExplains(t, p, x, ReadGroups(t, p, x).value, ignored, part);
      } else {
        prefix, part := ReadIsExplained(t, e + 1, x.(octets := x.octets + Be16(GroupValue(g))));
        prefix, part := ConsExplains(t, p, x, ReadGroups(t, p, x).value, g, e + 1, prefix, part);
      }
    }
  }

  lemma AddressIsExplained(t: string) returns (a: Address)
    requires ReadAddress(t).Some?
    ensures IsAddress(a) && AddressText(a) == t && AddressBytes(a) == ReadAddress(t).value
  {
    hide ReadGroups, IsPart, PartText, PartBytes, IsGroup;
    var start := if |t| > 0 && t[0] == ':' then 1 else 0;
    var x := Progress([], None);
    var prefix, part := ReadIsExplained(t, start, x);
    var y := ReadGroups(t, start, x).value;
    assert t[0..] == t;
    if y.gap == None {
      NoGapAfterColon(t, start, part);
      a := Plain(part);
      assert [] + PartBytes(part) == PartBytes(part);
    } else {
      a := Compressed(prefix, part);
      var (g, b) := (GroupBytes(prefix), PartBytes(part));
      assert [] + g + b == g + b && (g + b)[..|g|] == g && (g + b)[|g|..] == b;
      GapText(t, start, prefix, PartText(part));
    }
  }

  lemma GapText(t: string, start: nat, prefix: seq<string>, rest: string)
    requires start <= |t| && AllGroups(prefix) && t[start..] == Leading(prefix) + ":" + rest
    requires start == if |t| > 0 && t[0] == ':' then 1 else 0
    requires start == 1 ==> |t| > 1 && t[1] == ':'
    ensures t == (if prefix == [] then ":" else Leading(prefix)) + ":" + rest
  {
    assert t[start] == t[start..][0];
    if prefix == [] {
      assert start == 1;
      assert t[1..] == ":" + rest;
      assert t == [t[0]] + t[1..];
    } else {
      assert IsGroup(prefix[0]);
      GroupStarts(prefix[0]);
      assert Leading(prefix)[0] == prefix[0][0];
      assert t[0..] == t;
    }
  }

  lemma GroupStarts(g: string)
    requires IsGroup(g)
    ensures g != "" && g[0] != ':'
  {}

  /** After a leading colon, the second one is read as a gap. */
  lemma NoGapAfterColon(t: string, start: nat, part: Part)
    requires start <= |t| && IsPart(part) && t[start..] == PartText(part)
    requires start == 1 ==> |t| > 1 && t[0] == ':' && t[1] == ':'
    requires start <= 1
    ensures start == 0
  {
    if start == 1 {
      assert t[1] == t[1..][0];
      if part.groups != [] || part.quad != [] {
        PartIsNotEmpty(part);
      }
    }
  }

  /** The parser accepts exactly the texts of addresses, and yields the octets they stand for. */
  lemma AddressesAreRead(t: string, b: seq<byte>)
    ensures ReadAddress(t) == Some(b) <==> exists a :: IsAddress(a) && AddressText(a) == t && AddressBytes(a) == b
  {
    if ReadAddress(t) == Some(b) {
      var a := AddressIsExplained(t);
    }
    if a :| IsAddress(a) && AddressText(a) == t && AddressBytes(a) == b {
      AddressIsRead(a);
    }
  }

  lemma QuadsAreRead(t: string, b: seq<byte>)
    ensures ReadQuad(t, 0, []) == Some(b) <==> exists q :: IsQuad(q) && QuadText(q) == t && OctetValues(q) == b
  {
    assert t[0..] == t;
    if ReadQuad(t, 0, []) == Some(b) {
      var q := ReadIsQuad(t, 0, []);
      QuadIsRead(t, 0, [], q);
      assert [] + OctetValues(q) == OctetValues(q);
      assert IsQuad(q) && QuadText(q) == t && OctetValues(q) == b;
    }
    if q :| IsQuad(q) && QuadText(q) == t && OctetValues(q) == b {
      QuadIsRead(t, 0, [], q);
      assert [] + OctetValues(q) == OctetValues(q);
    }
  }

  // ---------- printed addresses ----------

  const DECIMAL_DIGITS := "0123456789"
  const LOWER_DIGITS := "0123456789abcdef"
  const UPPER_DIGITS := "0123456789ABCDEF"

  lemma DecimalDigit(k: nat)
    requires k < 10
    ensures IsDigit(DECIMAL_DIGITS[k]) && DigitValue(DECIMAL_DIGITS[k]) == k
    ensures DECIMAL_DIGITS[k] == '0' ==> k == 0
  {
    var d := DECIMAL_DIGITS;
    assert d[0] == '0' && d[1] == '1' && d[2] == '2' && d[3] == '3' && d[4] == '4';
    assert d[5] == '5' && d[6] == '6' && d[7] == '7' && d[8] == '8' && d[9] == '9';
  }

  predicate HexDigits(digits: string) {
    digits == LOWER_DIGITS || digits == UPPER_DIGITS
  }

  /** A hexadecimal digit is the one of that index in either string. */
  lemma HexDigitIs(digits: string, k: nat)
    requires HexDigits(digits) && k < 16
    ensures |digits| == 16 && IsHex(digits[k]) && HexDigit(digits[k]) == k
  {
    var (d, u) := (LOWER_DIGITS, UPPER_DIGITS);
    if k < 10 {
      DecimalDigit(k);
      assert d[..10] == DECIMAL_DIGITS == u[..10];
      assert d[k] == d[..10][k] && u[k] == u[..10][k];
    } else {
      assert d[10] == 'a' && d[11] == 'b' && d[12] == 'c' && d[13] == 'd' && d[14] == 'e' && d[15] == 'f';
      assert u[10] == 'A' && u[11] == 'B' && u[12] == 'C' && u[13] == 'D' && u[14] == 'E' && u[15] == 'F';
    }
  }

  /** No other character is one. */
  lemma HexDigitsAreAll(c: char)
    ensures IsHex(c) <==> c in LOWER_DIGITS || c in UPPER_DIGITS
  {
    if IsHex(c) {
      var k := HexDigit(c);
      HexDigitIs(LOWER_DIGITS, k);
      HexDigitIs(UPPER_DIGITS, k);
      if c != LOWER_DIGITS[k] {
        assert c == UPPER_DIGITS[k];
      }
    } else {
      forall k | 0 <= k < 16
        ensures c != LOWER_DIGITS[k] && c != UPPER_DIGITS[k]
      {
        HexDigitIs(LOWER_DIGITS, k);
        HexDigitIs(UPPER_DIGITS, k);
      }
    }
  }

  /** Four digits. */
  function PrintGroup(x: u16, digits: string): string
    requires |digits| == 16
  {
    [digits[x / 0x1000], digits[x / 0x100 % 16], digits[x / 16 % 16], digits[x % 16]]
  }

  function PrintGroups(b: seq<byte>, digits: string): string
    requires |digits| == 16 && |b| % 2 == 0
  {
    if b == [] then ""
    else PrintGroup(GetBe16(b, 0), digits) + (if |b| == 2 then "" else ":") + PrintGroups(b[2..], digits)
  }

  lemma FourDigits(s: string)
    requires |s| == 4 && AllHex(s)
    ensures Hexadecimal(s) ==
            ((HexDigit(s[0]) * 16 + HexDigit(s[1])) * 16 + HexDigit(s[2])) * 16 + HexDigit(s[3])
  {
    hide HexDigit;
    assert s[..3][..2] == s[..2] && s[..2][..1] == s[..1] && s[..1][..0] == "";
    assert Hexadecimal(s[..1]) == HexDigit(s[0]);
    assert Hexadecimal(s[..2]) == Hexadecimal(s[..1]) * 16 + HexDigit(s[1]);
    assert Hexadecimal(s[..3]) == Hexadecimal(s[..2]) * 16 + HexDigit(s[2]);
  }

  lemma GroupPrinted(x: u16, digits: string)
    requires HexDigits(digits)
    ensures |digits| == 16 && IsGroup(PrintGroup(x, digits)) && GroupValue(PrintGroup(x, digits)) == x
  {
    hide HexDigit, IsHex, HexDigits, Hexadecimal;
    HexDigitIs(digits, x / 0x1000);
    HexDigitIs(digits, x / 0x100 % 16);
    HexDigitIs(digits, x / 16 % 16);
    HexDigitIs(digits, x % 16);
    FourDigits(PrintGroup(x, digits));
    NibblesMakeUp(x);
  }

  lemma NibblesMakeUp(x: u16)
    ensures ((x / 0x1000 * 16 + x / 0x100 % 16) * 16 + x / 16 % 16) * 16 + x % 16 == x
  {
    assert x / 0x1000 * 16 + x / 0x100 % 16 == x / 0x100;
    assert x / 0x100 * 16 + x / 16 % 16 == x / 16;
  }

  /** The groups of an address, in hexadecimal. */
  function Groups(b: seq<byte>, digits: string): (r: seq<string>)
    requires |digits| == 16 && |b| % 2 == 0
    ensures |r| == |b| / 2
  {
    if b == [] then [] else [PrintGroup(GetBe16(b, 0), digits)] + Groups(b[2..], digits)
  }

  lemma {:induction false} GroupsPrinted(b: seq<byte>, digits: string)
    requires HexDigits(digits) && |b| % 2 == 0
    ensures |digits| == 16 && AllGroups(Groups(b, digits)) && GroupBytes(Groups(b, digits)) == b
  {
    hide IsGroup, HexDigits, PrintGroup, HexDigit, GroupValue;
    HexDigitIs(digits, 0);
    if b != [] {
      var (x, rest) := (GetBe16(b, 0), Groups(b[2..], digits));
      GroupPrinted(x, digits);
      GroupsPrinted(b[2..], digits);
      assert Groups(b, digits)[1..] == rest;
      assert Be16(x) == b[..2];
      assert b == b[..2] + b[2..];
    }
  }

  lemma {:induction false} GroupsJoined(b: seq<byte>, digits: string)
    requires |digits| == 16 && |b| % 2 == 0
    ensures PrintGroups(b, digits) == PartText(Part(Groups(b, digits), []))
  {
    hide PrintGroup, GetBe16;
    if b != [] {
      var g := Groups(b, digits);
      GroupsJoined(b[2..], digits);
      assert g[1..] == Groups(b[2..], digits);
      if |b| == 2 {
        assert PrintGroups(b[2..], digits) == "";
        assert g[0] + "" + "" == g[0];
      }
    }
  }

  /** Any sixteen octets printed as eight groups, in lower or upper case, are read back. */
  lemma PrintedAddressIsRead(b: seq<byte>, digits: string)
    requires |b| == NS_IN6ADDRSZ && HexDigits(digits)
    ensures |digits| == 16 && ReadAddress(PrintGroups(b, digits)) == Some(b)
  {
    hide ReadAddress, HexDigits, PrintGroups, Groups, PartText, GroupBytes;
    GroupsPrinted(b, digits);
    GroupsJoined(b, digits);
    var x := Part(Groups(b, digits), []);
    assert PartBytes(x) == b;
    AddressIsRead(Plain(x));
  }

  /** Without leading zeros. */
  function PrintOctet(x: byte): string {
    var d := DECIMAL_DIGITS;
    if x < 10 then [d[x]]
    else if x < 100 then [d[x / 10], d[x % 10]]
    else [d[x / 100], d[x / 10 % 10], d[x % 10]]
  }

  function PrintQuad(b: seq<byte>): string {
    if b == [] then "" else PrintOctet(b[0]) + (if |b| == 1 then "" else ".") + PrintQuad(b[1..])
  }

  lemma DecimalDigits(s: string)
    requires 0 < |s| <= 3 && AllDigits(s)
    ensures |s| == 1 ==> Decimal(s) == DigitValue(s[0])
    ensures |s| == 2 ==> Decimal(s) == DigitValue(s[0]) * 10 + DigitValue(s[1])
    ensures |s| == 3 ==> Decimal(s) == (DigitValue(s[0]) * 10 + DigitValue(s[1])) * 10 + DigitValue(s[2])
  {
    hide DigitValue, IsDigit;
    assert s[..1][..0] == "" && Decimal(s[..1]) == DigitValue(s[0]);
    assert s[..|s|] == s;
    if |s| > 1 {
      assert s[..2][..1] == s[..1] && Decimal(s[..2]) == Decimal(s[..1]) * 10 + DigitValue(s[1]);
    }
  }

  lemma OneDigit(a: nat)
    requires a < 10
    ensures AllDigits([DECIMAL_DIGITS[a]]) && Decimal([DECIMAL_DIGITS[a]]) == a
  {
    hide Decimal, DigitValue, IsDigit;
    DecimalDigit(a);
    DecimalDigits([DECIMAL_DIGITS[a]]);
  }

  lemma DigitsMakeUp(x: byte)
    ensures x / 10 * 10 + x % 10 == x && (x / 100 * 10 + x / 10 % 10) * 10 + x % 10 == x
    ensures x < 100 ==> x / 10 < 10
  {
    assert x / 100 * 10 + x / 10 % 10 == x / 10;
  }

  lemma TwoDigits(a: nat, b: nat)
    requires a < 10 && b < 10
    ensures var s := [DECIMAL_DIGITS[a], DECIMAL_DIGITS[b]];
            AllDigits(s) && Decimal(s) == a * 10 + b && (a > 0 ==> s[0] != '0')
  {
    hide Decimal, DigitValue, IsDigit;
    DecimalDigit(a);
    DecimalDigit(b);
    DecimalDigits([DECIMAL_DIGITS[a], DECIMAL_DIGITS[b]]);
  }

  lemma ThreeDigits(a: nat, b: nat, c: nat)
    requires a < 10 && b < 10 && c < 10
    ensures var s := [DECIMAL_DIGITS[a], DECIMAL_DIGITS[b], DECIMAL_DIGITS[c]];
            AllDigits(s) && Decimal(s) == (a * 10 + b) * 10 + c && (a > 0 ==> s[0] != '0')
  {
    hide Decimal, DigitValue, IsDigit;
    DecimalDigit(a);
    DecimalDigit(b);
    DecimalDigit(c);
    DecimalDigits([DECIMAL_DIGITS[a], DECIMAL_DIGITS[b], DECIMAL_DIGITS[c]]);
  }

  lemma OctetPrinted(x: byte)
    ensures Octet(PrintOctet(x)) && OctetValue(PrintOctet(x)) == x
  {
    hide Decimal, DigitValue, IsDigit, AllDigits;
    DigitsMakeUp(x);
    if x < 10 {
      OneDigit(x);
    } else if x < 100 {
      TwoDigits(x / 10, x % 10);
    } else {
      ThreeDigits(x / 100, x / 10 % 10, x % 10);
    }
  }

  function Octets(b: seq<byte>): (q: seq<string>)
    ensures |q| == |b| && forall i :: 0 <= i < |b| ==> q[i] == PrintOctet(b[i])
  {
    seq(|b|, i requires 0 <= i < |b| => PrintOctet(b[i]))
  }

  lemma {:induction false} OctetsPrinted(b: seq<byte>)
    ensures PrintQuad(b) == QuadText(Octets(b)) && AllOctets(Octets(b)) && OctetValues(Octets(b)) == b
  {
    hide PrintOctet, Octet, OctetValue;
    forall i | 0 <= i < |b|
      ensures Octet(Octets(b)[i]) && OctetValue(Octets(b)[i]) == b[i]
    {
      OctetPrinted(b[i]);
    }
    if b != [] {
      OctetsPrinted(b[1..]);
      assert Octets(b)[1..] == Octets(b[1..]);
      if |b| == 1 {
        assert PrintQuad(b[1..]) == "";
        assert Octets(b)[0] + "" == Octets(b)[0];
      }
    }
  }

  /** Any four octets printed in decimal are read back. */
  lemma PrintedQuadIsRead(b: seq<byte>)
    requires |b| == NS_INADDRSZ
    ensures ReadQuad(PrintQuad(b), 0, []) == Some(b)
  {
    hide ReadQuad, PrintQuad, Octet;
    OctetsPrinted(b);
    assert PrintQuad(b)[0..] == PrintQuad(b);
    QuadIsRead(PrintQuad(b), 0, [], Octets(b));
    assert [] + b == b;
  }

  // ---------- the parser ----------

  lemma {:induction false} DecimalGrows(t: string, s: nat, i: nat, e: nat)
    requires s <= i <= e <= |t| && AllDigits(t[s..e])
    ensures AllDigits(t[s..i]) && Decimal(t[s..i]) <= Decimal(t[s..e])
    decreases e - i
  {
    assert forall k :: 0 <= k < i - s ==> t[s..i][k] == t[s..e][k];
    if i < e {
      assert t[s..e][..e - s - 1] == t[s..e - 1];
      DecimalGrows(t, s, i, e - 1);
    }
  }

  lemma {:induction false} DigitEndReaches(t: string, s: nat, i: nat)
    requires s <= i <= |t| && AllDigits(t[s..i])
    ensures i <= DigitEnd(t, s)
    decreases i - s
  {
    if s < i {
      assert t[s] == t[s..i][0] && t[s..i][1..] == t[s + 1..i];
      DigitEndReaches(t, s + 1, i);
    }
  }

  /** A token that has gone wrong stays wrong. */
  lemma BadOctet(t: string, s: nat, i: nat, before: seq<byte>)
    requires s < i <= |t| && AllDigits(t[s..i]) && !Octet(t[s..i]) && |before| < NS_INADDRSZ
    ensures ReadQuad(t, s, before) == None
  {
    var e := DigitEnd(t, s);
    DigitEndReaches(t, s, i);
    DecimalGrows(t, s, i, e);
    assert t[s..i][0] == t[s..e][0];
  }

  lemma DecimalSnoc(t: string, s: nat, i: nat)
    requires s <= i < |t| && AllDigits(t[s..i]) && IsDigit(t[i])
    ensures AllDigits(t[s..i + 1]) && Decimal(t[s..i + 1]) == Decimal(t[s..i]) * 10 + DigitValue(t[i])
  {
    assert t[s..i + 1] == t[s..i] + [t[i]];
    assert t[s..i + 1][..i - s] == t[s..i];
  }

  /** One more digit, and what it does to the token. */
  lemma DigitStep(t: string, s: nat, i: nat, before: seq<byte>)
    requires s <= i < |t| && AllDigits(t[s..i]) && IsDigit(t[i]) && (s < i ==> Octet(t[s..i])) && |before| < NS_INADDRSZ
    ensures var n := Decimal(t[s..i]) * 10 + DigitValue(t[i]);
            && AllDigits(t[s..i + 1]) && Decimal(t[s..i + 1]) == n
            && if (s < i && Decimal(t[s..i]) == 0) || n > 255 then ReadQuad(t, s, before) == None
               else Octet(t[s..i + 1])
  {
    DecimalSnoc(t, s, i);
    if s < i {
      ZeroIsAlone(t[s..i]);
      assert t[s..i + 1][0] == t[s..i][0];
    }
    if !Octet(t[s..i + 1]) {
      BadOctet(t, s, i + 1, before);
    }
  }

  lemma QuadStep(t: string, s: nat, i: nat, before: seq<byte>)
    requires s <= i < |t| && AllDigits(t[s..i]) && !IsDigit(t[i])
    requires (s < i ==> Octet(t[s..i])) && |before| < NS_INADDRSZ
    ensures ReadQuad(t, s, before) ==
            if t[i] == '.' && s < i && |before| + 1 < NS_INADDRSZ then
              ReadQuad(t, i + 1, before + [OctetValue(t[s..i])])
            else None
  {
    DigitEndIs(t, s, i);
  }

  lemma QuadEnds(t: string, s: nat, before: seq<byte>)
    requires s <= |t| && AllDigits(t[s..]) && (s < |t| ==> Octet(t[s..])) && |before| < NS_INADDRSZ
    ensures ReadQuad(t, s, before) ==
            if s < |t| && |before| + 1 == NS_INADDRSZ then Some(before + [OctetValue(t[s..])]) else None
  {
    assert t[s..|t|] == t[s..];
    DigitEndIs(t, s, |t|);
  }

  method InetPton4(t: string, src: nat) returns (r: Option<seq<byte>>)
    requires src <= |t|
    ensures r == ReadQuad(t, src, [])
  {
    hide ReadQuad, Octet, Decimal;
    var tmp := new byte[NS_INADDRSZ](_ => 0);
    var tp, sawDigit, octets, i := 0, false, 0, src;
    ghost var s := src;  // where the current token starts
    assert tmp[..0] == [];
    NoDigits(t, src);
    while i < |t|
      invariant src <= s <= i <= |t| && tp < NS_INADDRSZ && octets == tp + (if sawDigit then 1 else 0)
      invariant AllDigits(t[s..i]) && tmp[tp] == Decimal(t[s..i]) && (sawDigit <==> s < i)
      invariant s < i ==> Octet(t[s..i])
      invariant ReadQuad(t, src, []) == ReadQuad(t, s, tmp[..tp])
    {
      ghost var before := tmp[..tp];
      if IsDigit(t[i]) {
        DigitStep(t, s, i, before);
        var n := tmp[tp] * 10 + DigitValue(t[i]);
        if sawDigit && tmp[tp] == 0 {
          return None;
        }
        if n > 255 {
          return None;
        }
        tmp[tp] := n;
        assert tmp[..tp] == before;
        if !sawDigit {
          octets := octets + 1;
          sawDigit := true;
        }
      } else if t[i] == '.' && sawDigit {
        QuadStep(t, s, i, before);
        if octets == 4 {
          return None;
        }
        tp := tp + 1;
        assert tmp[..tp] == before + [OctetValue(t[s..i])];
        tmp[tp] := 0;
        assert tmp[..tp] == before + [OctetValue(t[s..i])];
        sawDigit := false;
        s := i + 1;
        NoDigits(t, s);
      } else {
        QuadStep(t, s, i, before);
        return None;
      }
      i := i + 1;
    }
    assert t[s..i] == t[s..];
    QuadEnds(t, s, tmp[..tp]);
    if octets < 4 {
      return None;
    }
    assert tmp[..] == tmp[..tp] + [OctetValue(t[s..i])];
    return Some(tmp[..]);
  }

  lemma NoDigits(t: string, s: nat)
    requires s <= |t|
    ensures AllDigits(t[s..s]) && Decimal(t[s..s]) == 0
  {}

  /** A number without a leading zero is zero only as the single digit. */
  lemma ZeroIsAlone(s: string)
    requires Octet(s)
    ensures Decimal(s) == 0 <==> s[0] == '0'
  {
    if s[0] != '0' {
      DecimalIsLarge(s);
    } else {
      assert s[..0] == "";
    }
  }

  // Steps of the loop of inet_pton6, as ReadGroups sees them.

  lemma {:induction false} HexEndReaches(t: string, s: nat, i: nat)
    requires s <= i <= |t| && AllHex(t[s..i])
    ensures i <= HexEnd(t, s)
    decreases i - s
  {
    if s < i {
      assert t[s] == t[s..i][0] && t[s..i][1..] == t[s + 1..i];
      HexEndReaches(t, s + 1, i);
    }
  }

  lemma {:induction false} HexPrefix(w: string, n: nat)
    requires n <= |w| && AllHex(w)
    ensures AllHex(w[..n]) && Hexadecimal(w[..n]) <= Hexadecimal(w)
  {
    if n < |w| {
      var init := w[..|w| - 1];
      assert init[..n] == w[..n];
      HexPrefix(init, n);
    } else {
      assert w[..n] == w;
    }
  }

  lemma HexSnoc(w: string, c: char)
    requires AllHex(w) && IsHex(c)
    ensures AllHex(w + [c]) && Hexadecimal(w + [c]) == Or(Hexadecimal(w) * 16, HexDigit(c))
  {
    assert (w + [c])[..|w|] == w;
    assert Pow2(4) == 16;
    OrDisjoint(Hexadecimal(w), HexDigit(c), 4);
  }

  lemma HexStep(t: string, s: nat, i: nat, x: Progress)
    requires s <= i < |t| && AllHex(t[s..i]) && IsHex(t[i])
    ensures AllHex(t[s..i + 1]) && Hexadecimal(t[s..i + 1]) == Or(Hexadecimal(t[s..i]) * 16, HexDigit(t[i]))
    ensures Hexadecimal(t[s..i + 1]) > 0xffff ==> ReadGroups(t, s, x) == None
  {
    hide Hexadecimal, AllHex, HexDigit, HexEnd, ReadQuad;
    assert t[s..i + 1] == t[s..i] + [t[i]];
    HexSnoc(t[s..i], t[i]);
    if Hexadecimal(t[s..i + 1]) > 0xffff {
      var e := HexEnd(t, s);
      HexEndReaches(t, s, i + 1);
      assert t[s..e][..i + 1 - s] == t[s..i + 1];
      HexPrefix(t[s..e], i + 1 - s);
    }
  }

  /** A token that ends at i, before a character that is no digit. */
  lemma TokenStep(t: string, s: nat, i: nat, x: Progress)
    requires s <= i < |t| && AllHex(t[s..i]) && !IsHex(t[i]) && Hexadecimal(t[s..i]) <= 0xffff
    ensures ReadGroups(t, s, x) ==
            var more := x.(octets := x.octets + Be16(Hexadecimal(t[s..i])));
            if t[i] == ':' then
              if i == s then (if x.gap.Some? then None else ReadGroups(t, i + 1, x.(gap := Some(|x.octets|))))
              else if i + 1 == |t| || |more.octets| > NS_IN6ADDRSZ then None
              else ReadGroups(t, i + 1, more)
            else if t[i] == '.' && |x.octets| + NS_INADDRSZ <= NS_IN6ADDRSZ && ReadQuad(t, s, []).Some? then
              Some(x.(octets := x.octets + ReadQuad(t, s, []).value))
            else None
  {
    hide Hexadecimal, ReadQuad;
    HexEndIs(t, s, i);
  }

  lemma TextEnds(t: string, s: nat, x: Progress)
    requires s <= |t| && AllHex(t[s..]) && Hexadecimal(t[s..]) <= 0xffff
    ensures ReadGroups(t, s, x) ==
            var more := x.(octets := x.octets + Be16(Hexadecimal(t[s..])));
            if s == |t| then Some(x) else if |more.octets| <= NS_IN6ADDRSZ then Some(more) else None
  {
    hide Hexadecimal, ReadQuad;
    assert t[s..|t|] == t[s..];
    HexEndIs(t, s, |t|);
  }

  lemma NoHex(t: string, s: nat)
    requires s <= |t|
    ensures AllHex(t[s..s]) && Hexadecimal(t[s..s]) == 0
  {}

  lemma {:induction false} QuadLength(t: string, p: nat, before: seq<byte>)
    requires p <= |t| && |before| < NS_INADDRSZ && ReadQuad(t, p, before).Some?
    ensures |ReadQuad(t, p, before).value| == NS_INADDRSZ
    decreases |t| - p
  {
    var e := DigitEnd(t, p);
    if e < |t| {
      QuadLength(t, e + 1, before + [OctetValue(t[p..e])]);
    }
  }

  /** The array holds the octets so far, and zeros after them. */
  ghost predicate Filled(tmp: array<byte>, tp: nat, octets: seq<byte>)
    reads tmp
  {
    tp == |octets| <= tmp.Length && tmp[..tp] == octets && forall k :: tp <= k < tmp.Length ==> tmp[k] == 0
  }

  method Put(tmp: array<byte>, tp: nat, data: seq<byte>, ghost octets: seq<byte>) returns (next: nat)
    requires Filled(tmp, tp, octets) && tp + |data| <= tmp.Length
    modifies tmp
    ensures next == tp + |data| && Filled(tmp, next, octets + data)
  {
    forall k | 0 <= k < |data| {
      tmp[tp + k] := data[k];
    }
    next := tp + |data|;
  }

  /** The last n octets have been moved to the end of a, and left zeros. */
  ghost predicate Moved(a: seq<byte>, octets: seq<byte>, n: nat)
    requires n <= |octets| <= |a|
  {
    && (forall k :: 0 <= k < |octets| - n ==> a[k] == octets[k])
    && (forall k :: |octets| - n <= k < |a| - n ==> a[k] == 0)
    && forall k :: |a| - n <= k < |a| ==> a[k] == octets[k - (|a| - |octets|)]
  }

  lemma MovesOne(a: seq<byte>, octets: seq<byte>, n: nat)
    requires n < |octets| < |a| && Moved(a, octets, n)
    ensures var (from, to) := (|octets| - n - 1, |a| - n - 1);
            Moved(a[to := a[from]][from := 0], octets, n + 1)
  {}

  /** The octets after the gap are moved to the end, one at a time and the last one first; the
      regions may overlap. */
  method Shift(tmp: array<byte>, colonp: nat, tp: nat, ghost octets: seq<byte>)
    requires Filled(tmp, tp, octets) && colonp <= tp < tmp.Length
    modifies tmp
    ensures tmp[..] == octets[..colonp] + Zeros(tmp.Length - tp) + octets[colonp..]
  {
    hide Moved;
    var n, end := tp - colonp, tmp.Length;
    NothingMoved(tmp[..], octets);
    for i := 1 to n + 1
      invariant Moved(tmp[..], octets, i - 1)
    {
      MovesOne(tmp[..], octets, i - 1);
      tmp[end - i] := tmp[colonp + (n - i)];
      tmp[colonp + (n - i)] := 0;
    }
    ShiftedIs(tmp[..], octets, colonp);
  }

  lemma NothingMoved(a: seq<byte>, octets: seq<byte>)
    requires |octets| <= |a| && a[..|octets|] == octets && forall k :: |octets| <= k < |a| ==> a[k] == 0
    ensures Moved(a, octets, 0)
  {
    assert forall k :: 0 <= k < |octets| ==> a[k] == a[..|octets|][k];
  }

  lemma ShiftedIs(a: seq<byte>, octets: seq<byte>, colonp: nat)
    requires colonp <= |octets| <= |a| && Moved(a, octets, |octets| - colonp)
    ensures a == octets[..colonp] + Zeros(|a| - |octets|) + octets[colonp..]
  {}

  method InetPton6(src: string) returns (r: Option<seq<byte>>)
    ensures r == ReadAddress(src)
  {
    hide ReadGroups, ReadQuad, Hexadecimal, AllHex;
    var tmp := new byte[NS_IN6ADDRSZ](_ => 0);
    var tp: nat, i: nat := 0, 0;
    var gap: Option<nat> := None;
    if |src| > 0 && src[0] == ':' {
      if |src| == 1 || src[1] != ':' {
        return None;
      }
      i := 1;
    }
    var curtok, sawXdigit, val := i, false, 0;
    ghost var octets: seq<byte> := [];
    NoHex(src, curtok);
    while i < |src|
      invariant curtok <= i <= |src| && (sawXdigit <==> curtok < i) && (gap.Some? ==> gap.value <= tp)
      invariant AllHex(src[curtok..i]) && val == Hexadecimal(src[curtok..i]) <= 0xffff
      invariant Filled(tmp, tp, octets)
      invariant ReadAddress(src) == Finished(ReadGroups(src, curtok, Progress(octets, gap)))
    {
      if IsHex(src[i]) {
        HexStep(src, curtok, i, Progress(octets, gap));
        val := Or(val * 16, HexDigit(src[i]));
        if val > 0xffff {
          return None;
        }
        sawXdigit := true;
        i := i + 1;
        continue;
      }
      TokenStep(src, curtok, i, Progress(octets, gap));
      if src[i] == ':' {
        if !sawXdigit {
          if gap.Some? {
            return None;
          }
          gap := Some(tp);
        } else if i + 1 == |src| {
          return None;
        } else {
          if tp + NS_INT16SZ > NS_IN6ADDRSZ {
            return None;
          }
          tp := Put(tmp, tp, [val / 0x100, val % 0x100], octets);
          octets := octets + Be16(val);
        }
        i := i + 1;
        curtok, sawXdigit, val := i, false, 0;
        NoHex(src, curtok);
        continue;
      }
      if src[i] == '.' && tp + NS_INADDRSZ <= NS_IN6ADDRSZ {
        var quad := InetPton4(src, curtok);
        if quad.Some? {
          QuadLength(src, curtok, []);
          tp := Put(tmp, tp, quad.value, octets);
          octets := octets + quad.value;
          r := Finish(tmp, tp, gap, octets);
          return;
        }
      }
      return None;
    }
    assert src[curtok..i] == src[curtok..];
    TextEnds(src, curtok, Progress(octets, gap));
    if sawXdigit {
      if tp + NS_INT16SZ > NS_IN6ADDRSZ {
        return None;
      }
      tp := Put(tmp, tp, [val / 0x100, val % 0x100], octets);
      octets := octets + Be16(val);
    }
    r := Finish(tmp, tp, gap, octets);
  }

  /** The end of inet_pton6. */
  method Finish(tmp: array<byte>, tp: nat, gap: Option<nat>, ghost octets: seq<byte>) returns (r: Option<seq<byte>>)
    requires tmp.Length == NS_IN6ADDRSZ && Filled(tmp, tp, octets) && (gap.Some? ==> gap.value <= tp)
    modifies tmp
    ensures r == Expanded(Progress(octets, gap))
  {
    if gap.Some? {
      if tp == NS_IN6ADDRSZ {
        return None;
      }
      Shift(tmp, gap.value, tp, octets);
    } else if tp != NS_IN6ADDRSZ {
      return None;
    }
    assert gap.None? ==> tmp[..] == octets;
    r := Some(tmp[..]);
  }
}
