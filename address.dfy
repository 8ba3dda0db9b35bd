/**
 * IP address literals as `ipaddress.ip_address(s)` reads them: the text is
 * tried as an IPv4 address first and as an IPv6 address second, and is
 * rejected (ValueError) when it is neither. The rules are those of the
 * standard library's `IPv4Address._ip_int_from_string` / `_parse_octet` and
 * `IPv6Address._ip_int_from_string` / `_parse_hextet`; an address keeps its
 * octets or 16-bit groups instead of one packed integer, which gives the same
 * equality.
 */
module Address {
  import opened Wrappers
  import opened Text

  /** An IPv4 address (four octets) or an IPv6 address (eight 16-bit groups). */
  datatype Addr = IPv4(octets: seq<nat>) | IPv6(hextets: seq<nat>) {

    /** `addr.version` */
    function Version(): nat {
      if IPv4? then 4 else 6
    }

    predicate Valid() {
      match this
      case IPv4(o) => |o| == 4 && forall i :: 0 <= i < 4 ==> o[i] < 256
      case IPv6(h) => |h| == 8 && forall i :: 0 <= i < 8 ==> h[i] < 0x1_0000
    }
  }

  /** One dotted-decimal octet: 1 to 3 digits, at most 255, and no leading zero on a value above 7. */
  function ParseOctet(t: string): Option<nat> {
    if t == [] || !All(t, Digit) || |t| > 3 then None
    else
      var v := Decimal(t);
      if v > 7 && t[0] == '0' then None
      else if v > 255 then None
      else Some(v)
  }

  function ParseOctets(parts: seq<string>): (r: Option<seq<nat>>)
    ensures r.Some? ==> |r.value| == |parts| && forall i :: 0 <= i < |parts| ==> r.value[i] < 256
  {
    if parts == [] then Some([])
    else
      match (ParseOctet(parts[0]), ParseOctets(parts[1..]))
      case (Some(v), Some(vs)) => Some([v] + vs)
      case _ => None
  }

  /** The dotted-quad form: exactly four octets separated by '.'. */
  function ParseIPv4(s: string): (r: Option<seq<nat>>)
    ensures r.Some? ==> IPv4(r.value).Valid()
  {
    if s == [] then None
    else
      var parts := Split(s, '.');
      if |parts| != 4 then None else ParseOctets(parts)
  }

  /** One IPv6 group: 1 to 4 hexadecimal digits (`int('', 16)` rejects the empty group). */
  function ParseHextet(t: string): (r: Option<nat>)
    ensures r.Some? ==> r.value < 0x1_0000
  {
    if !All(t, HexDigit) || |t| > 4 || t == [] then None else
      HexValueBound(t);
      assert Pow(16, |t|) <= 0x1_0000 by {
        assert |t| in {1, 2, 3, 4};
      }
      Some(HexValue(t))
  }

  function ParseHextets(parts: seq<string>): (r: Option<seq<nat>>)
    ensures r.Some? ==> |r.value| == |parts| && forall i :: 0 <= i < |parts| ==> r.value[i] < 0x1_0000
  {
    if parts == [] then Some([])
    else
      match (ParseHextet(parts[0]), ParseHextets(parts[1..]))
      case (Some(v), Some(vs)) => Some([v] + vs)
      case _ => None
  }

  /**
   * A last part holding a '.' is read as an IPv4 address and replaced by two
   * groups carrying its high and low 16 bits (the source formats them with
   * `'%x'`; the width of the hexadecimal text does not change the value read back).
   */
  function ExpandIPv4Tail(parts: seq<string>): (r: Option<seq<string>>)
    requires |parts| >= 1
  {
    var last := parts[|parts| - 1];
    if '.' !in last then Some(parts)
    else
      match ParseIPv4(last)
      case None => None
      case Some(o) => Some(parts[..|parts| - 1] + [Hex4(o[0] * 256 + o[1]), Hex4(o[2] * 256 + o[3])])
  }

  /** Ascending indices `i` with `lo <= i < hi` whose part is empty: the places of a '::'. */
  function Gaps(parts: seq<string>, lo: nat, hi: nat): (g: seq<nat>)
    requires lo <= hi <= |parts|
    ensures forall j :: 0 <= j < |g| ==> lo <= g[j] < hi && parts[g[j]] == []
    ensures forall i :: lo <= i < hi && parts[i] == [] ==> i in g
    decreases hi - lo
  {
    if lo == hi then []
    else if parts[lo] == [] then [lo] + Gaps(parts, lo + 1, hi)
    else Gaps(parts, lo + 1, hi)
  }

  function Zeros(n: nat): (z: seq<nat>)
    ensures |z| == n && forall i :: 0 <= i < n ==> z[i] == 0
  {
    seq(n, _ => 0)
  }

  /**
   * The colon-separated form: 3 to 9 parts after an IPv4 tail is expanded; at
   * most one '::' between the ends, which stands for at least one zero group;
   * a leading or trailing ':' only as part of '::'; without '::', exactly
   * eight non-empty parts.
   */
  function ParseIPv6(s: string): (r: Option<seq<nat>>)
    ensures r.Some? ==> IPv6(r.value).Valid()
  {
    if s == [] then None
    else
      var parts0 := Split(s, ':');
      if |parts0| < 3 then None
      else
        match ExpandIPv4Tail(parts0)
        case None => None
        case Some(parts) =>
          if |parts| > 9 || |parts| < 3 then None
          else
            var n := |parts|;
            var gaps := Gaps(parts, 1, n - 1);
            if |gaps| > 1 then None
            else if |gaps| == 1 then
              var k := gaps[0];
              var hi := if parts[0] == [] then k - 1 else k;
              var lo := if parts[n - 1] == [] then n - k - 2 else n - k - 1;
              if parts[0] == [] && hi != 0 then None
              else if parts[n - 1] == [] && lo != 0 then None
              else if hi + lo > 7 then None
              else
                match (ParseHextets(parts[..hi]), ParseHextets(parts[n - lo..]))
                case (Some(h), Some(l)) => Some(h + Zeros(8 - (hi + lo)) + l)
                case _ => None
            else if n != 8 || parts[0] == [] || parts[n - 1] == [] then None
            else ParseHextets(parts)
  }

  /** `ipaddress.ip_address(s)`: None where the source raises ValueError. */
  function ParseAddr(s: string): (r: Option<Addr>)
    ensures r.Some? ==> r.value.Valid()
    ensures r.Some? && r.value.IPv4? ==> ParseIPv4(s) == Some(r.value.octets)
    ensures r.Some? && r.value.IPv6? ==> ParseIPv4(s) == None && ParseIPv6(s) == Some(r.value.hextets)
    ensures r.None? <==> ParseIPv4(s) == None && ParseIPv6(s) == None
  {
    match ParseIPv4(s)
    case Some(o) => Some(IPv4(o))
    case None =>
      match ParseIPv6(s)
      case Some(h) => Some(IPv6(h))
      case None => None
  }

  function DecimalParts(os: seq<nat>): (ps: seq<string>)
    ensures |ps| == |os| && forall i :: 0 <= i < |os| ==> ps[i] == DecimalString(os[i])
  {
    if os == [] then [] else [DecimalString(os[0])] + DecimalParts(os[1..])
  }

  function HexParts(hs: seq<nat>): (ps: seq<string>)
    requires forall i :: 0 <= i < |hs| ==> hs[i] < 0x1_0000
    ensures |ps| == |hs| && forall i :: 0 <= i < |hs| ==> ps[i] == Hex4(hs[i])
  {
    if hs == [] then [] else [Hex4(hs[0])] + HexParts(hs[1..])
  }

  /**
   * The text of an address: `str(addr)` (dotted decimal) for IPv4, and the
   * fully written-out `addr.exploded` form for IPv6.
   */
  function Literal(a: Addr): string
    requires a.Valid()
  {
    match a
    case IPv4(o) => Join(DecimalParts(o), '.')
    case IPv6(h) => Join(HexParts(h), ':')
  }

  /** The text of an address is a non-empty word of digits, hexadecimal digits, dots and colons. */
  lemma LiteralShape(a: Addr)
    requires a.Valid()
    ensures |Literal(a)| > 0 && All(Literal(a), AddrChar)
  {
    match a
    case IPv4(o) =>
      var ps := DecimalParts(o);
      JoinIn(ps, '.', AddrChar);
      JoinStartsWith(ps, '.');
    case IPv6(h) =>
      var ps := HexParts(h);
      JoinIn(ps, ':', AddrChar);
      JoinStartsWith(ps, ':');
  }

  lemma OctetOfDecimal(v: nat)
    requires v < 256
    ensures ParseOctet(DecimalString(v)) == Some(v)
  {
    DecimalRoundTrip(v);
    DecimalStringShape(v);
  }

  lemma {:induction false} OctetsOfDecimals(os: seq<nat>)
    requires forall i :: 0 <= i < |os| ==> os[i] < 256
    ensures ParseOctets(DecimalParts(os)) == Some(os)
  {
    if os != [] {
      OctetOfDecimal(os[0]);
      assert DecimalParts(os)[1..] == DecimalParts(os[1..]);
      OctetsOfDecimals(os[1..]);
      assert [os[0]] + os[1..] == os;
    }
  }

  lemma {:induction false} HextetsOfHex(hs: seq<nat>)
    requires forall i :: 0 <= i < |hs| ==> hs[i] < 0x1_0000
    ensures ParseHextets(HexParts(hs)) == Some(hs)
  {
    if hs != [] {
      Hex4RoundTrip(hs[0]);
      assert HexParts(hs)[1..] == HexParts(hs[1..]);
      HextetsOfHex(hs[1..]);
      assert [hs[0]] + hs[1..] == hs;
    }
  }

  /** A string without the separator splits into itself alone. */
  lemma SplitWhole(s: string, sep: char)
    requires sep !in s
    ensures Split(s, sep) == [s]
  {
    SplitJoin([s], sep);
  }

  /** Reading the text of an address gives that address back. */
  lemma LiteralRoundTrip(a: Addr)
    requires a.Valid()
    ensures ParseAddr(Literal(a)) == Some(a)
  {
    if a.IPv4? {
      DottedRoundTrip(a.octets);
    } else {
      ExplodedRoundTrip(a.hextets);
    }
  }

  lemma DottedRoundTrip(o: seq<nat>)
    requires IPv4(o).Valid()
    ensures ParseIPv4(Join(DecimalParts(o), '.')) == Some(o)
  {
    var ps := DecimalParts(o);
    forall p | p in ps ensures '.' !in p {
      var i :| 0 <= i < |ps| && ps[i] == p;
      assert All(p, Digit);
    }
    SplitJoin(ps, '.');
    OctetsOfDecimals(o);
  }

  lemma ExplodedRoundTrip(h: seq<nat>)
    requires IPv6(h).Valid()
    ensures ParseIPv4(Join(HexParts(h), ':')) == None
    ensures ParseIPv6(Join(HexParts(h), ':')) == Some(h)
  {
    var ps := HexParts(h);
    var s := Join(ps, ':');
    HexPartsPlain(h);
    ExplodedNotDotted(ps);
    SplitJoin(ps, ':');
    assert ps[0] in ps && ps[7] in ps;
    assert s != [] by {
      JoinStartsWith(ps, ':');
    }
    assert ExpandIPv4Tail(ps) == Some(ps);
    assert |Gaps(ps, 1, 7)| == 0;
    HextetsOfHex(h);
  }

  /** The groups of an address's text are non-empty and hold neither separator. */
  lemma HexPartsPlain(h: seq<nat>)
    requires IPv6(h).Valid()
    ensures |HexParts(h)| == 8
    ensures forall p :: p in HexParts(h) ==> ':' !in p && '.' !in p && p != []
  {
    var ps := HexParts(h);
    forall p | p in ps ensures ':' !in p && '.' !in p && p != [] {
      var i :| 0 <= i < |ps| && ps[i] == p;
      assert All(p, HexDigit);
    }
  }

  /** Colon-joined groups without a '.' are not an IPv4 address. */
  lemma ExplodedNotDotted(ps: seq<string>)
    requires |ps| >= 1
    requires forall p :: p in ps ==> '.' !in p
    ensures ParseIPv4(Join(ps, ':')) == None
  {
    var s := Join(ps, ':');
    JoinAvoids(ps, ':', '.');
    SplitWhole(s, '.');
  }

  lemma JoinStartsWith(parts: seq<string>, sep: char)
    requires |parts| >= 1
    ensures StartsWith(Join(parts, sep), parts[0])
  {
    if |parts| > 1 {
      assert Join(parts, sep) == parts[0] + ([sep] + Join(parts[1..], sep));
    }
  }

  /** A joined string holds a character only if a part or the separator does. */
  lemma {:induction false} JoinAvoids(parts: seq<string>, sep: char, c: char)
    requires |parts| >= 1 && c != sep
    requires forall p :: p in parts ==> c !in p
    ensures c !in Join(parts, sep)
  {
    assert parts[0] in parts;
    if |parts| > 1 {
      JoinAvoids(parts[1..], sep, c);
    }
  }
}
