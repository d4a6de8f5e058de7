/** Matching a client address against an IP group: a CIDR block (section 3.1 of RFC 4632), a range, or a
    single address. IPv4 only. */
module IpGroups {
  import opened Wrappers
  import opened Text

  type Octet = x: int | 0 <= x < 256

  datatype Octets = Octets(a: Octet, b: Octet, c: Octet, d: Octet)

  function Value(o: Octets): int {
    o.a * 0x1000000 + o.b * 0x10000 + o.c * 0x100 + o.d
  }

  function Dotted(o: Octets): string {
    Join([Itoa(o.a), Itoa(o.b), Itoa(o.c), Itoa(o.d)], ".")
  }

  // ---------- IpToInt ----------

  const MAX_INT64 := 0x7FFF_FFFF_FFFF_FFFF
  const MIN_INT64 := -0x8000_0000_0000_0000

  /** The value strconv.Atoi returns beside its error: zero for bad syntax, the nearest bound out of range. */
  function StringToInt(s: string): int {
    var negative := s != "" && s[0] == '-';
    var digits := if s != "" && (s[0] == '-' || s[0] == '+') then s[1..] else s;
    match ParseNat(digits)
    case None => 0
    case Some(n) =>
      if negative then (if n > -MIN_INT64 then MIN_INT64 else 0 - n) else if n > MAX_INT64 then MAX_INT64 else n
  }

  function Wrap64(x: int): int {
    (x - MIN_INT64) % 0x1_0000_0000_0000_0000 + MIN_INT64
  }

  function IpToInt(ip: string): int {
    if ip == "" then 0
    else
      var bits := Split(ip, '.');
      if |bits| < 4 then 0
      else
        Wrap64(StringToInt(bits[0]) * 0x1000000 + StringToInt(bits[1]) * 0x10000
               + StringToInt(bits[2]) * 0x100 + StringToInt(bits[3]))
  }

  lemma SplitDotted(o: Octets)
    ensures Dotted(o) != "" && Split(Dotted(o), '.') == [Itoa(o.a), Itoa(o.b), Itoa(o.c), Itoa(o.d)]
    ensures forall c :: c in Dotted(o) ==> IsDigit(c) || c == '.'
  {
    var parts := [Itoa(o.a), Itoa(o.b), Itoa(o.c), Itoa(o.d)];
    SplitJoin(parts, '.');
    JoinChars(parts, ".");
    assert |Split("", '.')| == 1;
  }

  lemma {:induction false} JoinChars(parts: seq<string>, sep: string)
    ensures forall c :: c in Join(parts, sep) ==> c in sep || exists k :: 0 <= k < |parts| && c in parts[k]
  {
    if |parts| <= 1 {
    } else {
      JoinChars(parts[1..], sep);
      assert parts == [parts[0]] + parts[1..];
    }
  }

  lemma StringToIntItoa(x: Octet)
    ensures StringToInt(Itoa(x)) == x
  {
    ParseItoa(x);
    assert IsDigit(Itoa(x)[0]);
  }

  lemma IpToIntDotted(o: Octets)
    ensures IpToInt(Dotted(o)) == Value(o)
  {
    SplitDotted(o);
    StringToIntItoa(o.a);
    StringToIntItoa(o.b);
    StringToIntItoa(o.c);
    StringToIntItoa(o.d);
  }

  predicate LexLess(o: Octets, p: Octets) {
    o.a < p.a || (o.a == p.a && (o.b < p.b || (o.b == p.b && (o.c < p.c || (o.c == p.c && o.d < p.d)))))
  }

  /** On dotted addresses the integer order is the order of the octets, hence distinct for distinct ones. */
  lemma IpToIntMonotone(o: Octets, p: Octets)
    ensures IpToInt(Dotted(o)) < IpToInt(Dotted(p)) <==> LexLess(o, p)
    ensures IpToInt(Dotted(o)) == IpToInt(Dotted(p)) <==> o == p
  {
    IpToIntDotted(o);
    IpToIntDotted(p);
  }

  // ---------- CIDR blocks ----------

  function ParseOctet(s: string): Option<Octet> {
    match ParseNat(s)
    case None => None
    case Some(n) => if n > 255 || (|s| > 1 && s[0] == '0') then None else Some(n)
  }

  function ParseIPv4(s: string): Option<Octets> {
    var bits := Split(s, '.');
    if |bits| != 4 then None
    else
      match (ParseOctet(bits[0]), ParseOctet(bits[1]), ParseOctet(bits[2]), ParseOctet(bits[3]))
      case (Some(a), Some(b), Some(c), Some(d)) => Some(Octets(a, b, c, d))
      case _ => None
  }

  datatype Block = Block(net: Octets, prefix: nat)

  function ParseCidr(s: string): Option<Block> {
    var addr := Split(s, '/')[0];
    if |addr| == |s| then None
    else
      match (ParseIPv4(addr), ParseNat(s[|addr| + 1..]))
      case (Some(net), Some(prefix)) => if prefix > 32 then None else Some(Block(net, prefix))
      case _ => None
  }

  /** How many bits of the k-th octet a prefix covers. */
  function Covered(prefix: nat, k: nat): (q: nat)
    ensures q <= 8
  {
    if prefix <= 8 * k then 0 else if prefix >= 8 * k + 8 then 8 else prefix - 8 * k
  }

  /** Two to the number of bits left free in an octet. */
  function Free(q: nat): (s: nat)
    requires q <= 8
    ensures 1 <= s <= 256
  {
    if q == 0 then 256 else if q == 1 then 128 else if q == 2 then 64 else if q == 3 then 32 else if q == 4 then 16
    else if q == 5 then 8 else if q == 6 then 4 else if q == 7 then 2 else 1
  }

  /** The octet with the free bits cleared: a bitwise "and" with q leading ones (MaskIsBitwiseAnd). */
  function Masked(x: Octet, q: nat): Octet
    requires q <= 8
  {
    x / Free(q) * Free(q)
  }

  lemma MaskZeroIsBitwiseAnd(x: bv8)
    ensures Masked(x as int, 0) == (x & 0x00) as int
  {}

  lemma MaskOneIsBitwiseAnd(x: bv8)
    ensures Masked(x as int, 1) == (x & 0x80) as int
  {}

  lemma MaskTwoIsBitwiseAnd(x: bv8)
    ensures Masked(x as int, 2) == (x & 0xC0) as int
  {}

  lemma MaskThreeIsBitwiseAnd(x: bv8)
    ensures Masked(x as int, 3) == (x & 0xE0) as int
  {}

  lemma MaskFourIsBitwiseAnd(x: bv8)
    ensures Masked(x as int, 4) == (x & 0xF0) as int
  {}

  lemma MaskFiveIsBitwiseAnd(x: bv8)
    ensures Masked(x as int, 5) == (x & 0xF8) as int
  {}

  lemma MaskSixIsBitwiseAnd(x: bv8)
    ensures Masked(x as int, 6) == (x & 0xFC) as int
  {
    var masked := (x & 0xFC) as int;
    assert masked <= x as int < masked + 4;
    assert masked % 4 == 0;
  }

  lemma MaskSevenIsBitwiseAnd(x: bv8)
    ensures Masked(x as int, 7) == (x & 0xFE) as int
  {
    var masked := (x & 0xFE) as int;
    assert masked <= x as int < masked + 2;
    assert masked % 2 == 0;
  }

  /** The mask with this many leading ones. */
  function Mask(q: nat): bv8
    requires q <= 8
  {
    match q
    case 0 => 0x00
    case 1 => 0x80
    case 2 => 0xC0
    case 3 => 0xE0
    case 4 => 0xF0
    case 5 => 0xF8
    case 6 => 0xFC
    case 7 => 0xFE
    case _ => 0xFF
  }

  lemma MaskIsBitwiseAnd(x: bv8, q: nat)
    requires q <= 8
    ensures Masked(x as int, q) == (x & Mask(q)) as int
  {
    match q
    case 0 => MaskZeroIsBitwiseAnd(x);
    case 1 => MaskOneIsBitwiseAnd(x);
    case 2 => MaskTwoIsBitwiseAnd(x);
    case 3 => MaskThreeIsBitwiseAnd(x);
    case 4 => MaskFourIsBitwiseAnd(x);
    case 5 => MaskFiveIsBitwiseAnd(x);
    case 6 => MaskSixIsBitwiseAnd(x);
    case 7 => MaskSevenIsBitwiseAnd(x);
    case _ =>
      assert x & 0xFF == x;
  }

  predicate Contains(block: Block, ip: Octets) {
    && Masked(ip.a, Covered(block.prefix, 0)) == Masked(block.net.a, Covered(block.prefix, 0))
    && Masked(ip.b, Covered(block.prefix, 1)) == Masked(block.net.b, Covered(block.prefix, 1))
    && Masked(ip.c, Covered(block.prefix, 2)) == Masked(block.net.c, Covered(block.prefix, 2))
    && Masked(ip.d, Covered(block.prefix, 3)) == Masked(block.net.d, Covered(block.prefix, 3))
  }

  function High(x: Octet, q: nat): Octet
    requires q <= 8
  {
    MaskedRange(x, x, q);
    Masked(x, q) + Free(q) - 1
  }

  lemma MaskedRange(x: Octet, y: Octet, q: nat)
    requires q <= 8
    ensures Masked(x, q) == Masked(y, q) <==> Masked(y, q) <= x <= Masked(y, q) + Free(q) - 1
    ensures Masked(y, q) + Free(q) - 1 < 256
    ensures q == 8 ==> Masked(y, q) == y
    ensures q == 0 ==> Masked(y, q) == 0
  {
    SameMultiple(x, y, Free(q));
    LastMultiple(y, q);
  }

  lemma LastMultiple(y: Octet, q: nat)
    requires q <= 8
    ensures Masked(y, q) + Free(q) - 1 < 256
  {}

  lemma SameMultiple(x: int, y: int, s: int)
    requires s > 0
    ensures x / s * s == y / s * s <==> y / s * s <= x <= y / s * s + s - 1
  {
    if y / s * s <= x <= y / s * s + s - 1 {
      Quotient(x, y / s, s);
    }
    assert x / s * s == y / s * s ==> x / s * s <= x < x / s * s + s;
  }

  lemma Quotient(x: int, m: int, s: int)
    requires s > 0 && m * s <= x < m * s + s
    ensures x / s == m
  {
    var d := x / s;
    assert d * s <= x < d * s + s;
    if d < m {
      NextMultiple(d, m, s);
      assert false;
    } else if d > m {
      NextMultiple(m, d, s);
      assert false;
    }
  }

  lemma NextMultiple(a: int, b: int, s: int)
    requires a < b && s > 0
    ensures a * s + s <= b * s
  {
    var d := b - a - 1;
    assert b * s == a * s + s + d * s;
    if d > 0 {
      assert d * s > 0;
    }
  }

  function First(block: Block): Octets {
    var n, p := block.net, block.prefix;
    Octets(Masked(n.a, Covered(p, 0)), Masked(n.b, Covered(p, 1)), Masked(n.c, Covered(p, 2)),
           Masked(n.d, Covered(p, 3)))
  }

  function Last(block: Block): Octets {
    var n, p := block.net, block.prefix;
    Octets(High(n.a, Covered(p, 0)), High(n.b, Covered(p, 1)), High(n.c, Covered(p, 2)), High(n.d, Covered(p, 3)))
  }

  predicate Within(lo: Octets, hi: Octets, ip: Octets) {
    lo.a <= ip.a <= hi.a && lo.b <= ip.b <= hi.b && lo.c <= ip.c <= hi.c && lo.d <= ip.d <= hi.d
  }

  /** The bounds agree in the octets the prefix covers, and span everything in those it does not touch. */
  predicate Shape(lo: Octets, hi: Octets, p: nat) {
    && lo.a <= hi.a && lo.b <= hi.b && lo.c <= hi.c && lo.d <= hi.d
    && (p >= 8 ==> lo.a == hi.a) && (p >= 16 ==> lo.b == hi.b) && (p >= 24 ==> lo.c == hi.c)
    && (p <= 8 ==> lo.b == 0 && hi.b == 255) && (p <= 16 ==> lo.c == 0 && hi.c == 255)
    && (p <= 24 ==> lo.d == 0 && hi.d == 255)
  }

  lemma BlockBox(block: Block, ip: Octets)
    requires block.prefix <= 32
    ensures Contains(block, ip) <==> Within(First(block), Last(block), ip)
    ensures Shape(First(block), Last(block), block.prefix)
  {
    var n, p := block.net, block.prefix;
    MaskedRange(ip.a, n.a, Covered(p, 0));
    MaskedRange(ip.b, n.b, Covered(p, 1));
    MaskedRange(ip.c, n.c, Covered(p, 2));
    MaskedRange(ip.d, n.d, Covered(p, 3));
  }

  lemma Box(lo: Octets, hi: Octets, ip: Octets, p: nat)
    requires Shape(lo, hi, p)
    ensures Within(lo, hi, ip) <==> Value(lo) <= Value(ip) <= Value(hi)
  {
    if p <= 8 {
      Leading(lo.a, hi.a, ip.a, 0, 0xFFFFFF, ip.b * 0x10000 + ip.c * 0x100 + ip.d, 0x1000000);
    } else {
      Leading(lo.a, hi.a, ip.a, lo.b * 0x10000 + lo.c * 0x100 + lo.d, hi.b * 0x10000 + hi.c * 0x100 + hi.d,
              ip.b * 0x10000 + ip.c * 0x100 + ip.d, 0x1000000);
      if p <= 16 {
        Leading(lo.b, hi.b, ip.b, 0, 0xFFFF, ip.c * 0x100 + ip.d, 0x10000);
      } else {
        Leading(lo.b, hi.b, ip.b, lo.c * 0x100 + lo.d, hi.c * 0x100 + hi.d, ip.c * 0x100 + ip.d, 0x10000);
        if p <= 24 {
          Leading(lo.c, hi.c, ip.c, 0, 0xFF, ip.d, 0x100);
        } else {
          Leading(lo.c, hi.c, ip.c, lo.d, hi.d, ip.d, 0x100);
        }
      }
    }
  }

  /** A leading digit whose bounds agree must be that digit; with free digits below it only its own bounds
      count. */
  lemma Leading(lo: int, hi: int, x: int, lo': int, hi': int, x': int, base: int)
    requires base in {0x100, 0x10000, 0x1000000} && lo <= hi
    requires 0 <= lo' < base && 0 <= hi' < base && 0 <= x' < base
    requires lo == hi || (lo' == 0 && hi' == base - 1)
    ensures lo * base + lo' <= x * base + x' <= hi * base + hi' <==>
      lo <= x <= hi && (lo == hi ==> lo' <= x' <= hi')
  {}

  /** Masking is a range of integers. */
  lemma ContainsRange(block: Block, ip: Octets)
    requires block.prefix <= 32
    ensures Contains(block, ip) <==> Value(First(block)) <= Value(ip) <= Value(Last(block))
  {
    BlockBox(block, ip);
    Box(First(block), Last(block), ip, block.prefix);
  }

  // ---------- one group against one client ----------

  predicate MatchGroup(group: string, clientIp: string) {
    if '/' in group then MatchCidr(group, clientIp)
    else if '-' in group then
      var split := Split(group, '-');
      |split| >= 2 && IpToInt(split[0]) <= IpToInt(clientIp) <= IpToInt(split[1])
    else group == clientIp
  }

  /** Some group of a list accepts the client. */
  predicate AnyGroup(groups: seq<string>, clientIp: string) {
    exists g :: g in groups && MatchGroup(g, clientIp)
  }

  /** The comment beside a policy's address list has this text match everything; it matches itself. */
  lemma ZerosMatchThemselves(clientIp: string)
    ensures MatchGroup("0.0.0.0", clientIp) <==> clientIp == "0.0.0.0"
  {
    assert "0.0.0.0" == ['0', '.', '0', '.', '0', '.', '0'];
  }

  predicate MatchCidr(group: string, clientIp: string) {
    match (ParseCidr(group), ParseIPv4(clientIp))
    case (Some(block), Some(ip)) => Contains(block, ip)
    case _ => false
  }

  lemma ParseOctetItoa(x: Octet)
    ensures ParseOctet(Itoa(x)) == Some(x)
  {}

  lemma ParseDotted(o: Octets)
    ensures ParseIPv4(Dotted(o)) == Some(o)
  {
    SplitDotted(o);
    ParseOctetItoa(o.a);
    ParseOctetItoa(o.b);
    ParseOctetItoa(o.c);
    ParseOctetItoa(o.d);
  }

  lemma CidrText(addr: string, prefix: nat)
    requires '/' !in addr && ParseIPv4(addr).Some? && prefix <= 32
    ensures ParseCidr(addr + "/" + Itoa(prefix)) == Some(Block(ParseIPv4(addr).value, prefix))
    ensures '/' in addr + "/" + Itoa(prefix)
  {
    var mask := Itoa(prefix);
    var group := addr + ['/'] + mask;
    assert group == addr + "/" + mask;
    SplitFirst(addr, '/', mask);
    assert group[|addr| + 1..] == mask;
    ParseItoa(prefix);
  }

  lemma CidrGroup(block: Block, ip: Octets)
    requires block.prefix <= 32
    ensures MatchGroup(Dotted(block.net) + "/" + Itoa(block.prefix), Dotted(ip)) <==> Contains(block, ip)
  {
    SplitDotted(block.net);
    ParseDotted(block.net);
    ParseDotted(ip);
    CidrText(Dotted(block.net), block.prefix);
  }

  lemma RangeText(lo: string, hi: string)
    requires '-' !in lo && '/' !in lo && '-' !in hi && '/' !in hi
    ensures Split(lo + "-" + hi, '-') == [lo, hi]
    ensures '-' in lo + "-" + hi && '/' !in lo + "-" + hi
  {
    assert lo + "-" + hi == lo + ['-'] + hi;
    SplitFirst(lo, '-', hi);
    SplitWithoutSeparator(hi, '-');
  }

  lemma RangeGroup(lo: Octets, hi: Octets, ip: Octets)
    ensures MatchGroup(Dotted(lo) + "-" + Dotted(hi), Dotted(ip)) <==> Value(lo) <= Value(ip) <= Value(hi)
  {
    SplitDotted(lo);
    SplitDotted(hi);
    RangeText(Dotted(lo), Dotted(hi));
    IpToIntDotted(lo);
    IpToIntDotted(hi);
    IpToIntDotted(ip);
  }

  /** A CIDR group and the range group from its first to its last address accept the same clients. */
  lemma CidrEqualsRange(block: Block, ip: Octets)
    requires block.prefix <= 32
    ensures
      MatchGroup(Dotted(block.net) + "/" + Itoa(block.prefix), Dotted(ip))
      <==> MatchGroup(Dotted(First(block)) + "-" + Dotted(Last(block)), Dotted(ip))
  {
    CidrGroup(block, ip);
    RangeGroup(First(block), Last(block), ip);
    ContainsRange(block, ip);
  }
}
