/** Comma-separated lists of addresses, ranges and blocks: what they mean, and what a reader makes of one that
    takes the whole text for a single group. */
module AddressLists {
  import opened Wrappers
  import opened Text
  import opened IpGroups

  datatype Item =
    | Address(o: Octets)
    | Range(low: Octets, high: Octets)
    | InBlock(block: Block)

  predicate Valid(item: Item) {
    item.InBlock? ==> item.block.prefix <= 32
  }

  function Show(item: Item): string {
    match item
    case Address(o) => Dotted(o)
    case Range(low, high) => Dotted(low) + "-" + Dotted(high)
    case InBlock(block) => Dotted(block.net) + "/" + Itoa(block.prefix)
  }

  function ShowAll(items: seq<Item>): (texts: seq<string>)
    ensures |texts| == |items| && forall k :: 0 <= k < |items| ==> texts[k] == Show(items[k])
  {
    seq(|items|, k requires 0 <= k < |items| => Show(items[k]))
  }

  function Listed(items: seq<Item>): string {
    Join(ShowAll(items), ",")
  }

  predicate Accepts(item: Item, ip: Octets)
    requires Valid(item)
  {
    match item
    case Address(o) => o == ip
    case Range(low, high) => Value(low) <= Value(ip) <= Value(high)
    case InBlock(block) => Contains(block, ip)
  }

  // ---------- one item ----------

  lemma DottedChars(o: Octets)
    ensures Dotted(o) != "" && forall c :: c in Dotted(o) ==> IsDigit(c) || c == '.'
  {
    SplitDotted(o);
  }

  lemma DottedInjective(o: Octets, p: Octets)
    requires Dotted(o) == Dotted(p)
    ensures o == p
  {
    ParseDotted(o);
    ParseDotted(p);
  }

  lemma ItemMatches(item: Item, ip: Octets)
    requires Valid(item)
    ensures MatchGroup(Show(item), Dotted(ip)) <==> Accepts(item, ip)
  {
    match item
    case Address(o) =>
      DottedChars(o);
      if Dotted(o) == Dotted(ip) {
        DottedInjective(o, ip);
      }
    case Range(low, high) => RangeGroup(low, high, ip);
    case InBlock(block) => CidrGroup(block, ip);
  }

  lemma ShowChars(item: Item)
    ensures ',' !in Show(item)
    ensures '/' in Show(item) <==> item.InBlock?
    ensures '-' in Show(item) <==> item.Range?
  {
    match item
    case Address(o) => DottedChars(o);
    case Range(low, high) =>
      DottedChars(low);
      DottedChars(high);
    case InBlock(block) => DottedChars(block.net);
  }

  // ---------- reading the items one by one ----------

  lemma SplitListed(items: seq<Item>)
    requires items != []
    ensures Split(Listed(items), ',') == ShowAll(items)
  {
    forall k | 0 <= k < |items| ensures ',' !in ShowAll(items)[k] {
      ShowChars(items[k]);
    }
    SplitJoin(ShowAll(items), ',');
  }

  ghost predicate SomeAccepts(items: seq<Item>, ip: Octets)
    requires forall k :: 0 <= k < |items| ==> Valid(items[k])
  {
    exists k :: 0 <= k < |items| && Accepts(items[k], ip)
  }

  /** Split at its commas, a list accepts whom one of its items accepts. */
  lemma SplitReading(items: seq<Item>, ip: Octets)
    requires items != [] && forall k :: 0 <= k < |items| ==> Valid(items[k])
    ensures AnyGroup(Split(Listed(items), ','), Dotted(ip)) <==> SomeAccepts(items, ip)
  {
    SplitListed(items);
    forall k | 0 <= k < |items| ensures MatchGroup(ShowAll(items)[k], Dotted(ip)) <==> Accepts(items[k], ip) {
      ItemMatches(items[k], ip);
    }
    if SomeAccepts(items, ip) {
      var k :| 0 <= k < |items| && Accepts(items[k], ip);
      assert ShowAll(items)[k] in ShowAll(items);
    }
  }

  // ---------- reading the list as one group ----------

  /** The address with its last octet cleared. */
  function Cleared(o: Octets): Octets {
    o.(d := 0)
  }

  function FirstRange(items: seq<Item>): (k: nat)
    ensures k <= |items| && (forall j :: 0 <= j < k ==> !items[j].Range?) && (k < |items| ==> items[k].Range?)
  {
    if items == [] || items[0].Range? then 0
    else
      var k := FirstRange(items[1..]);
      assert forall j :: 1 <= j < k + 1 ==> items[j] == items[1..][j - 1];
      k + 1
  }

  predicate NoBlock(items: seq<Item>) {
    forall k :: 0 <= k < |items| ==> !items[k].InBlock?
  }

  /** Taken for one group, a list of two items or more accepts nobody if it holds a block or no range. Else it is
      one range from the list's first address to the high end of the first range; an end at which the text
      holds a comma loses its last octet. */
  predicate WholeAccepts(items: seq<Item>, ip: Octets)
    requires items != [] && forall k :: 0 <= k < |items| ==> Valid(items[k])
  {
    if |items| == 1 then Accepts(items[0], ip)
    else if !NoBlock(items) || FirstRange(items) == |items| then false
    else WholeLow(items) <= Value(ip) <= WholeHigh(items)
  }

  function WholeLow(items: seq<Item>): int
    requires NoBlock(items) && FirstRange(items) < |items|
  {
    if FirstRange(items) == 0 then Value(items[0].low) else Value(Cleared(items[0].o))
  }

  function WholeHigh(items: seq<Item>): int
    requires FirstRange(items) < |items|
  {
    var k := FirstRange(items);
    if k == |items| - 1 then Value(items[k].high) else Value(Cleared(items[k].high))
  }

  lemma {:induction false} JoinHasPart(texts: seq<string>, k: nat, c: char)
    requires k < |texts| && c in texts[k]
    ensures c in Join(texts, ",")
  {
    if |texts| == 1 {
    } else if k > 0 {
      JoinHasPart(texts[1..], k - 1, c);
    }
  }

  lemma {:induction false} JoinHasOnly(texts: seq<string>, c: char)
    requires c != ',' && forall k :: 0 <= k < |texts| ==> c !in texts[k]
    ensures c !in Join(texts, ",")
  {
    if |texts| <= 1 {
    } else {
      JoinHasOnly(texts[1..], c);
    }
  }

  lemma {:induction false} SplitHolds(s: string, sep: char, c: char)
    requires c in s && c != sep
    ensures exists k :: 0 <= k < |Split(s, sep)| && c in Split(s, sep)[k]
  {
    var rest := Split(s[1..], sep);
    var all := Split(s, sep);
    if s[0] == c {
      assert c in all[0];
    } else {
      assert s == [s[0]] + s[1..];
      SplitHolds(s[1..], sep, c);
      var k :| 0 <= k < |rest| && c in rest[k];
      if s[0] == sep {
        assert all[k + 1] == rest[k];
      } else if k == 0 {
        assert all[0] == [s[0]] + rest[0];
      } else {
        assert all[k] == rest[k];
      }
    }
  }

  lemma CommaIsNoAddress(addr: string)
    requires ',' in addr
    ensures ParseIPv4(addr) == None
  {
    SplitHolds(addr, '.', ',');
    var bits := Split(addr, '.');
    var k :| 0 <= k < |bits| && ',' in bits[k];
    assert ParseNat(bits[k]) == None;
  }

  /** A text with a comma is no block. */
  lemma CommaIsNoBlock(text: string)
    requires ',' in text
    ensures ParseCidr(text) == None
  {
    SplitHead(text, '/');
    var addr := Split(text, '/')[0];
    if '/' in text {
      var mask := text[|addr| + 1..];
      assert text == addr + ['/'] + mask;
      if ',' in addr {
        CommaIsNoAddress(addr);
      } else {
        assert ',' in mask && ParseNat(mask) == None;
      }
    } else {
      SplitWithoutSeparator(text, '/');
    }
  }

  lemma {:induction false} SplitHead(s: string, sep: char)
    ensures var head := Split(s, sep)[0];
            sep !in head && head <= s && (sep in s ==> |head| < |s| && s[|head|] == sep)
  {
    if s == "" {
    } else if s[0] != sep {
      SplitHead(s[1..], sep);
      HeadInFront(s[0], Split(s[1..], sep)[0], s[1..], sep);
      assert s == [s[0]] + s[1..];
    }
  }

  lemma HeadInFront(c: char, head: string, rest: string, sep: char)
    requires c != sep && sep !in head && head <= rest
    requires sep in rest ==> |head| < |rest| && rest[|head|] == sep
    ensures var h, s := [c] + head, [c] + rest;
            sep !in h && h <= s && (sep in s ==> |h| < |s| && s[|h|] == sep)
  {
    assert rest == head + rest[|head|..];
  }

  lemma {:induction false} SplitStart(u: string, v: string, sep: char)
    requires sep !in u
    ensures Split(u + v, sep)[0] == u + Split(v, sep)[0]
    ensures |Split(u + v, sep)| == |Split(v, sep)|
  {
    if u == "" {
      assert u + v == v;
    } else {
      assert (u + v)[1..] == u[1..] + v;
      SplitStart(u[1..], v, sep);
    }
  }

  lemma DottedText(a: string, b: string, c: string, d: string)
    ensures Join([a, b, c, d], ".") == a + "." + (b + "." + (c + "." + d))
  {
    assert Join([d], ".") == d;
    assert [c, d][1..] == [d] && Join([c, d], ".") == c + "." + d;
    assert [b, c, d][1..] == [c, d] && Join([b, c, d], ".") == b + "." + Join([c, d], ".");
    assert [a, b, c, d][1..] == [b, c, d];
  }

  lemma SplitThree(a: string, b: string, c: string, tail: string)
    requires '.' !in a && '.' !in b && '.' !in c
    ensures Split(a + "." + (b + "." + (c + "." + tail)), '.') == [a, b, c] + Split(tail, '.')
  {
    assert a + "." + (b + "." + (c + "." + tail)) == a + ['.'] + (b + ['.'] + (c + ['.'] + tail));
    SplitFirst(a, '.', b + ['.'] + (c + ['.'] + tail));
    SplitFirst(b, '.', c + ['.'] + tail);
    SplitFirst(c, '.', tail);
    assert [a] + ([b] + ([c] + Split(tail, '.'))) == [a, b, c] + Split(tail, '.');
  }

  /** An octet with a comma and more text behind it reads as zero. */
  lemma CommaOctet(d: string, more: string)
    requires d != "" && forall c :: c in d ==> IsDigit(c)
    ensures StringToInt(Split(d + ("," + more), '.')[0]) == 0
  {
    SplitStart(d, "," + more, '.');
    SplitStart(",", more, '.');
    var octet := Split(d + ("," + more), '.')[0];
    assert octet == d + ("," + Split(more, '.')[0]);
    assert octet[|d|] == ',' && IsDigit(octet[0]);
    assert ',' in octet && !IsDigit(',');
  }

  /** A dotted address with a comma and more text behind it loses its last octet. */
  lemma ClearedByComma(o: Octets, more: string)
    ensures IpToInt(Dotted(o) + ("," + more)) == Value(Cleared(o))
  {
    var a, b, c, d := Itoa(o.a), Itoa(o.b), Itoa(o.c), Itoa(o.d);
    var tail := d + ("," + more);
    DottedText(a, b, c, d);
    Regroup(a, b, c, d, "," + more);
    SplitThree(a, b, c, tail);
    CommaOctet(d, more);
    StringToIntItoa(o.a);
    StringToIntItoa(o.b);
    StringToIntItoa(o.c);
    FourOctets(Dotted(o) + ("," + more), [a, b, c] + Split(tail, '.'), Cleared(o));
  }

  lemma Regroup(a: string, b: string, c: string, d: string, rest: string)
    ensures a + "." + (b + "." + (c + "." + d)) + rest == a + "." + (b + "." + (c + "." + (d + rest)))
  {}

  lemma FourOctets(text: string, bits: seq<string>, o: Octets)
    requires text != "" && Split(text, '.') == bits && |bits| >= 4
    requires StringToInt(bits[0]) == o.a && StringToInt(bits[1]) == o.b && StringToInt(bits[2]) == o.c
    requires StringToInt(bits[3]) == o.d
    ensures IpToInt(text) == Value(o)
  {}

  lemma {:induction false} JoinConcat(xs: seq<string>, ys: seq<string>)
    requires xs != [] && ys != []
    ensures Join(xs + ys, ",") == Join(xs, ",") + ("," + Join(ys, ","))
  {
    if |xs| == 1 {
      assert (xs + ys)[1..] == ys;
    } else {
      assert (xs + ys)[1..] == xs[1..] + ys;
      JoinConcat(xs[1..], ys);
      assert xs[0] + "," + (Join(xs[1..], ",") + ("," + Join(ys, ",")))
          == xs[0] + "," + Join(xs[1..], ",") + ("," + Join(ys, ","));
    }
  }

  function Front(texts: seq<string>, k: nat): string
    requires k <= |texts|
  {
    if k == 0 then "" else Join(texts[..k], ",") + ","
  }

  function Back(texts: seq<string>, k: nat): string
    requires k < |texts|
  {
    if k == |texts| - 1 then "" else "," + Join(texts[k + 1..], ",")
  }

  lemma Associate(a: string, b: string, c: string)
    ensures a + (b + c) == a + b + c
  {}

  lemma JoinFrom(texts: seq<string>, k: nat)
    requires k < |texts|
    ensures Join(texts[k..], ",") == texts[k] + Back(texts, k)
  {
    var x := texts[k];
    if k == |texts| - 1 {
      assert texts[k..] == [x] && x + "" == x;
    } else {
      assert texts[k..] == [x] + texts[k + 1..];
      JoinConcat([x], texts[k + 1..]);
    }
  }

  lemma JoinAround(texts: seq<string>, k: nat)
    requires k < |texts|
    ensures Join(texts, ",") == Front(texts, k) + (texts[k] + Back(texts, k))
  {
    JoinFrom(texts, k);
    var rest := Join(texts[k..], ",");
    if k == 0 {
      assert texts[k..] == texts && "" + rest == rest;
    } else {
      assert texts == texts[..k] + texts[k..];
      JoinConcat(texts[..k], texts[k..]);
      Associate(Join(texts[..k], ","), ",", rest);
    }
  }

  lemma RegroupDash(front: string, low: string, high: string, back: string)
    ensures front + (low + "-" + high + back) == front + low + ['-'] + (high + back)
  {}

  /** The text up to the first range's dash and the text behind it. */
  function BeforeDash(items: seq<Item>): string
    requires FirstRange(items) < |items|
  {
    Front(ShowAll(items), FirstRange(items)) + Dotted(items[FirstRange(items)].low)
  }

  function Following(items: seq<Item>): string
    requires FirstRange(items) < |items|
  {
    Back(ShowAll(items), FirstRange(items))
  }

  lemma ListedAtRange(items: seq<Item>)
    requires FirstRange(items) < |items|
    ensures Listed(items)
         == BeforeDash(items) + ['-'] + (Dotted(items[FirstRange(items)].high) + Following(items))
  {
    var k := FirstRange(items);
    JoinAround(ShowAll(items), k);
    RegroupDash(Front(ShowAll(items), k), Dotted(items[k].low), Dotted(items[k].high), Back(ShowAll(items), k));
  }

  lemma BeforeDashValue(items: seq<Item>)
    requires NoBlock(items) && FirstRange(items) < |items|
    ensures '-' !in BeforeDash(items) && IpToInt(BeforeDash(items)) == WholeLow(items)
  {
    var k := FirstRange(items);
    var low := Dotted(items[k].low);
    NoDashInFront(items);
    if k == 0 {
      EmptyFront(low);
      IpToIntDotted(items[k].low);
    } else {
      var front := ShowAll(items)[..k];
      assert front[0] == Show(items[0]) == Dotted(items[0].o);
      var more := FrontText(front, low);
      ClearedByComma(items[0].o, more);
    }
  }

  lemma FrontHasNo(texts: seq<string>, k: nat, last: string, c: char)
    requires k <= |texts| && c != ',' && c !in last && forall j :: 0 <= j < k ==> c !in texts[j]
    ensures c !in Front(texts, k) + last
  {
    if k > 0 {
      JoinHasOnly(texts[..k], c);
    }
  }

  lemma NoDashInFront(items: seq<Item>)
    requires FirstRange(items) < |items|
    ensures '-' !in BeforeDash(items)
  {
    var k := FirstRange(items);
    var low := Dotted(items[k].low);
    assert '-' !in low by {
      DottedChars(items[k].low);
    }
    forall j | 0 <= j < k ensures '-' !in ShowAll(items)[j] {
      ShowChars(items[j]);
    }
    FrontHasNo(ShowAll(items), k, low, '-');
  }

  lemma EmptyFront(s: string)
    ensures "" + s == s
  {}

  lemma FrontText(front: seq<string>, low: string) returns (more: string)
    requires front != []
    ensures Join(front, ",") + "," + low == front[0] + ("," + more)
  {
    if |front| == 1 {
      more := low;
    } else {
      more := Join(front[1..], ",") + "," + low;
    }
  }

  /** The text behind the dash up to the next one. */
  lemma BackPiece(high: string, texts: seq<string>, k: nat) returns (more: string)
    requires '-' !in high && k < |texts|
    ensures k == |texts| - 1 ==> Split(high + Back(texts, k), '-')[0] == high
    ensures k < |texts| - 1 ==> Split(high + Back(texts, k), '-')[0] == high + ("," + more)
  {
    if k == |texts| - 1 {
      more := "";
      assert high + "" == high;
      SplitWithoutSeparator(high, '-');
    } else {
      var rest := Join(texts[k + 1..], ",");
      more := Split(rest, '-')[0];
      SplitStart(high, "," + rest, '-');
      SplitStart(",", rest, '-');
    }
  }

  lemma BehindDashValue(items: seq<Item>)
    requires FirstRange(items) < |items|
    ensures IpToInt(Split(Dotted(items[FirstRange(items)].high) + Following(items), '-')[0]) == WholeHigh(items)
  {
    var k := FirstRange(items);
    var high := items[k].high;
    DottedChars(high);
    var more := BackPiece(Dotted(high), ShowAll(items), k);
    IpToIntDotted(high);
    ClearedByComma(high, more);
  }

  /** The whole text as one group. */
  lemma WholeReading(items: seq<Item>, ip: Octets)
    requires items != [] && forall k :: 0 <= k < |items| ==> Valid(items[k])
    ensures MatchGroup(Listed(items), Dotted(ip)) <==> WholeAccepts(items, ip)
  {
    if |items| == 1 {
      assert Listed(items) == Show(items[0]);
      ItemMatches(items[0], ip);
    } else {
      assert ',' in Listed(items);
      if !NoBlock(items) {
        BlockInList(items);
        CommaIsNoBlock(Listed(items));
      } else {
        NoSlash(items);
        if FirstRange(items) == |items| {
          NoDash(items);
          DottedChars(ip);
        } else {
          RangeInList(items, ip);
        }
      }
    }
  }

  lemma BlockInList(items: seq<Item>)
    requires !NoBlock(items)
    ensures '/' in Listed(items)
  {
    var k :| 0 <= k < |items| && items[k].InBlock?;
    ShowChars(items[k]);
    JoinHasPart(ShowAll(items), k, '/');
  }

  lemma NoSlash(items: seq<Item>)
    requires NoBlock(items)
    ensures '/' !in Listed(items)
  {
    forall k | 0 <= k < |items| ensures '/' !in ShowAll(items)[k] {
      ShowChars(items[k]);
    }
    JoinHasOnly(ShowAll(items), '/');
  }

  lemma NoDash(items: seq<Item>)
    requires FirstRange(items) == |items|
    ensures '-' !in Listed(items)
  {
    forall k | 0 <= k < |items| ensures '-' !in ShowAll(items)[k] {
      ShowChars(items[k]);
    }
    JoinHasOnly(ShowAll(items), '-');
  }

  lemma MatchRange(front: string, back: string, clientIp: string)
    requires '-' !in front && '/' !in front + ['-'] + back
    ensures MatchGroup(front + ['-'] + back, clientIp)
            <==> IpToInt(front) <= IpToInt(clientIp) <= IpToInt(Split(back, '-')[0])
  {
    var text := front + ['-'] + back;
    SplitFirst(front, '-', back);
    assert text[|front|] == '-';
    assert Split(text, '-')[1] == Split(back, '-')[0];
  }

  lemma RangeInList(items: seq<Item>, ip: Octets)
    requires NoBlock(items) && FirstRange(items) < |items|
    ensures MatchGroup(Listed(items), Dotted(ip)) <==> WholeLow(items) <= Value(ip) <= WholeHigh(items)
  {
    var back := Dotted(items[FirstRange(items)].high) + Following(items);
    NoSlash(items);
    ListedAtRange(items);
    BeforeDashValue(items);
    BehindDashValue(items);
    IpToIntDotted(ip);
    MatchRange(BeforeDash(items), back, Dotted(ip));
  }
}
