/** Prioritised allow/reject rules: the in-memory rule manager, the SSH server's first-match scan over it, the
    web server's last-match scan over it, and the login policy's last-match scans over the database's list.
    A smaller number is a higher priority. */
module AccessRules {
  import opened Wrappers
  import opened Text
  import AddressLists
  import IpGroups
  import Signing

  const ALLOW := "allow"
  const REJECT := "reject"

  // ---------- the verdict that priorities call for ----------

  /** What a scan sees of one rule for one request. */
  datatype Entry = Entry(priority: int, matches: bool, allow: bool)

  /** A matching entry with the smallest number. */
  ghost predicate Lowest(es: set<Entry>, e: Entry) {
    e in es && e.matches && forall e' :: e' in es && e'.matches ==> e.priority <= e'.priority
  }

  /** A matching entry with the largest number. */
  ghost predicate Highest(es: set<Entry>, e: Entry) {
    e in es && e.matches && forall e' :: e' in es && e'.matches ==> e'.priority <= e.priority
  }

  ghost predicate NoneMatches(es: set<Entry>) {
    forall e :: e in es ==> !e.matches
  }

  /** The verdict is that of a matching entry with the smallest number, and to let through when none matches. */
  ghost predicate Decided(es: set<Entry>, pass: bool) {
    (NoneMatches(es) && pass) || exists e :: Lowest(es, e) && e.allow == pass
  }

  ghost predicate DecidedByHighest(es: set<Entry>, pass: bool) {
    (NoneMatches(es) && pass) || exists e :: Highest(es, e) && e.allow == pass
  }

  /** Entries with the same number give the same verdict, as when all numbers differ. */
  ghost predicate Distinct(es: set<Entry>) {
    forall x, y :: x in es && y in es && x.matches && y.matches && x.priority == y.priority ==> x == y
  }

  /** With distinct numbers the verdict is a function of the set of rules: the order in which they were stored
      or listed does not matter. */
  lemma DecidedUnique(es: set<Entry>, p: bool, q: bool)
    requires Distinct(es) && Decided(es, p) && Decided(es, q)
    ensures p == q
  {}

  /** The verdict of the largest number is the one priorities call for exactly when the two extreme matching
      entries say the same. */
  lemma HighestExactly(es: set<Entry>, low: Entry, high: Entry, p: bool, q: bool)
    requires Distinct(es) && Lowest(es, low) && Highest(es, high)
    requires Decided(es, p) && DecidedByHighest(es, q)
    ensures p == q <==> low.allow == high.allow
  {}

  // ---------- scans over a list ----------

  function FirstVerdict(es: seq<Entry>): bool {
    if es == [] then true
    else if es[0].matches then es[0].allow
    else FirstVerdict(es[1..])
  }

  function LastVerdict(es: seq<Entry>): bool {
    if es == [] then true
    else if es[|es| - 1].matches then es[|es| - 1].allow
    else LastVerdict(es[..|es| - 1])
  }

  function Reversed(es: seq<Entry>): seq<Entry> {
    if es == [] then [] else Reversed(es[1..]) + [es[0]]
  }

  function Members(es: seq<Entry>): set<Entry> {
    set e | e in es
  }

  predicate Ascending(es: seq<Entry>) {
    forall i, j :: 0 <= i < j < |es| ==> es[i].priority <= es[j].priority
  }

  predicate Descending(es: seq<Entry>) {
    forall i, j :: 0 <= i < j < |es| ==> es[i].priority >= es[j].priority
  }

  /** The last match of a list is the first match of the reversed list. */
  lemma {:induction false} LastIsFirstReversed(es: seq<Entry>)
    ensures LastVerdict(Reversed(es)) == FirstVerdict(es)
  {
    if es == [] {
    } else {
      LastIsFirstReversed(es[1..]);
      assert Reversed(es)[..|Reversed(es)| - 1] == Reversed(es[1..]);
    }
  }

  lemma {:induction false} FirstDecides(es: seq<Entry>)
    requires Ascending(es)
    ensures Decided(Members(es), FirstVerdict(es))
  {
    if es == [] {
    } else {
      if es[0].matches {
        assert Lowest(Members(es), es[0]);
      } else {
        FirstDecides(es[1..]);
        Extended(es[1..], es[0], es, FirstVerdict(es));
      }
    }
  }

  lemma {:induction false} LastDecides(es: seq<Entry>)
    requires Descending(es)
    ensures Decided(Members(es), LastVerdict(es))
  {
    if es == [] {
    } else {
      var n := |es| - 1;
      if es[n].matches {
        assert Lowest(Members(es), es[n]);
      } else {
        LastDecides(es[..n]);
        Extended(es[..n], es[n], es, LastVerdict(es));
      }
    }
  }

  lemma {:induction false} LastIsHighest(es: seq<Entry>)
    requires Ascending(es)
    ensures DecidedByHighest(Members(es), LastVerdict(es))
  {
    if es == [] {
    } else {
      var n := |es| - 1;
      if es[n].matches {
        assert Highest(Members(es), es[n]);
      } else {
        LastIsHighest(es[..n]);
        Extended(es[..n], es[n], es, LastVerdict(es));
      }
    }
  }

  /** An entry that does not match changes no verdict. */
  lemma Extended(part: seq<Entry>, e: Entry, es: seq<Entry>, pass: bool)
    requires !e.matches && Members(es) == Members(part) + {e}
    ensures Decided(Members(part), pass) ==> Decided(Members(es), pass)
    ensures DecidedByHighest(Members(part), pass) ==> DecidedByHighest(Members(es), pass)
  {}

  /** The inner loop over the groups of one rule: the verdict becomes the rule's on every match. */
  method ScanGroups(groups: seq<string>, ip: string, rule: string, before: bool) returns (pass: bool)
    ensures pass == if IpGroups.AnyGroup(groups, ip) then rule == ALLOW else before
  {
    pass := before;
    for j := 0 to |groups|
      invariant pass == if IpGroups.AnyGroup(groups[..j], ip) then rule == ALLOW else before
    {
      if IpGroups.MatchGroup(groups[j], ip) {
        pass := rule == ALLOW;
      }
      assert groups[..j + 1] == groups[..j] + [groups[j]];
    }
    assert groups[..|groups|] == groups;
  }

  // ---------- the rule manager ----------

  datatype Rule = Rule(id: string, rule: string, ip: string, priority: int)

  predicate Sorted(rs: seq<Rule>) {
    forall i, j :: 0 <= i < j < |rs| ==> rs[i].priority <= rs[j].priority
  }

  function Insert(r: Rule, rs: seq<Rule>): seq<Rule> {
    if rs == [] || r.priority < rs[0].priority then [r] + rs else [rs[0]] + Insert(r, rs[1..])
  }

  /** sort.Slice by priority; how it orders equal numbers is not used anywhere. */
  function SortByPriority(rs: seq<Rule>): seq<Rule> {
    if rs == [] then [] else Insert(rs[0], SortByPriority(rs[1..]))
  }

  lemma {:induction false} InsertKeeps(r: Rule, rs: seq<Rule>)
    ensures multiset(Insert(r, rs)) == multiset(rs) + multiset{r}
  {
    if rs == [] || r.priority < rs[0].priority {
    } else {
      InsertKeeps(r, rs[1..]);
      assert rs == [rs[0]] + rs[1..];
    }
  }

  lemma {:induction false} InsertSorted(r: Rule, rs: seq<Rule>)
    requires Sorted(rs)
    ensures Sorted(Insert(r, rs))
  {
    if rs == [] || r.priority < rs[0].priority {
    } else {
      InsertSorted(r, rs[1..]);
      InsertKeeps(r, rs[1..]);
      var rest := Insert(r, rs[1..]);
      forall k | 0 <= k < |rest| ensures rs[0].priority <= rest[k].priority {
        assert rest[k] in multiset(rest);
        assert rest[k] == r || rest[k] in rs[1..];
      }
    }
  }

  lemma {:induction false} SortSorts(rs: seq<Rule>)
    ensures Sorted(SortByPriority(rs)) && multiset(SortByPriority(rs)) == multiset(rs)
  {
    if rs == [] {
    } else {
      SortSorts(rs[1..]);
      InsertSorted(rs[0], SortByPriority(rs[1..]));
      InsertKeeps(rs[0], SortByPriority(rs[1..]));
      assert rs == [rs[0]] + rs[1..];
    }
  }

  lemma SameMembers(a: seq<Rule>, b: seq<Rule>)
    requires multiset(a) == multiset(b)
    ensures |a| == |b| && forall r :: r in a <==> r in b
  {
    assert |a| == |multiset(a)| && |b| == |multiset(b)|;
    forall r ensures r in a <==> r in b {
      assert r in a <==> r in multiset(a);
      assert r in b <==> r in multiset(b);
    }
  }

  /** The cached list is the stored rules, each once, by ascending number. */
  ghost predicate Cached(securities: map<string, Rule>, values: seq<Rule>) {
    && Sorted(values)
    && (forall r :: r in values <==> r in securities.Values)
    && |values| == |securities|
  }

  class Manager {
    var securities: map<string, Rule>
    var values: seq<Rule>

    constructor ()
      ensures securities == map[] && values == [] && Cached(securities, values)
    {
      securities, values := map[], [];
    }

    /** Range visits the stored rules in any order. */
    method LoadData()
      modifies this`values
      ensures Cached(securities, values)
    {
      var loaded: seq<Rule> := [];
      var todo := securities.Keys;
      while todo != {}
        invariant todo <= securities.Keys
        invariant forall r :: r in loaded <==> exists k :: k in securities && k !in todo && securities[k] == r
        invariant |loaded| + |todo| == |securities|
        decreases |todo|
      {
        var key :| key in todo;
        loaded := loaded + [securities[key]];
        todo := todo - {key};
      }
      SortSorts(loaded);
      values := SortByPriority(loaded);
      SameMembers(loaded, values);
    }

    method Add(s: Rule)
      modifies this
      ensures securities == old(securities)[s.id := s] && Cached(securities, values)
    {
      securities := securities[s.id := s];
      LoadData();
    }

    method Del(id: string)
      modifies this
      ensures securities == old(securities) - {id} && Cached(securities, values)
    {
      securities := securities - {id};
      LoadData();
    }

    /** Empties the store and leaves the cached list as it was. */
    method Clear()
      modifies this`securities
      ensures securities == map[]
    {
      var todo := securities.Keys;
      while todo != {}
        invariant todo == securities.Keys
        decreases |todo|
      {
        var key :| key in todo;
        securities := securities - {key};
        todo := todo - {key};
      }
    }

    /** At start the stored rules replace the manager's, unless there are none. */
    method ReloadAccessSecurity(rules: seq<Rule>)
      requires Cached(securities, values)
      modifies this
      ensures Cached(securities, values)
      ensures securities == if rules == [] then old(securities) else ById(rules)
    {
      if |rules| > 0 {
        Clear();
        for i := 0 to |rules|
          invariant securities == ById(rules[..i])
          invariant i > 0 ==> Cached(securities, values)
        {
          Add(rules[i]);
          assert rules[..i + 1][..i] == rules[..i];
        }
        assert rules[..|rules|] == rules;
      }
    }

    /** The SSH server, which compares a rule's whole address text: the first effective rule decides. This is
        the verdict that the stored rules' priorities call for. */
    method ConnCallback(ip: string) returns (pass: bool)
      requires Cached(securities, values)
      ensures Decided(SshView(securities.Values, ip), pass)
    {
      if |values| == 0 {
        assert securities.Values == {};
        return true;
      }
      ghost var es := SshEntries(values, ip);
      SshMembers(values, securities.Values, ip);
      FirstDecides(es);
      for i := 0 to |values|
        invariant FirstVerdict(es) == FirstVerdict(es[i..])
      {
        var s := values[i];
        assert es[i] == SshEntry(s, ip) && es[i..][1..] == es[i + 1..];
        if !IpGroups.MatchGroup(s.ip, ip) {
          continue;
        }
        if s.rule == ALLOW {
          return true;
        }
        if s.rule == REJECT {
          return false;
        }
      }
      return true;
    }

    /** The web server, which splits a rule's address text at commas: the last match over the ascending list
        decides, so the matching rule with the largest number does. */
    method TcpWall(ip: string) returns (pass: bool)
      requires Cached(securities, values)
      ensures DecidedByHighest(WebView(securities.Values, ip), pass)
    {
      if |values| == 0 {
        assert securities.Values == {};
        return true;
      }
      ghost var es := WebEntries(values, ip);
      pass := true;
      for i := 0 to |values|
        invariant pass == LastVerdict(es[..i])
      {
        var s := values[i];
        assert es[..i + 1][..i] == es[..i] && es[i] == WebEntry(s, ip);
        pass := ScanGroups(Split(s.ip, ','), ip, s.rule, pass);
      }
      assert es[..|values|] == es;
      LastIsHighest(es);
      WebMembers(values, securities.Values, ip);
    }
  }

  function ById(rules: seq<Rule>): map<string, Rule> {
    if rules == [] then map[] else ById(rules[..|rules| - 1])[rules[|rules| - 1].id := rules[|rules| - 1]]
  }

  predicate DistinctIds(rules: seq<Rule>) {
    forall i, j :: 0 <= i < j < |rules| ==> rules[i].id != rules[j].id
  }

  /** The rows of a table, whose ids differ, are all stored under their ids. */
  lemma {:induction false} ByIdExactly(rules: seq<Rule>)
    requires DistinctIds(rules)
    ensures forall r :: r in rules ==> r.id in ById(rules) && ById(rules)[r.id] == r
    ensures forall id :: id in ById(rules) ==> ById(rules)[id] in rules && ById(rules)[id].id == id
  {
    if rules == [] {
    } else {
      var front := rules[..|rules| - 1];
      ByIdExactly(front);
      assert rules == front + [rules[|rules| - 1]];
    }
  }

  /** For the SSH server only allow and reject rules are effective. */
  function SshEntry(r: Rule, ip: string): Entry {
    Entry(r.priority, IpGroups.MatchGroup(r.ip, ip) && (r.rule == ALLOW || r.rule == REJECT), r.rule == ALLOW)
  }

  /** For the web server any rule that is not an allow rule rejects. */
  function WebEntry(r: Rule, ip: string): Entry {
    Entry(r.priority, IpGroups.AnyGroup(Split(r.ip, ','), ip), r.rule == ALLOW)
  }

  /** What the servers make of a set of rules for one client. */
  ghost function SshView(rules: set<Rule>, ip: string): set<Entry> {
    set r | r in rules :: SshEntry(r, ip)
  }

  ghost function WebView(rules: set<Rule>, ip: string): set<Entry> {
    set r | r in rules :: WebEntry(r, ip)
  }

  ghost function SshEntries(rs: seq<Rule>, ip: string): (es: seq<Entry>)
    ensures |es| == |rs| && forall i :: 0 <= i < |rs| ==> es[i] == SshEntry(rs[i], ip)
  {
    seq(|rs|, i requires 0 <= i < |rs| => SshEntry(rs[i], ip))
  }

  ghost function WebEntries(rs: seq<Rule>, ip: string): (es: seq<Entry>)
    ensures |es| == |rs| && forall i :: 0 <= i < |rs| ==> es[i] == WebEntry(rs[i], ip)
  {
    seq(|rs|, i requires 0 <= i < |rs| => WebEntry(rs[i], ip))
  }

  lemma SshMembers(rs: seq<Rule>, stored: set<Rule>, ip: string)
    requires forall r :: r in rs <==> r in stored
    ensures Members(SshEntries(rs, ip)) == SshView(stored, ip)
  {}

  lemma WebMembers(rs: seq<Rule>, stored: set<Rule>, ip: string)
    requires forall r :: r in rs <==> r in stored
    ensures Members(WebEntries(rs, ip)) == WebView(stored, ip)
  {}

  predicate AllowOrReject(r: Rule) {
    r.rule == ALLOW || r.rule == REJECT
  }

  /** Without a comma in its address text the two servers read a rule alike exactly when it is an allow or reject
      rule or does not match. */
  lemma ServersReadAlike(r: Rule, ip: string)
    requires ',' !in r.ip
    ensures SshEntry(r, ip) == WebEntry(r, ip) <==> AllowOrReject(r) || !IpGroups.MatchGroup(r.ip, ip)
  {
    SplitWithoutSeparator(r.ip, ',');
    assert IpGroups.AnyGroup([r.ip], ip) <==> IpGroups.MatchGroup(r.ip, ip);
  }

  /** A list of single addresses never matches in the SSH server, whoever calls. */
  lemma SshIgnoresLists(r: Rule, ip: string)
    requires ',' in r.ip && '/' !in r.ip && '-' !in r.ip && ',' !in ip
    ensures !SshEntry(r, ip).matches
  {}

  /** For a list of single addresses the two servers read a rule alike exactly for clients that are not in it. */
  lemma PlainListExactly(r: Rule, ip: string)
    requires AllowOrReject(r) && ',' in r.ip && '/' !in r.ip && '-' !in r.ip && ',' !in ip
    ensures SshEntry(r, ip) == WebEntry(r, ip) <==> ip !in Split(r.ip, ',')
  {
    SshIgnoresLists(r, ip);
    SplitKeepsOut(r.ip, ',', '/');
    SplitKeepsOut(r.ip, ',', '-');
    var groups := Split(r.ip, ',');
    forall g | g in groups ensures IpGroups.MatchGroup(g, ip) <==> g == ip {
    }
  }

  lemma {:induction false} SplitKeepsOut(s: string, sep: char, c: char)
    requires c !in s
    ensures forall g :: g in Split(s, sep) ==> c !in g
  {
    if s == "" {
    } else {
      SplitKeepsOut(s[1..], sep, c);
    }
  }

  /** With a block among its items a list never matches in the SSH server, and the two servers read it alike
      exactly for clients that none of its items accepts. */
  lemma BlockListExactly(r: Rule, ip: string)
    requires AllowOrReject(r) && ',' in r.ip && '/' in r.ip
    ensures !SshEntry(r, ip).matches
    ensures SshEntry(r, ip) == WebEntry(r, ip) <==> !IpGroups.AnyGroup(Split(r.ip, ','), ip)
  {
    AddressLists.CommaIsNoBlock(r.ip);
  }

  /** Every list of addresses, ranges and blocks: the two servers read it alike for a client exactly when the
      SSH server's single reading of the whole text and the items say the same of the client. */
  lemma ServersReadExactly(r: Rule, items: seq<AddressLists.Item>, ip: IpGroups.Octets)
    requires AllowOrReject(r) && items != [] && forall k :: 0 <= k < |items| ==> AddressLists.Valid(items[k])
    requires r.ip == AddressLists.Listed(items)
    ensures SshEntry(r, IpGroups.Dotted(ip)) == WebEntry(r, IpGroups.Dotted(ip))
            <==> (AddressLists.WholeAccepts(items, ip) <==> AddressLists.SomeAccepts(items, ip))
  {
    AddressLists.WholeReading(items, ip);
    AddressLists.SplitReading(items, ip);
  }

  /** A matching rule with the smallest number in a store. */
  ghost predicate LowestRule(stored: set<Rule>, ip: string, low: Rule) {
    low in stored && IpGroups.MatchGroup(low.ip, ip)
    && forall r :: r in stored && IpGroups.MatchGroup(r.ip, ip) ==> low.priority <= r.priority
  }

  ghost predicate HighestRule(stored: set<Rule>, ip: string, high: Rule) {
    high in stored && IpGroups.MatchGroup(high.ip, ip)
    && forall r :: r in stored && IpGroups.MatchGroup(r.ip, ip) ==> r.priority <= high.priority
  }

  /** What ConnCallback and TcpWall ensure of their results, put together: over one store of allow and reject
      rules without commas and with distinct numbers, the two servers agree on a client exactly when its lowest
      and its highest matching rule say the same. */
  lemma ServersAgreeExactly(stored: set<Rule>, ip: string, low: Rule, high: Rule, ssh: bool, web: bool)
    requires forall r :: r in stored ==> ',' !in r.ip && AllowOrReject(r)
    requires forall x, y :: x in stored && y in stored && x.priority == y.priority ==> x == y
    requires LowestRule(stored, ip, low) && HighestRule(stored, ip, high)
    requires Decided(SshView(stored, ip), ssh)
    requires DecidedByHighest(WebView(stored, ip), web)
    ensures ssh == web <==> low.rule == high.rule
  {
    var es := SshView(stored, ip);
    forall r | r in stored ensures SshEntry(r, ip) == WebEntry(r, ip) {
      ServersReadAlike(r, ip);
    }
    assert es == WebView(stored, ip);
    assert SshEntry(low, ip) in es && SshEntry(high, ip) in es;
    HighestExactly(es, SshEntry(low, ip), SshEntry(high, ip), ssh, web);
  }

  /** ... and both let a client through that no rule matches. */
  lemma ServersLetThrough(stored: set<Rule>, ip: string, ssh: bool, web: bool)
    requires forall r :: r in stored ==> !SshEntry(r, ip).matches && !WebEntry(r, ip).matches
    requires Decided(SshView(stored, ip), ssh)
    requires DecidedByHighest(WebView(stored, ip), web)
    ensures ssh && web
  {}

  /** A rule for a single address matches that address in both servers. */
  lemma SingleAddress(r: Rule)
    requires ',' !in r.ip && '/' !in r.ip && '-' !in r.ip && (r.rule == ALLOW || r.rule == REJECT)
    ensures SshEntry(r, r.ip) == WebEntry(r, r.ip) == Entry(r.priority, true, r.rule == ALLOW)
  {
    ServersReadAlike(r, r.ip);
  }

  /** A rejection with a small number and a permission with a larger one for the same address: the SSH server
      rejects and the web server lets through. */
  lemma ServersDisagree(ip: string, low: int, high: int)
    requires ',' !in ip && '/' !in ip && '-' !in ip && low < high
    ensures var rules := {Rule("a", REJECT, ip, low), Rule("b", ALLOW, ip, high)};
            && Distinct(SshView(rules, ip))
            && Decided(SshView(rules, ip), false)
            && DecidedByHighest(WebView(rules, ip), true)
  {
    var a, b := Rule("a", REJECT, ip, low), Rule("b", ALLOW, ip, high);
    SingleAddress(a);
    SingleAddress(b);
    Opposite(a, b, ip, Entry(low, true, false), Entry(high, true, true));
  }

  lemma Opposite(a: Rule, b: Rule, ip: string, x: Entry, y: Entry)
    requires SshEntry(a, ip) == WebEntry(a, ip) == x && SshEntry(b, ip) == WebEntry(b, ip) == y
    requires x.matches && y.matches && x.priority < y.priority && !x.allow && y.allow
    ensures var rules := {a, b};
            && Distinct(SshView(rules, ip))
            && Decided(SshView(rules, ip), false)
            && DecidedByHighest(WebView(rules, ip), true)
  {
    assert SshView({a, b}, ip) == {x, y};
    assert WebView({a, b}, ip) == {x, y};
    PairDecided(x, y);
  }

  lemma PairDecided(x: Entry, y: Entry)
    requires x.matches && y.matches && x.priority < y.priority && !x.allow && y.allow
    ensures Distinct({x, y}) && Decided({x, y}, false) && DecidedByHighest({x, y}, true)
  {
    assert Lowest({x, y}, x) && Highest({x, y}, y);
  }

  // ---------- the login policy ----------

  datatype TimePeriod = TimePeriod(key: int, value: string)

  datatype Policy = Policy(ipGroup: string, priority: int, enabled: bool, rule: string, timePeriod: seq<TimePeriod>)

  /** The order in which the repository returns a user's policies. */
  predicate ByPriorityDesc(ps: seq<Policy>) {
    forall i, j :: 0 <= i < j < |ps| ==> ps[i].priority >= ps[j].priority
  }

  /** Of the policies that are hit, one with the smallest number decides; when none is, the login may go on. */
  ghost predicate Verdict(hits: set<Policy>, pass: bool) {
    || (hits == {} && pass)
    || exists p :: p in hits && (pass <==> p.rule == "allow") && forall q :: q in hits ==> p.priority <= q.priority
  }

  ghost function IpHits(policies: seq<Policy>, clientIp: string): set<Policy> {
    set p | p in policies && p.enabled && IpGroups.AnyGroup(Split(p.ipGroup, ','), clientIp)
  }

  function IpEntry(p: Policy, clientIp: string): Entry {
    Entry(p.priority, p.enabled && IpGroups.AnyGroup(Split(p.ipGroup, ','), clientIp), p.rule == ALLOW)
  }

  ghost function IpEntries(ps: seq<Policy>, clientIp: string): (es: seq<Entry>)
    ensures |es| == |ps| && forall i :: 0 <= i < |ps| ==> es[i] == IpEntry(ps[i], clientIp)
  {
    seq(|ps|, i requires 0 <= i < |ps| => IpEntry(ps[i], clientIp))
  }

  /** Entries that tell of each policy its number, whether it is hit and whether it allows. */
  lemma EntriesDecide(policies: seq<Policy>, hits: set<Policy>, es: seq<Entry>, pass: bool)
    requires |es| == |policies| && Decided(Members(es), pass) && forall p :: p in hits ==> p in policies
    requires forall i :: 0 <= i < |es| ==>
               es[i].priority == policies[i].priority && (es[i].matches <==> policies[i] in hits)
               && (es[i].allow <==> policies[i].rule == "allow")
    ensures Verdict(hits, pass)
  {
    forall q | q in hits
      ensures exists i :: 0 <= i < |es| && policies[i] == q && es[i] in Members(es) && es[i].matches
    {
      var i :| 0 <= i < |policies| && policies[i] == q;
      assert es[i] in Members(es);
    }
    if !(NoneMatches(Members(es)) && pass) {
      var e :| Lowest(Members(es), e) && e.allow == pass;
      var i :| 0 <= i < |es| && es[i] == e;
      assert policies[i] in hits;
    }
  }

  /** Whether the login may go on from this address. */
  method CheckClientIp(policies: seq<Policy>, clientIp: string) returns (pass: bool)
    ensures ByPriorityDesc(policies) ==> Verdict(IpHits(policies, clientIp), pass)
  {
    pass := true;
    ghost var es := IpEntries(policies, clientIp);
    for i := 0 to |policies|
      invariant pass == LastVerdict(es[..i])
    {
      var policy := policies[i];
      assert es[..i + 1][..i] == es[..i] && es[i] == IpEntry(policy, clientIp);
      if !policy.enabled {
        continue;
      }
      pass := ScanGroups(Split(policy.ipGroup, ','), clientIp, policy.rule, pass);
    }
    assert es[..|policies|] == es;
    if ByPriorityDesc(policies) {
      LastDecides(es);
      EntriesDecide(policies, IpHits(policies, clientIp), es, pass);
    }
  }

  /** One range of a period's text, such as 09:00~18:00, at a time of day. */
  predicate InRange(t: string, hwc: string) {
    var timeRange := Split(t, '~');
    && |timeRange| >= 2
    && ((timeRange[0] == "00:00" && timeRange[1] == "00:00")
        || (Signing.Leq(timeRange[0], hwc) && Signing.Leq(hwc, timeRange[1])))
  }

  predicate ReadToday(period: TimePeriod, weekday: int) {
    period.key == weekday && period.value != ""
  }

  predicate AnyRange(ranges: seq<string>, hwc: string) {
    exists t :: t in ranges && InRange(t, hwc)
  }

  predicate PeriodMatches(period: TimePeriod, weekday: int, hwc: string) {
    ReadToday(period, weekday) && AnyRange(Split(period.value, '、'), hwc)
  }

  predicate AnyPeriod(periods: seq<TimePeriod>, weekday: int, hwc: string) {
    exists period :: period in periods && PeriodMatches(period, weekday, hwc)
  }

  /** A range without its separator. */
  predicate Malformed(ranges: seq<string>) {
    exists t :: t in ranges && |Split(t, '~')| < 2
  }

  predicate AnyMalformed(periods: seq<TimePeriod>, weekday: int) {
    exists period :: period in periods && ReadToday(period, weekday) && Malformed(Split(period.value, '、'))
  }

  ghost function TimeHits(policies: seq<Policy>, weekday: int, hwc: string): set<Policy> {
    set p | p in policies && p.enabled && AnyPeriod(p.timePeriod, weekday, hwc)
  }

  function TimeEntry(p: Policy, weekday: int, hwc: string): Entry {
    Entry(p.priority, p.enabled && AnyPeriod(p.timePeriod, weekday, hwc), p.rule == ALLOW)
  }

  ghost function TimeEntries(ps: seq<Policy>, weekday: int, hwc: string): (es: seq<Entry>)
    ensures |es| == |ps| && forall i :: 0 <= i < |ps| ==> es[i] == TimeEntry(ps[i], weekday, hwc)
  {
    seq(|ps|, i requires 0 <= i < |ps| => TimeEntry(ps[i], weekday, hwc))
  }

  lemma AnyRangeSnoc(ranges: seq<string>, t: string, hwc: string)
    ensures AnyRange(ranges + [t], hwc) <==> AnyRange(ranges, hwc) || InRange(t, hwc)
  {}

  lemma AnyPeriodSnoc(periods: seq<TimePeriod>, p: TimePeriod, weekday: int, hwc: string)
    ensures AnyPeriod(periods + [p], weekday, hwc)
            <==> AnyPeriod(periods, weekday, hwc) || PeriodMatches(p, weekday, hwc)
  {}

  /** The ranges of one period's text. */
  method CheckRanges(value: string, hwc: string, rule: string, before: bool) returns (r: Outcome<bool>)
    ensures r.Panic? <==> Malformed(Split(value, '、'))
    ensures !r.Panic? ==> r == Ok(if AnyRange(Split(value, '、'), hwc) then rule == ALLOW else before)
  {
    var timePass := before;
    var times := Split(value, '、');
    for k := 0 to |times|
      invariant !Malformed(times[..k])
      invariant timePass == if AnyRange(times[..k], hwc) then rule == ALLOW else before
    {
      var timeRange := Split(times[k], '~');
      if |timeRange| < 2 {
        return Panic;
      }
      var start, end := timeRange[0], timeRange[1];
      if (start == "00:00" && end == "00:00") || (Signing.Leq(start, hwc) && Signing.Leq(hwc, end)) {
        timePass := rule == ALLOW;
      }
      assert times[..k + 1] == times[..k] + [times[k]];
      AnyRangeSnoc(times[..k], times[k], hwc);
    }
    assert times[..|times|] == times;
    return Ok(timePass);
  }

  /** The periods of one policy. */
  method CheckPeriods(policy: Policy, weekday: int, hwc: string, before: bool) returns (r: Outcome<bool>)
    ensures r.Panic? <==> AnyMalformed(policy.timePeriod, weekday)
    ensures !r.Panic? ==>
              r == Ok(if AnyPeriod(policy.timePeriod, weekday, hwc) then policy.rule == ALLOW else before)
  {
    var timePass := before;
    var periods := policy.timePeriod;
    for j := 0 to |periods|
      invariant !AnyMalformed(periods[..j], weekday)
      invariant timePass == if AnyPeriod(periods[..j], weekday, hwc) then policy.rule == ALLOW else before
    {
      var period := periods[j];
      assert periods[..j + 1] == periods[..j] + [period];
      AnyPeriodSnoc(periods[..j], period, weekday, hwc);
      if weekday != period.key {
        continue;
      }
      if period.value == "" {
        continue;
      }
      var ranged := CheckRanges(period.value, hwc, policy.rule, timePass);
      if ranged.IsFailure() {
        return ranged;
      }
      timePass := ranged.Extract();
    }
    assert periods[..|periods|] == periods;
    return Ok(timePass);
  }

  /** Whether the login may go on at this time; an enabled policy with a malformed range for today panics. */
  method CheckWeekDay(policies: seq<Policy>, weekday: int, hwc: string) returns (r: Outcome<bool>)
    ensures r.Panic? <==> exists p :: p in policies && p.enabled && AnyMalformed(p.timePeriod, weekday)
    ensures !r.Err?
    ensures r.Ok? && ByPriorityDesc(policies) ==>
              Verdict(TimeHits(policies, weekday, hwc), r.value)
  {
    var timePass := true;
    ghost var es := TimeEntries(policies, weekday, hwc);
    for i := 0 to |policies|
      invariant timePass == LastVerdict(es[..i])
      invariant forall k :: 0 <= k < i && policies[k].enabled ==> !AnyMalformed(policies[k].timePeriod, weekday)
    {
      var policy := policies[i];
      assert es[..i + 1][..i] == es[..i] && es[i] == TimeEntry(policy, weekday, hwc);
      if !policy.enabled {
        continue;
      }
      var checked := CheckPeriods(policy, weekday, hwc, timePass);
      if checked.IsFailure() {
        return checked;
      }
      timePass := checked.Extract();
    }
    assert es[..|policies|] == es;
    if ByPriorityDesc(policies) {
      LastDecides(es);
      EntriesDecide(policies, TimeHits(policies, weekday, hwc), es, timePass);
    }
    return Ok(timePass);
  }

  // ---------- what the texts of a period mean ----------

  /** A time of day in minutes, and its text such as 09:30. */
  type Minutes = t: int | 0 <= t < 1440

  function TimeText(t: Minutes): string {
    [Digit(t / 60 / 10), Digit(t / 60 % 10), ':', Digit(t % 60 / 10), Digit(t % 60 % 10)]
  }

  lemma LeqCons(c: char, a: string, d: char, b: string)
    ensures Signing.Leq([c] + a, [d] + b) <==> c < d || (c == d && Signing.Leq(a, b))
  {
    assert ([c] + a)[1..] == a && ([d] + b)[1..] == b;
  }

  /** The order of the texts is that of the times. */
  lemma TextOrder(s: Minutes, t: Minutes)
    ensures Signing.Leq(TimeText(s), TimeText(t)) <==> s <= t
  {
    var (a, b, c, d) := (s / 60 / 10, s / 60 % 10, s % 60 / 10, s % 60 % 10);
    var (e, f, g, h) := (t / 60 / 10, t / 60 % 10, t % 60 / 10, t % 60 % 10);
    LeqDigits(a, b, c, d, e, f, g, h);
    assert s == 600 * a + 60 * b + 10 * c + d && t == 600 * e + 60 * f + 10 * g + h;
  }

  /** Two digits decide unless they are the same. */
  lemma LeqPair(a: nat, b: nat, x: string, e: nat, f: nat, y: string)
    requires a < 10 && b < 10 && e < 10 && f < 10
    ensures Signing.Leq([Digit(a), Digit(b)] + x, [Digit(e), Digit(f)] + y) <==>
            10 * a + b < 10 * e + f || (10 * a + b == 10 * e + f && Signing.Leq(x, y))
  {
    LeqCons(Digit(b), x, Digit(f), y);
    LeqCons(Digit(a), [Digit(b)] + x, Digit(e), [Digit(f)] + y);
    assert [Digit(a), Digit(b)] + x == [Digit(a)] + ([Digit(b)] + x);
    assert [Digit(e), Digit(f)] + y == [Digit(e)] + ([Digit(f)] + y);
  }

  lemma LeqDigits(a: nat, b: nat, c: nat, d: nat, e: nat, f: nat, g: nat, h: nat)
    requires a < 10 && b < 10 && c < 6 && d < 10 && e < 10 && f < 10 && g < 6 && h < 10
    ensures Signing.Leq([Digit(a), Digit(b), ':', Digit(c), Digit(d)], [Digit(e), Digit(f), ':', Digit(g), Digit(h)])
            <==> 600 * a + 60 * b + 10 * c + d <= 600 * e + 60 * f + 10 * g + h
  {
    var x, y := [Digit(c), Digit(d)], [Digit(g), Digit(h)];
    assert x + "" == x && y + "" == y;
    LeqPair(c, d, "", g, h, "");
    LeqCons(':', x, ':', y);
    LeqPair(a, b, [':'] + x, e, f, [':'] + y);
    assert [Digit(a), Digit(b), ':', Digit(c), Digit(d)] == [Digit(a), Digit(b)] + ([':'] + x);
    assert [Digit(e), Digit(f), ':', Digit(g), Digit(h)] == [Digit(e), Digit(f)] + ([':'] + y);
  }

  /** A range from one time to another, as it is written. */
  datatype Range = Range(from: Minutes, to: Minutes)

  function RangeText(r: Range): string {
    TimeText(r.from) + "~" + TimeText(r.to)
  }

  /** Both ends belong to the range, and midnight to midnight is the whole day. */
  predicate Within(r: Range, now: Minutes) {
    (r.from == 0 && r.to == 0) || r.from <= now <= r.to
  }

  lemma TimeChars(t: Minutes)
    ensures |TimeText(t)| == 5 && forall c :: c in TimeText(t) ==> IsDigit(c) || c == ':'
  {}

  lemma Midnight(t: Minutes)
    ensures TimeText(t) == "00:00" <==> t == 0
  {
    if TimeText(t) == "00:00" {
      assert TimeText(t)[0] == '0' && TimeText(t)[1] == '0' && TimeText(t)[3] == '0' && TimeText(t)[4] == '0';
    }
  }

  lemma InRangeExactly(r: Range, now: Minutes)
    ensures |Split(RangeText(r), '~')| == 2 && '、' !in RangeText(r)
    ensures InRange(RangeText(r), TimeText(now)) <==> Within(r, now)
  {
    TimeChars(r.from);
    TimeChars(r.to);
    SplitFirst(TimeText(r.from), '~', TimeText(r.to));
    SplitWithoutSeparator(TimeText(r.to), '~');
    Midnight(r.from);
    Midnight(r.to);
    TextOrder(r.from, now);
    TextOrder(now, r.to);
  }

  function RangeTexts(ranges: seq<Range>): (texts: seq<string>)
    ensures |texts| == |ranges| && forall i :: 0 <= i < |ranges| ==> texts[i] == RangeText(ranges[i])
  {
    seq(|ranges|, i requires 0 <= i < |ranges| => RangeText(ranges[i]))
  }

  lemma RangesExactly(ranges: seq<Range>, now: Minutes)
    ensures AnyRange(RangeTexts(ranges), TimeText(now)) <==> exists r :: r in ranges && Within(r, now)
    ensures !Malformed(RangeTexts(ranges))
    ensures forall i :: 0 <= i < |ranges| ==> '、' !in RangeTexts(ranges)[i]
  {
    var texts := RangeTexts(ranges);
    forall i | 0 <= i < |ranges|
      ensures '、' !in texts[i] && |Split(texts[i], '~')| == 2
      ensures InRange(texts[i], TimeText(now)) <==> Within(ranges[i], now)
    {
      InRangeExactly(ranges[i], now);
    }
    if r :| r in ranges && Within(r, now) {
      var i :| 0 <= i < |ranges| && ranges[i] == r;
      assert texts[i] in texts && InRange(texts[i], TimeText(now));
    }
  }

  /** A period of ranges matches on its day within one of them, and never panics. */
  lemma PeriodExactly(key: int, ranges: seq<Range>, weekday: int, now: Minutes)
    requires ranges != []
    ensures var period := TimePeriod(key, Join(RangeTexts(ranges), "、"));
            && (PeriodMatches(period, weekday, TimeText(now)) <==>
                key == weekday && exists r :: r in ranges && Within(r, now))
            && !AnyMalformed([period], weekday)
  {
    RangesExactly(ranges, now);
    SplitJoin(RangeTexts(ranges), '、');
    NotEmptyText(RangeTexts(ranges));
  }

  lemma NotEmptyText(texts: seq<string>)
    requires texts != [] && Split(Join(texts, "、"), '、') == texts && !Malformed(texts)
    ensures Join(texts, "、") != ""
  {
    assert Split("", '、') == [""] && |Split("", '~')| == 1;
    assert texts[0] in texts;
  }
}
