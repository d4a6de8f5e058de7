/** Lockout after failed logins: a counter per client address and user name in an expiring cache, shared by the
    web login and the terminal's second factor. Each attempt is one atomic step. */
module Lockout {
  import opened Wrappers
  import opened Text
  import AddressLists
  import IpGroups

  const LIMIT := 5
  const LOCK_EXPIRATION := 300

  /** expiry is the last moment at which the cache still returns the entry. */
  datatype Counter = Counter(count: nat, expiry: nat)

  type Cache = map<string, Counter>

  /** What an attempt reads: an absent or expired counter stands at 1. */
  function Count(c: Cache, key: string, now: nat): nat {
    if key in c && now <= c[key].expiry then c[key].count else 1
  }

  predicate Locked(c: Cache, key: string, now: nat) {
    Count(c, key, now) >= LIMIT
  }

  function Fail(c: Cache, key: string, now: nat): Cache {
    c[key := Counter(Count(c, key, now) + 1, now + LOCK_EXPIRATION)]
  }

  /** An attempt that counts as a failure unless it is refused. Success does not reset the counter. */
  function Attempt(c: Cache, key: string, now: nat, fails: bool): Cache {
    if fails && !Locked(c, key, now) then Fail(c, key, now) else c
  }

  // ---------- the two callers ----------

  datatype User = User(password: string, disabled: bool, totpSecret: string)

  datatype Request = Request(ip: string, username: string, password: string, totp: string, now: nat)

  /** The external checks of a password against its hash and of a one-time code against its secret. */
  datatype Checks = Checks(matches: (string, string) -> bool, validate: (string, string) -> bool)

  /** A failed check is answered with the counter as it then stands. */
  datatype Reply =
    Refused | TooLong | WrongPassword(count: nat) | Disabled | AskTotp | WrongTotp(count: nat) | Passed

  /** The reply to a check that has failed and was counted. */
  predicate Wrong(reply: Reply) {
    reply.WrongPassword? || reply.WrongTotp?
  }

  /** The user has set up a second factor; the dash stands for none. */
  predicate TwoFactor(u: User) {
    u.totpSecret != "" && u.totpSecret != "-"
  }

  /** One answer to the terminal's prompt; a failing prompt has no answer. */
  datatype Answer = Answer(code: string, now: nat)

  class FailCounter {
    var cache: Cache

    constructor ()
      ensures cache == map[]
    {
      cache := map[];
    }

    /** The web login up to the point where the credentials are accepted: each reply with exactly the circumstances
        that it is given in. A failed check, and nothing else, raises the key's counter. */
    method LoginEndpoint(checks: Checks, user: Option<User>, r: Request) returns (reply: Reply)
      modifies this
      ensures reply.Refused? <==> Locked(old(cache), r.ip + r.username, r.now)
      ensures reply.TooLong? <==> !reply.Refused? && |r.password| > 100
      ensures reply.Disabled? <==> !reply.Refused? && |r.password| <= 100 && user.Some? && user.value.disabled
      ensures reply.WrongPassword? <==>
              && !reply.Refused? && |r.password| <= 100
              && (user.None? || (!user.value.disabled && !checks.matches(user.value.password, r.password)))
      ensures reply.Passed? <==>
              && !reply.Refused? && |r.password| <= 100
              && user.Some? && !user.value.disabled && checks.matches(user.value.password, r.password)
              && (TwoFactor(user.value) ==> r.totp != "" && checks.validate(r.totp, user.value.totpSecret))
      ensures reply.AskTotp? ==> user.Some? && TwoFactor(user.value) && r.totp == ""
      ensures reply.WrongTotp? ==>
                && user.Some? && TwoFactor(user.value)
                && r.totp != "" && !checks.validate(r.totp, user.value.totpSecret)
      ensures cache == Step(old(cache), Try(r.ip + r.username, r.now, Wrong(reply)))
      ensures Wrong(reply) ==> Count(cache, r.ip + r.username, r.now) == Count(old(cache), r.ip + r.username, r.now) + 1
      ensures reply.WrongPassword? ==> reply.count == Count(cache, r.ip + r.username, r.now)
      ensures reply.WrongTotp? ==> reply.count == Count(cache, r.ip + r.username, r.now)
      ensures !Wrong(reply) ==> cache == old(cache)
    {
      var key := r.ip + r.username;
      var count := Count(cache, key, r.now);
      if count >= LIMIT {
        return Refused;
      }
      if |r.password| > 100 {
        return TooLong;
      }
      if user.None? {
        count := count + 1;
        cache := cache[key := Counter(count, r.now + LOCK_EXPIRATION)];
        return WrongPassword(count);
      }
      var u := user.value;
      if u.disabled {
        return Disabled;
      }
      if !checks.matches(u.password, r.password) {
        count := count + 1;
        cache := cache[key := Counter(count, r.now + LOCK_EXPIRATION)];
        return WrongPassword(count);
      }
      if u.totpSecret != "" && u.totpSecret != "-" {
        if r.totp == "" {
          return AskTotp;
        } else if !checks.validate(r.totp, u.totpSecret) {
          count := count + 1;
          cache := cache[key := Counter(count, r.now + LOCK_EXPIRATION)];
          return WrongTotp(count);
        }
      }
      return Passed;
    }

    /** The terminal asks up to five times; a failing prompt ends the dialogue. Every answer is an attempt on the
        shared counter, and the dialogue succeeds exactly when one of them is valid while the key is not locked. */
    method TotpUI(checks: Checks, remoteAddr: string, username: string, secret: string,
                  answers: seq<Option<Answer>>) returns (success: bool)
      requires |answers| == 5
      modifies this
      ensures success <==> exists i :: Accepted(old(cache), checks, remoteAddr + username, secret, answers, i)
      ensures success ==>
        exists i :: Accepted(old(cache), checks, remoteAddr + username, secret, answers, i)
          && cache == After(old(cache), checks, remoteAddr + username, secret, answers, i)
      ensures !success ==>
        cache == After(old(cache), checks, remoteAddr + username, secret, answers, Asked(answers))
    {
      var key := remoteAddr + username;
      ghost var start := cache;
      for i := 0 to 5
        invariant Declined(start, cache, checks, key, secret, answers, i)
      {
        ghost var before := cache;
        AskedPrefix(answers, i);
        if answers[i].None? {
          NoneAccepted(start, cache, checks, key, secret, answers, i);
          return false;
        }
        var now := answers[i].value.now;
        var count := Count(cache, key, now);
        if count >= LIMIT {
          DeclinedNext(start, before, checks, key, secret, answers, i);
          continue;
        }
        if !checks.validate(answers[i].value.code, secret) {
          DeclinedNext(start, before, checks, key, secret, answers, i);
          count := count + 1;
          cache := cache[key := Counter(count, now + LOCK_EXPIRATION)];
          continue;
        }
        assert Accepted(start, checks, key, secret, answers, i);
        return true;
      }
      NoneAccepted(start, cache, checks, key, secret, answers, 5);
      return false;
    }
  }

  /** How many prompts are answered before one fails. */
  function Asked(answers: seq<Option<Answer>>): (n: nat)
    ensures n <= |answers|
  {
    if answers == [] || answers[0].None? then 0 else 1 + Asked(answers[1..])
  }

  lemma {:induction false} AskedPrefix(answers: seq<Option<Answer>>, i: nat)
    requires i <= Asked(answers)
    ensures forall j :: 0 <= j < i ==> answers[j].Some?
    ensures i < |answers| ==> (i < Asked(answers) <==> answers[i].Some?)
  {
    if i == 0 {
    } else {
      AskedPrefix(answers[1..], i - 1);
      forall j | 0 <= j < i ensures answers[j].Some? {
        if j > 0 {
          assert answers[1..][j - 1] == answers[j];
        }
      }
    }
  }

  /** The answers as attempts on the counter. */
  function Tries(checks: Checks, key: string, secret: string, answers: seq<Option<Answer>>): seq<Event> {
    if answers == [] then []
    else
      Tries(checks, key, secret, answers[..|answers| - 1])
      + match answers[|answers| - 1]
        case None => []
        case Some(a) => [Try(key, a.now, !checks.validate(a.code, secret))]
  }

  /** The cache when the i-th prompt is answered. */
  function After(c: Cache, checks: Checks, key: string, secret: string, answers: seq<Option<Answer>>, i: nat): Cache
    requires i <= |answers|
  {
    Run(c, Tries(checks, key, secret, answers[..i]))
  }

  lemma AfterNext(c: Cache, checks: Checks, key: string, secret: string, answers: seq<Option<Answer>>, i: nat)
    requires i < |answers| && answers[i].Some?
    ensures After(c, checks, key, secret, answers, i + 1)
         == Attempt(After(c, checks, key, secret, answers, i), key, answers[i].value.now,
                    !checks.validate(answers[i].value.code, secret))
  {
    assert answers[..i + 1][..i] == answers[..i];
    var es := Tries(checks, key, secret, answers[..i]);
    var e := Try(key, answers[i].value.now, !checks.validate(answers[i].value.code, secret));
    assert (es + [e])[..|es|] == es;
  }

  /** The i-th prompt is reached, its answer is valid, and the key is not locked after the answers before it. */
  predicate Accepted(c: Cache, checks: Checks, key: string, secret: string, answers: seq<Option<Answer>>, i: int) {
    && 0 <= i < Asked(answers) && answers[i].Some?
    && checks.validate(answers[i].value.code, secret)
    && !Locked(After(c, checks, key, secret, answers, i), key, answers[i].value.now)
  }

  /** So far no answer has been accepted. */
  ghost predicate Declined(start: Cache, c: Cache, checks: Checks, key: string, secret: string,
                           answers: seq<Option<Answer>>, i: nat)
  {
    && i <= Asked(answers) && c == After(start, checks, key, secret, answers, i)
    && forall j :: 0 <= j < i ==> !Accepted(start, checks, key, secret, answers, j)
  }

  lemma DeclinedNext(start: Cache, c: Cache, checks: Checks, key: string, secret: string,
                     answers: seq<Option<Answer>>, i: nat)
    requires Declined(start, c, checks, key, secret, answers, i) && i < Asked(answers) && answers[i].Some?
    requires Locked(c, key, answers[i].value.now) || !checks.validate(answers[i].value.code, secret)
    ensures Declined(start, Attempt(c, key, answers[i].value.now, !checks.validate(answers[i].value.code, secret)),
                     checks, key, secret, answers, i + 1)
  {
    AfterNext(start, checks, key, secret, answers, i);
    assert !Accepted(start, checks, key, secret, answers, i);
  }

  lemma NoneAccepted(start: Cache, c: Cache, checks: Checks, key: string, secret: string,
                     answers: seq<Option<Answer>>, i: nat)
    requires Declined(start, c, checks, key, secret, answers, i) && i == Asked(answers)
    ensures forall j :: !Accepted(start, checks, key, secret, answers, j)
    ensures c == After(start, checks, key, secret, answers, Asked(answers))
  {}

  // ---------- runs ----------

  /** An attempt of either caller, or the cache's janitor removing what has expired. */
  datatype Event =
    | Try(key: string, now: nat, fails: bool)
    | Clean(now: nat)

  function Step(c: Cache, e: Event): Cache {
    match e
    case Try(key, now, fails) => Attempt(c, key, now, fails)
    case Clean(now) => map k | k in c && now <= c[k].expiry :: c[k]
  }

  predicate Counted(c: Cache, e: Event, key: string) {
    e.Try? && e.key == key && e.fails && !Locked(c, key, e.now)
  }

  function Run(c: Cache, es: seq<Event>): Cache {
    if es == [] then c else Step(Run(c, es[..|es| - 1]), es[|es| - 1])
  }

  /** The times of the failures of one key that were counted. */
  function Failures(c: Cache, es: seq<Event>, key: string): seq<nat> {
    if es == [] then []
    else
      var before, e := es[..|es| - 1], es[|es| - 1];
      Failures(c, before, key) + if Counted(Run(c, before), e, key) then [e.now] else []
  }

  /** Time does not go back. */
  predicate Timed(es: seq<Event>) {
    forall i, j :: 0 <= i < j < |es| ==> es[i].now <= es[j].now
  }

  /** How many of the last failures follow one another without a pause longer than the expiration. */
  function Chain(ts: seq<nat>): nat {
    if |ts| <= 1 then |ts|
    else if ts[|ts| - 1] - ts[|ts| - 2] <= LOCK_EXPIRATION then Chain(ts[..|ts| - 1]) + 1
    else 1
  }

  /** From an empty cache the counter is the history's: it stands at one more than the chain of failures until
      the expiration after the last of them. */
  ghost predicate Tells(c: Cache, ts: seq<nat>, key: string, now: nat) {
    && Chain(ts) <= LIMIT - 1
    && (ts == [] ==> key !in c)
    && (ts != [] ==> ts[|ts| - 1] <= now)
    && (ts != [] && now <= ts[|ts| - 1] + LOCK_EXPIRATION ==>
          key in c && c[key] == Counter(Chain(ts) + 1, ts[|ts| - 1] + LOCK_EXPIRATION))
    && (ts != [] && key in c ==> c[key].expiry == ts[|ts| - 1] + LOCK_EXPIRATION)
  }

  lemma StepTells(c: Cache, ts: seq<nat>, key: string, now: nat, e: Event)
    requires Tells(c, ts, key, now) && now <= e.now
    ensures Tells(Step(c, e), ts + if Counted(c, e, key) then [e.now] else [], key, e.now)
  {
    if Counted(c, e, key) {
      var ts' := ts + [e.now];
      assert ts'[..|ts' | - 1] == ts;
    } else {
      assert ts + [] == ts;
    }
  }

  lemma {:induction false} RunTells(es: seq<Event>, key: string)
    requires Timed(es)
    ensures Tells(Run(map[], es), Failures(map[], es, key), key, if es == [] then 0 else es[|es| - 1].now)
  {
    if es == [] {
    } else {
      var before := es[..|es| - 1];
      RunTells(before, key);
      var now := if before == [] then 0 else before[|before| - 1].now;
      StepTells(Run(map[], before), Failures(map[], before, key), key, now, es[|es| - 1]);
    }
  }

  /** Whether the next attempt is refused is decided by the counted failures alone: it is refused exactly when
      the last four follow one another without a longer pause and the pause since is no longer either. */
  lemma RefusedExactly(es: seq<Event>, key: string, now: nat)
    requires Timed(es) && (es != [] ==> es[|es| - 1].now <= now)
    ensures var ts := Failures(map[], es, key);
            Locked(Run(map[], es), key, now)
            <==> ts != [] && Chain(ts) >= LIMIT - 1 && now <= ts[|ts| - 1] + LOCK_EXPIRATION
  {
    RunTells(es, key);
  }

  lemma {:induction false} FailuresPrefix(es: seq<Event>, key: string, n: nat)
    requires n <= |Failures(map[], es, key)|
    ensures exists k :: 0 <= k <= |es| && Failures(map[], es[..k], key) == Failures(map[], es, key)[..n]
  {
    var ts := Failures(map[], es, key);
    if n == |ts| {
      assert es[..|es|] == es && ts[..n] == ts;
    } else {
      var before := es[..|es| - 1];
      FailuresPrefix(before, key, n);
      var k :| 0 <= k <= |before| && Failures(map[], before[..k], key) == Failures(map[], before, key)[..n];
      assert before[..k] == es[..k] && Failures(map[], before, key)[..n] == ts[..n];
    }
  }

  lemma ShortChains(es: seq<Event>, key: string, n: nat)
    requires Timed(es) && n <= |Failures(map[], es, key)|
    ensures Chain(Failures(map[], es, key)[..n]) < LIMIT
  {
    FailuresPrefix(es, key, n);
    var k :| 0 <= k <= |es| && Failures(map[], es[..k], key) == Failures(map[], es, key)[..n];
    RunTells(es[..k], key);
  }

  predicate Ordered(ts: seq<nat>) {
    forall i, j :: 0 <= i < j < |ts| ==> ts[i] <= ts[j]
  }

  predicate UpTo(ts: seq<nat>, now: nat) {
    forall i :: 0 <= i < |ts| ==> ts[i] <= now
  }

  lemma {:induction false} FailuresTimed(es: seq<Event>, key: string)
    requires Timed(es)
    ensures Ordered(Failures(map[], es, key))
    ensures es != [] ==> UpTo(Failures(map[], es, key), es[|es| - 1].now)
  {
    if es == [] {
    } else {
      var before, e := es[..|es| - 1], es[|es| - 1];
      FailuresTimed(before, key);
      if before != [] {
        assert before[|before| - 1] == es[|es| - 2] && es[|es| - 2].now <= e.now;
      }
      assert UpTo(Failures(map[], before, key), e.now);
    }
  }

  /** Failures with no long pause among them make a chain. */
  lemma {:induction false} LongChain(ts: seq<nat>, n: nat)
    requires 1 <= n <= |ts| && Ordered(ts) && ts[|ts| - 1] - ts[|ts| - n] <= LOCK_EXPIRATION
    ensures Chain(ts) >= n
  {
    if n == 1 {
    } else {
      LongChain(ts[..|ts| - 1], n - 1);
    }
  }

  /** In every timed sequence of attempts of both callers on any keys, any five consecutive counted failures of
      one key span more than five minutes: at most four fall into any closed window of that length. */
  lemma AtMostFour(es: seq<Event>, key: string, i: nat)
    requires Timed(es) && i + 4 < |Failures(map[], es, key)|
    ensures var ts := Failures(map[], es, key); ts[i + 4] > ts[i] + 300
  {
    var ts := Failures(map[], es, key);
    FailuresTimed(es, key);
    ShortChains(es, key, i + 5);
    assert Ordered(ts[..i + 5]);
    if ts[i + 4] - ts[i] <= LOCK_EXPIRATION {
      LongChain(ts[..i + 5], 5);
    }
  }

  /** Four do: failures one moment after the other are counted until the fourth, and the fifth is refused. */
  lemma FourThenRefused(key: string, now: nat)
    ensures var es := seq(4, i => Try(key, now, true));
            && Failures(map[], es, key) == [now, now, now, now]
            && Locked(Run(map[], es), key, now + 300)
            && !Locked(Run(map[], es), key, now + 301)
  {
    var e := Try(key, now, true);
    var e1, e2, e3, e4 := [e], [e, e], [e, e, e], [e, e, e, e];
    var c1 := Fail(map[], key, now);
    var c2 := Fail(c1, key, now);
    var c3 := Fail(c2, key, now);
    assert e1[..0] == [] && e2[..1] == e1 && e3[..2] == e2 && e4[..3] == e3;
    assert Run(map[], []) == map[];
    assert Run(map[], e1) == c1 && Failures(map[], e1, key) == [now];
    assert Run(map[], e2) == c2 && Failures(map[], e2, key) == [now, now];
    assert Run(map[], e3) == c3 && Failures(map[], e3, key) == [now, now, now];
    assert seq(4, i => Try(key, now, true)) == e4;
  }

  /** Nothing separates address and name in a key: a name that starts with digits can move into the address. Two
      pairs, the first with the shorter address, share a key exactly when the addresses differ at most in further
      digits of the last octet and the first name has these digits before the second. */
  lemma SharedKeyExactly(o: IpGroups.Octets, name: string, p: IpGroups.Octets, name': string)
    requires |IpGroups.Dotted(o)| <= |IpGroups.Dotted(p)|
    ensures IpGroups.Dotted(o) + name == IpGroups.Dotted(p) + name' <==>
            && o.a == p.a && o.b == p.b && o.c == p.c
            && Itoa(o.d) <= Itoa(p.d) && name == Itoa(p.d)[|Itoa(o.d)|..] + name'
  {
    var x, y := IpGroups.Dotted(o), IpGroups.Dotted(p);
    if o.a == p.a && o.b == p.b && o.c == p.c && Itoa(o.d) <= Itoa(p.d) {
      var digits := Itoa(p.d)[|Itoa(o.d)|..];
      LastOctet(o, p, digits);
      SharedText(x, digits, name, name');
    }
    if x + name == y + name' {
      assert x == (y + name')[..|x|] && y == (x + name)[..|y|];
      var digits := y[|x|..];
      assert y == x + digits;
      SameButLast(o, p, digits);
      LastOctet(o, p, digits);
      SharedText(x, digits, name, name');
    }
  }

  lemma SharedText(x: string, digits: string, name: string, name': string)
    ensures x + name == x + digits + name' <==> name == digits + name'
  {
    assert x + digits + name' == x + (digits + name');
    SameAfter(x, name, digits + name');
  }

  /** Dotted addresses that agree but for further digits at the end. */
  lemma LastOctet(o: IpGroups.Octets, p: IpGroups.Octets, digits: string)
    requires o.a == p.a && o.b == p.b && o.c == p.c
    ensures IpGroups.Dotted(p) == IpGroups.Dotted(o) + digits <==> Itoa(p.d) == Itoa(o.d) + digits
  {
    var front := Itoa(o.a) + "." + (Itoa(o.b) + "." + (Itoa(o.c) + "."));
    LastOctetText(Itoa(o.a), Itoa(o.b), Itoa(o.c), Itoa(o.d));
    LastOctetText(Itoa(o.a), Itoa(o.b), Itoa(o.c), Itoa(p.d));
    assert front + Itoa(o.d) + digits == front + (Itoa(o.d) + digits);
    SameAfter(front, Itoa(p.d), Itoa(o.d) + digits);
  }

  lemma LastOctetText(a: string, b: string, c: string, d: string)
    ensures Join([a, b, c, d], ".") == a + "." + (b + "." + (c + ".")) + d
  {
    AddressLists.DottedText(a, b, c, d);
  }

  lemma SameButLast(o: IpGroups.Octets, p: IpGroups.Octets, digits: string)
    requires IpGroups.Dotted(p) == IpGroups.Dotted(o) + digits
    ensures o.a == p.a && o.b == p.b && o.c == p.c
  {
    IpGroups.SplitDotted(o);
    IpGroups.SplitDotted(p);
    SplitCountAppend(IpGroups.Dotted(o), digits);
    var x := Split(IpGroups.Dotted(o), '.');
    assert Split(IpGroups.Dotted(p), '.')[..3] == x[..3];
    assert Itoa(o.a) == x[0] == Itoa(p.a) && Itoa(o.b) == x[1] == Itoa(p.b) && Itoa(o.c) == x[2] == Itoa(p.c);
    ItoaInjective(o.a, p.a);
    ItoaInjective(o.b, p.b);
    ItoaInjective(o.c, p.c);
  }

  lemma ItoaInjective(m: nat, n: nat)
    requires Itoa(m) == Itoa(n)
    ensures m == n
  {
    ParseItoa(m);
    ParseItoa(n);
  }

  /** All pieces but the last are those of the longer text. */
  lemma {:induction false} SplitCountAppend(s: string, more: string)
    ensures SameButLastPiece(Split(s, '.'), Split(s + more, '.'))
  {
    if s == "" {
    } else {
      assert (s + more)[1..] == s[1..] + more;
      SplitCountAppend(s[1..], more);
      PieceInFront(s[0], Split(s[1..], '.'), Split(s[1..] + more, '.'));
    }
  }

  predicate SameButLastPiece(a: seq<string>, b: seq<string>) {
    0 < |a| <= |b| && a[..|a| - 1] == b[..|a| - 1]
  }

  lemma PieceInFront(c: char, a: seq<string>, b: seq<string>)
    requires SameButLastPiece(a, b)
    ensures SameButLastPiece([""] + a, [""] + b)
    ensures SameButLastPiece([[c] + a[0]] + a[1..], [[c] + b[0]] + b[1..])
  {
    forall k | 0 <= k < |a| - 1 ensures a[k] == b[k] {
      assert a[..|a| - 1][k] == b[..|a| - 1][k];
    }
  }

  /** Attempts on other keys do not touch a key's counter. */
  lemma OtherKeys(c: Cache, e: Event, key: string, now: nat)
    requires e.now <= now && (e.Try? ==> e.key != key)
    ensures Count(Step(c, e), key, now) == Count(c, key, now)
  {}
}
