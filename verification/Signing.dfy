/** Sign: sort, concatenate, hash. The ids it is given are UUIDs, the fixed id of the super administrator,
    and empty strings; on these the sorted concatenation tells different grants apart. */
module Signing {

  const SUPER_ADMIN := "abcdefghijklmnopqrstuvwxyz"

  predicate Leq(a: string, b: string) {
    if a == "" then true
    else if b == "" then false
    else a[0] < b[0] || (a[0] == b[0] && Leq(a[1..], b[1..]))
  }

  function Insert(x: string, xs: seq<string>): seq<string> {
    if xs == [] || Leq(x, xs[0]) then [x] + xs else [xs[0]] + Insert(x, xs[1..])
  }

  /** sort.Strings. */
  function Sort(xs: seq<string>): seq<string> {
    if xs == [] then [] else Insert(xs[0], Sort(xs[1..]))
  }

  function Concat(xs: seq<string>): string {
    if xs == [] then "" else xs[0] + Concat(xs[1..])
  }

  /** What is hashed. */
  function PreImage(xs: seq<string>): string {
    Concat(Sort(xs))
  }

  predicate HexDigit(c: char) {
    '0' <= c <= '9' || 'a' <= c <= 'f' || c == '-'
  }

  predicate IsUuid(s: string) {
    |s| == 36 && forall k :: 0 <= k < 36 ==> HexDigit(s[k])
  }

  predicate IsUserId(s: string) {
    IsUuid(s) || s == SUPER_ADMIN
  }

  predicate Sorted(xs: seq<string>) {
    forall i, j :: 0 <= i < j < |xs| ==> Leq(xs[i], xs[j])
  }

  lemma {:induction false} LeqTotal(a: string, b: string)
    ensures Leq(a, b) || Leq(b, a)
  {
    if a != "" && b != "" {
      LeqTotal(a[1..], b[1..]);
    }
  }

  lemma {:induction false} LeqTransitive(a: string, b: string, c: string)
    requires Leq(a, b) && Leq(b, c)
    ensures Leq(a, c)
  {
    if a != "" && b != "" && c != "" && a[0] == b[0] == c[0] {
      LeqTransitive(a[1..], b[1..], c[1..]);
    }
  }

  lemma {:induction false} InsertSorts(x: string, xs: seq<string>)
    requires Sorted(xs)
    ensures Sorted(Insert(x, xs)) && multiset(Insert(x, xs)) == multiset(xs) + multiset{x}
  {
    if xs == [] || Leq(x, xs[0]) {
      forall j | 0 <= j < |xs| && Leq(x, xs[0]) ensures Leq(x, xs[j]) {
        if j > 0 {
          LeqTransitive(x, xs[0], xs[j]);
        }
      }
    } else {
      var rest := Insert(x, xs[1..]);
      LeqTotal(x, xs[0]);
      InsertSorts(x, xs[1..]);
      assert xs == [xs[0]] + xs[1..];
      forall j | 0 <= j < |rest| ensures Leq(xs[0], rest[j]) {
        assert rest[j] in multiset(rest);
        assert rest[j] == x || rest[j] in xs[1..];
      }
    }
  }

  /** What is hashed are the ids in order: it does not matter how they are listed. */
  lemma {:induction false} SortExactly(xs: seq<string>)
    ensures Sorted(Sort(xs)) && multiset(Sort(xs)) == multiset(xs)
  {
    if xs == [] {
    } else {
      var first, rest := xs[0], xs[1..];
      SortExactly(rest);
      InsertSorts(first, Sort(rest));
      assert xs == [first] + rest;
      assert multiset([first] + rest) == multiset{first} + multiset(rest);
    }
  }

  /** The pre-image of two ids and an empty string. */
  function Pair(a: string, x: string): string {
    if Leq(a, x) then a + x else x + a
  }

  lemma {:induction false} InsertLength(x: string, xs: seq<string>)
    ensures |Concat(Insert(x, xs))| == |x| + |Concat(xs)|
  {
    if xs == [] || Leq(x, xs[0]) {
      assert ([x] + xs)[1..] == xs;
    } else {
      InsertLength(x, xs[1..]);
      assert ([xs[0]] + Insert(x, xs[1..]))[1..] == Insert(x, xs[1..]);
    }
  }

  lemma SortTriple(a: string, u: string, g: string)
    ensures Sort([a, u, g]) == Insert(a, Insert(u, [g]))
  {
    assert [g][1..] == [] && Sort([g]) == [g];
    assert [u, g][1..] == [g] && Sort([u, g]) == Insert(u, [g]);
    assert [a, u, g][1..] == [u, g];
  }

  lemma ConcatTwo(x: string, y: string)
    ensures Concat([x, y]) == x + y
  {
    assert [y][1..] == [] && Concat([y]) == y;
    assert [x, y][1..] == [y];
  }

  lemma TripleLength(a: string, u: string, g: string)
    ensures |PreImage([a, u, g])| == |a| + |u| + |g|
  {
    SortTriple(a, u, g);
    assert [g][1..] == [] && Concat([g]) == g;
    InsertLength(u, [g]);
    InsertLength(a, Insert(u, [g]));
  }

  lemma PairOf(a: string, x: string)
    requires a != "" && x != ""
    ensures PreImage([a, x, ""]) == Pair(a, x) == PreImage([a, "", x])
  {
    SortTriple(a, x, "");
    SortTriple(a, "", x);
    assert [""][1..] == [] && Insert(x, []) == [x];
    assert Insert(x, [""]) == ["", x] && Insert("", [x]) == ["", x];
    var rest := if Leq(a, x) then [a, x] else [x, a];
    assert [x][1..] == [] && Insert(a, []) == [a];
    assert Insert(a, [x]) == rest;
    assert ["", x][1..] == [x] && Insert(a, ["", x]) == [""] + rest;
    assert ([""] + rest)[1..] == rest;
    ConcatTwo(a, x);
    ConcatTwo(x, a);
    assert Concat([""] + rest) == "" + Pair(a, x) == Pair(a, x);
  }

  /** Two UUIDs: the concatenation determines the pair. */
  lemma PairInjectiveUuid(a: string, x: string, b: string, y: string)
    requires IsUuid(a) && IsUuid(x) && IsUuid(b) && IsUuid(y) && Pair(a, x) == Pair(b, y)
    ensures (a == b && x == y) || (a == y && x == b)
  {
    var p := Pair(a, x);
    assert p[..36] == (if Leq(a, x) then a else x) && p[36..] == (if Leq(a, x) then x else a);
    assert p[..36] == (if Leq(b, y) then b else y) && p[36..] == (if Leq(b, y) then y else b);
  }

  /** A UUID and the super administrator's id share no concatenation the two ways round: that id has
      letters no UUID has. */
  lemma SuperMismatch(a: string, b: string)
    requires IsUuid(a) && IsUuid(b)
    ensures a + SUPER_ADMIN != SUPER_ADMIN + b
  {
    var s := SUPER_ADMIN;
    assert s[6] == 'g' && !HexDigit(s[6]);
    assert (a + s)[6] == a[6] && (s + b)[6] == s[6];
  }

  lemma PairInjectiveSuper(a: string, b: string)
    requires IsUuid(a) && IsUuid(b) && Pair(a, SUPER_ADMIN) == Pair(b, SUPER_ADMIN)
    ensures a == b
  {
    var p, s := Pair(a, SUPER_ADMIN), SUPER_ADMIN;
    SuperMismatch(a, b);
    SuperMismatch(b, a);
    if Leq(a, s) {
      assert p[..36] == a && p[..36] == b;
    } else {
      assert p[26..] == a && p[26..] == b;
    }
  }
}
