/** Marking every unreviewed session as reviewed, in batches. */
module SessionReview {

  function Concat(batches: seq<seq<string>>): seq<string> {
    if batches == [] then [] else Concat(batches[..|batches| - 1]) + batches[|batches| - 1]
  }

  lemma ConcatSnoc(batches: seq<seq<string>>, batch: seq<string>)
    ensures Concat(batches + [batch]) == Concat(batches) + batch
  {}

  function FullSize(k: nat): nat {
    if k == 0 then 101 else 100
  }

  ghost predicate AllFull(batches: seq<seq<string>>) {
    forall k :: 0 <= k < |batches| ==> |batches[k]| == FullSize(k)
  }

  /** All batches but the last are full, and the last is neither empty nor too large. */
  ghost predicate Sized(batches: seq<seq<string>>) {
    && (forall k :: 0 <= k < |batches| - 1 ==> |batches[k]| == FullSize(k))
    && (batches != [] ==> 0 < |batches[|batches| - 1]| <= FullSize(|batches| - 1))
  }

  /** Before the i-th id: full batches and a carry that is not full. */
  ghost predicate Carried(ids: seq<string>, i: nat, batches: seq<seq<string>>, carry: seq<string>) {
    && i <= |ids| && Concat(batches) + carry == ids[..i]
    && AllFull(batches) && |carry| < FullSize(|batches|)
    && i == |carry| + if batches == [] then 0 else 100 * |batches| + 1
  }

  predicate Boundary(i: nat) {
    i >= 100 && i % 100 == 0
  }

  /** The carry becomes full exactly at the boundaries. */
  lemma FullAtBoundary(ids: seq<string>, i: nat, batches: seq<seq<string>>, carry: seq<string>)
    requires Carried(ids, i, batches, carry)
    ensures |carry| + 1 == FullSize(|batches|) <==> Boundary(i)
  {}

  lemma CarryOne(ids: seq<string>, i: nat, batches: seq<seq<string>>, carry: seq<string>)
    requires Carried(ids, i, batches, carry) && i < |ids|
    ensures Concat(batches) + (carry + [ids[i]]) == ids[..i + 1]
    ensures !Boundary(i) ==> Carried(ids, i + 1, batches, carry + [ids[i]])
  {
    FullAtBoundary(ids, i, batches, carry);
    assert ids[..i + 1] == ids[..i] + [ids[i]];
    assert Concat(batches) + (carry + [ids[i]]) == Concat(batches) + carry + [ids[i]];
  }

  lemma FlushFull(ids: seq<string>, i: nat, batches: seq<seq<string>>, carry: seq<string>)
    requires Carried(ids, i, batches, carry) && i < |ids| && Boundary(i)
    ensures Carried(ids, i + 1, batches + [carry + [ids[i]]], [])
  {
    CarryOne(ids, i, batches, carry);
    FullAtBoundary(ids, i, batches, carry);
    ConcatSnoc(batches, carry + [ids[i]]);
    assert Concat(batches + [carry + [ids[i]]]) + [] == ids[..i + 1];
  }

  lemma FlushLast(ids: seq<string>, i: nat, batches: seq<seq<string>>, carry: seq<string>)
    requires Carried(ids, i, batches, carry) && i + 1 == |ids|
    ensures Concat(batches + [carry + [ids[i]]]) == ids && Sized(batches + [carry + [ids[i]]])
  {
    CarryOne(ids, i, batches, carry);
    FullAtBoundary(ids, i, batches, carry);
    ConcatSnoc(batches, carry + [ids[i]]);
    assert ids[..i + 1] == ids;
  }

  lemma WholeBatches(ids: seq<string>, i: nat, batches: seq<seq<string>>, carry: seq<string>)
    requires Carried(ids, i, batches, carry)
    ensures Concat(batches) <= ids && Sized(batches)
  {
    assert Concat(batches) <= ids[..i];
  }

  /** The ids go out in order, none lost or repeated, whatever their number. The first full batch has 101
      ids and the later ones 100; only the last may be smaller. A failing update ends the loop after a
      whole number of batches. */
  method ReviewedAll(ids: seq<string>, updateOk: nat -> bool) returns (ok: bool, batches: seq<seq<string>>)
    ensures Concat(batches) <= ids && Sized(batches)
    ensures ok ==> Concat(batches) == ids
    ensures forall k :: 0 <= k < |batches| ==> updateOk(k)
    ensures !ok ==> !updateOk(|batches|)
    ensures forall k :: 0 <= k < |batches| - 1 ==> |batches[k]| == if k == 0 then 101 else 100
    ensures forall k :: 0 <= k < |batches| ==> 0 < |batches[k]| <= if k == 0 then 101 else 100
  {
    batches := [];
    var sessionIds: seq<string> := [];
    var total := |ids|;
    for i := 0 to total
      invariant i < total ==> Carried(ids, i, batches, sessionIds)
      invariant i == total ==> Concat(batches) == ids && Sized(batches)
      invariant forall k :: 0 <= k < |batches| ==> updateOk(k)
    {
      ghost var carry := sessionIds;
      WholeBatches(ids, i, batches, carry);
      if i == total - 1 {
        FlushLast(ids, i, batches, carry);
      }
      sessionIds := sessionIds + [ids[i]];
      if i >= 100 && i % 100 == 0 {
        FlushFull(ids, i, batches, carry);
        if !updateOk(|batches|) {
          return false, batches;
        }
        batches := batches + [sessionIds];
        sessionIds := [];
      } else {
        CarryOne(ids, i, batches, carry);
        if i == total - 1 {
          if !updateOk(|batches|) {
            return false, batches;
          }
          batches := batches + [sessionIds];
        }
      }
    }
    ok := true;
  }
}
