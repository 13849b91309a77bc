/**
 * `np.argsort(boxes[:, 4])`: the indices of the detections in ascending order of confidence.
 * Ties are broken by original position (a stable sort), so the order is a function of the scores.
 */
module Ordering {

  /** Detection i is visited before detection j: lower score, or equal score and earlier index. */
  predicate Precedes(scores: seq<real>, i: nat, j: nat)
    requires i < |scores| && j < |scores|
  {
    scores[i] < scores[j] || (scores[i] == scores[j] && i < j)
  }

  predicate IndicesBelow(order: seq<nat>, n: nat)
  {
    forall p :: 0 <= p < |order| ==> order[p] < n
  }

  /** Every index of `order` precedes every later one. */
  predicate Ascending(scores: seq<real>, order: seq<nat>)
    requires IndicesBelow(order, |scores|)
  {
    forall p, q :: 0 <= p < q < |order| ==> Precedes(scores, order[p], order[q])
  }

  /** Puts index x in front of the first index it precedes. */
  function Insert(scores: seq<real>, x: nat, order: seq<nat>): (r: seq<nat>)
    requires x < |scores| && IndicesBelow(order, |scores|)
    ensures |r| == |order| + 1 && IndicesBelow(r, |scores|)
    ensures forall p :: 0 <= p < |r| ==> r[p] == x || r[p] in order
    ensures x in r && forall e :: e in order ==> e in r
  {
    if order == [] then [x]
    else if Precedes(scores, x, order[0]) then [x] + order
    else assert order == [order[0]] + order[1..]; [order[0]] + Insert(scores, x, order[1..])
  }

  /** Insertion sort of the first n indices. */
  function ArgSortUpTo(scores: seq<real>, n: nat): (r: seq<nat>)
    requires n <= |scores|
    ensures |r| == n && IndicesBelow(r, n)
    ensures forall i :: 0 <= i < n ==> i in r
  {
    if n == 0 then []
    else
      Insert(scores, n - 1, ArgSortUpTo(scores, n - 1))
  }

  function ArgSort(scores: seq<real>): (r: seq<nat>)
    ensures |r| == |scores| && IndicesBelow(r, |scores|)
    ensures forall i :: 0 <= i < |scores| ==> i in r
  {
    ArgSortUpTo(scores, |scores|)
  }

  // ---------------------------------------------------------------------------------------
  // Lemmas

  lemma {:induction false} InsertAscending(scores: seq<real>, x: nat, order: seq<nat>)
    requires x < |scores| && IndicesBelow(order, |scores|)
    requires Ascending(scores, order) && x !in order
    ensures Ascending(scores, Insert(scores, x, order))
    decreases |order|
  {
    if order == [] {
    } else if Precedes(scores, x, order[0]) {
      var r := [x] + order;
      forall q | 0 < q < |r| ensures Precedes(scores, x, r[q]) {
        assert r[q] == order[q - 1];
        if q > 1 { assert Precedes(scores, order[0], order[q - 1]); }
      }
      assert forall p, q :: 0 < p < q < |r| ==> r[p] == order[p - 1] && r[q] == order[q - 1];
    } else {
      var rest := order[1..];
      assert forall p :: 0 <= p < |rest| ==> rest[p] == order[p + 1];
      InsertAscending(scores, x, rest);
      var tail := Insert(scores, x, rest);
      assert Precedes(scores, order[0], x);
      forall q | 0 <= q < |tail| ensures Precedes(scores, order[0], tail[q]) {
        if tail[q] != x {
          var p :| 0 <= p < |rest| && rest[p] == tail[q];
          assert Precedes(scores, order[0], order[p + 1]);
        }
      }
      var r := [order[0]] + tail;
      assert forall q :: 0 < q < |r| ==> r[q] == tail[q - 1];
    }
  }

  lemma {:induction false} ArgSortUpToAscending(scores: seq<real>, n: nat)
    requires n <= |scores|
    ensures Ascending(scores, ArgSortUpTo(scores, n))
  {
    if n > 0 {
      var prev := ArgSortUpTo(scores, n - 1);
      ArgSortUpToAscending(scores, n - 1);
      assert n - 1 !in prev;
      InsertAscending(scores, n - 1, prev);
    }
  }

  /** Inserting adds exactly one occurrence of x, even when `order` repeats an index. */
  lemma {:induction false} InsertAddsExactly(scores: seq<real>, x: nat, order: seq<nat>)
    requires x < |scores| && IndicesBelow(order, |scores|)
    ensures multiset(Insert(scores, x, order)) == multiset(order) + multiset{x}
    decreases |order|
  {
    if order != [] && !Precedes(scores, x, order[0]) {
      assert order == [order[0]] + order[1..];
      InsertAddsExactly(scores, x, order[1..]);
    }
  }

  /** The sort visits detections in ascending confidence, ties in original order. */
  lemma ArgSortAscending(scores: seq<real>)
    ensures Ascending(scores, ArgSort(scores))
  {
    ArgSortUpToAscending(scores, |scores|);
  }

  /** ArgSort is a permutation of the indices: each index appears exactly once. */
  lemma ArgSortPermutation(scores: seq<real>, i: nat)
    requires i < |scores|
    ensures exists p :: 0 <= p < |ArgSort(scores)| && ArgSort(scores)[p] == i
    ensures forall p, q :: 0 <= p < q < |ArgSort(scores)| ==> ArgSort(scores)[p] != ArgSort(scores)[q]
  {
    var r := ArgSort(scores);
    assert i in r;
    var p :| 0 <= p < |r| && r[p] == i;
    ArgSortAscending(scores);
  }

  /** Scores are non-decreasing along the visiting order. */
  lemma ArgSortScoresNonDecreasing(scores: seq<real>, p: nat, q: nat)
    requires p <= q < |ArgSort(scores)|
    ensures scores[ArgSort(scores)[p]] <= scores[ArgSort(scores)[q]]
  {
    ArgSortAscending(scores);
  }
}
