/** Binary search as in sort.Search: the first index from which a condition holds, if the condition is monotone. */
module BinarySearch {

  /** truth[i] is the answer of the searched condition at i. */
  ghost predicate Monotone(truth: seq<bool>)
  {
    forall i, j :: 0 <= i < j < |truth| && truth[i] ==> truth[j]
  }

  method Search(truth: seq<bool>) returns (i: nat)
    ensures i <= |truth|
    ensures Monotone(truth) ==> (forall j :: 0 <= j < i ==> !truth[j]) && (forall j :: i <= j < |truth| ==> truth[j])
  {
    var j := |truth|;
    i := 0;
    while i < j
      invariant 0 <= i <= j <= |truth|
      invariant Monotone(truth) ==> (forall k :: 0 <= k < i ==> !truth[k]) && (forall k :: j <= k < |truth| ==> truth[k])
    {
      var h := (i + j) / 2;
      if !truth[h] {
        i := h + 1;
      } else {
        j := h;
      }
    }
  }
}
