/** Sequences without repetition. */
module Lists {

  predicate NoDup<T(==)>(q: seq<T>)
  {
    forall i, j | 0 <= i < j < |q| :: q[i] != q[j]
  }

  /** A concatenation has none when its parts have none and share nothing. */
  lemma Parts<T>(a: seq<T>, b: seq<T>)
    ensures NoDup(a + b) <==> NoDup(a) && NoDup(b) && forall x | x in a :: x !in b
  {
    var c := a + b;
    assert forall k | 0 <= k < |a| :: c[k] == a[k];
    assert forall k | 0 <= k < |b| :: c[|a| + k] == b[k];
    if NoDup(c) {
      forall x | x in a ensures x !in b {
        var k :| 0 <= k < |a| && a[k] == x;
        assert forall l | 0 <= l < |b| :: b[l] != c[k];
      }
      assert forall k, l | 0 <= k < l < |b| :: b[k] != b[l];
    } else {
      var k, l :| 0 <= k < l < |c| && c[k] == c[l];
      if k < |a| <= l {
        assert a[k] in a && b[l - |a|] in b;
      } else if |a| <= k {
        assert b[k - |a|] == b[l - |a|];
      }
    }
  }
}
