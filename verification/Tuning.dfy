/** Choices made when a queue is configured and started: the order of the completion thresholds,
    the thresholds next to the chosen one, and the size of the completion ring. */
module Tuning {
  import opened Lists

  // ---- the order of the thresholds ----

  /** Eligible in a round: not the index picked last, and not below its value. */
  predicate Candidate(vals: seq<nat>, last: int, least: nat, i: nat)
  {
    i < |vals| && i != last && vals[i] >= least
  }

  /** The last index among those of the least eligible value. */
  ghost predicate IsNext(vals: seq<nat>, last: int, least: nat, idx: nat)
  {
    && Candidate(vals, last, least, idx)
    && forall i: nat | Candidate(vals, last, least, i) :: vals[idx] <= vals[i] && (vals[i] == vals[idx] ==> i <= idx)
  }

  /** The index picked before round `k`, and its value. */
  function Last(p: seq<nat>, k: nat): int
    requires k <= |p|
  {
    if k == 0 then -1 else p[k - 1]
  }

  function Least(vals: seq<nat>, p: seq<nat>, k: nat): nat
    requires k <= |p| && InRange(vals, p)
  {
    if k == 0 then 0 else vals[p[k - 1]]
  }

  predicate InRange(vals: seq<nat>, p: seq<nat>)
  {
    forall k | 0 <= k < |p| :: p[k] < |vals|
  }

  ghost predicate Link(vals: seq<nat>, p: seq<nat>, k: nat)
    requires k < |p| && InRange(vals, p)
  {
    IsNext(vals, Last(p, k), Least(vals, p, k), p[k])
  }

  ghost predicate Chain(vals: seq<nat>, p: seq<nat>)
  {
    InRange(vals, p) && forall k {:trigger Link(vals, p, k)} | 0 <= k < |p| :: Link(vals, p, k)
  }

  /** The only equal values are two that are the greatest. */
  predicate OnlyTopPair(vals: seq<nat>)
  {
    forall i, j | 0 <= i < j < |vals| && vals[i] == vals[j] ::
      forall l | 0 <= l < |vals| :: vals[l] <= vals[i] && (l != i && l != j ==> vals[l] != vals[i])
  }

  /** `qdma_sort_c2h_cntr_th_values`: repeatedly pick the least value not below the last. */
  method SortThresholds(vals: seq<nat>) returns (p: array<nat>)
    requires vals != []
    ensures fresh(p) && p.Length == |vals| && Chain(vals, p[..])
  {
    p := new nat[|vals|](_ => 0);
    var j, last: int, least := 0, -1, 0;
    while j < |vals|
      invariant j <= |vals| && Chain(vals, p[..j])
      invariant last == Last(p[..j], j) && least == Least(vals, p[..j], j)
    {
      EveryRoundPicks(vals, p[..j]);
      var idx := PickNext(vals, last, least);
      p[j] := idx;
      assert p[..j + 1] == p[..j] + [idx];
      ChainMore(vals, p[..j], idx);
      last, least := idx, vals[idx];
      j := j + 1;
    }
    assert p[..] == p[..j];
  }

  /** One round, in two loops: the first eligible index, then the last of the least. */
  method PickNext(vals: seq<nat>, last: int, least: nat) returns (idx: nat)
    requires exists i: nat :: Candidate(vals, last, least, i)
    ensures IsNext(vals, last, least, idx)
  {
    var i := 0;
    while i < |vals| && !(i != last && vals[i] >= least)
      invariant i <= |vals| && forall l | 0 <= l < i :: !Candidate(vals, last, least, l)
    {
      i := i + 1;
    }
    idx := i;
    while i < |vals|
      invariant idx <= i <= |vals| && Candidate(vals, last, least, idx)
      invariant forall l | 0 <= l < i && Candidate(vals, last, least, l) ::
                  vals[idx] <= vals[l] && (vals[l] == vals[idx] ==> l <= idx)
    {
      if i != last && vals[i] >= least && vals[idx] >= vals[i] {
        idx := i;
      }
      i := i + 1;
    }
  }

  lemma ChainMore(vals: seq<nat>, p: seq<nat>, idx: nat)
    requires Chain(vals, p)
    requires IsNext(vals, Last(p, |p|), Least(vals, p, |p|), idx)
    ensures Chain(vals, p + [idx])
  {
    hide IsNext;
    var q := p + [idx];
    assert idx < |vals| by { Picked(vals, Last(p, |p|), Least(vals, p, |p|), idx); }
    forall k | 0 <= k < |q| ensures Link(vals, q, k) {
      if k < |p| {
        assert Link(vals, p, k);
      }
    }
  }

  lemma Picked(vals: seq<nat>, last: int, least: nat, idx: nat)
    requires IsNext(vals, last, least, idx)
    ensures Candidate(vals, last, least, idx)
  {
  }

  /** Everything below the value picked in a round was picked before. */
  lemma {:induction false} BelowIsPicked(vals: seq<nat>, p: seq<nat>, k: nat, i: nat)
    requires Chain(vals, p) && k < |p| && i < |vals| && vals[i] < vals[p[k]]
    ensures i in p[..k]
  {
    assert Link(vals, p, k);
    assert !Candidate(vals, Last(p, k), Least(vals, p, k), i);
    if i == Last(p, k) {
      assert p[..k][k - 1] == i;
    } else {
      BelowIsPicked(vals, p, k - 1, i);
      assert p[..k - 1] <= p[..k];
    }
  }

  /** A sequence cannot hold more distinct indices than it is long. */
  lemma {:induction false} Pigeonhole(xs: set<nat>, p: seq<nat>)
    requires forall i | i in xs :: i in p
    ensures |xs| <= |p|
  {
    if p != [] {
      Pigeonhole(xs - {p[0]}, p[1..]);
    } else {
      assert xs == {};
    }
  }

  function Indices(n: nat): (r: set<nat>)
    ensures |r| == n && forall i: nat :: i in r <==> i < n
  {
    if n == 0 then {} else Indices(n - 1) + {n - 1}
  }

  lemma EveryRoundPicks(vals: seq<nat>, p: seq<nat>)
    requires Chain(vals, p) && |p| < |vals|
    ensures var last, least := Last(p, |p|), Least(vals, p, |p|); exists i: nat :: Candidate(vals, last, least, i)
  {
    var last, least := Last(p, |p|), Least(vals, p, |p|);
    if p == [] {
      assert Candidate(vals, last, least, 0);
    } else if forall i: nat :: !Candidate(vals, last, least, i) {
      forall i | i in Indices(|vals|) ensures i in p {
        if i != last {
          assert !Candidate(vals, last, least, i);
          BelowIsPicked(vals, p, |p| - 1, i);
        }
      }
      Pigeonhole(Indices(|vals|), p);
    }
  }

  lemma {:induction false} Ascending(vals: seq<nat>, p: seq<nat>, a: nat, b: nat)
    requires Chain(vals, p) && a <= b < |p|
    ensures vals[p[a]] <= vals[p[b]]
  {
    if a < b {
      assert Link(vals, p, b);
      Ascending(vals, p, a, b - 1);
    }
  }

  /** The first two picks of one value are followed by the first of them again. */
  lemma Repeats(vals: seq<nat>, p: seq<nat>, s: nat)
    requires Chain(vals, p) && s + 2 < |p| && vals[p[s]] == vals[p[s + 1]]
    requires s > 0 ==> vals[p[s - 1]] < vals[p[s]]
    ensures p[s + 2] == p[s]
  {
    assert Link(vals, p, s) && Link(vals, p, s + 1) && Link(vals, p, s + 2);
    var v := vals[p[s]];
    assert Candidate(vals, p[s + 1], v, p[s]);
    assert Candidate(vals, Last(p, s), Least(vals, p, s), p[s + 2]);
  }

  lemma {:induction false} FirstOf(vals: seq<nat>, p: seq<nat>, a: nat) returns (s: nat)
    requires Chain(vals, p) && a < |p|
    ensures s <= a && vals[p[s]] == vals[p[a]] && (s > 0 ==> vals[p[s - 1]] < vals[p[s]])
  {
    if a > 0 && vals[p[a - 1]] == vals[p[a]] {
      s := FirstOf(vals, p, a - 1);
    } else {
      s := a;
      if s > 0 {
        Ascending(vals, p, s - 1, s);
      }
    }
  }

  /** The order is always ascending, but it is a permutation of the indices if and only if no
      threshold occurs twice, except that the greatest may occur twice. */
  lemma SortsExactly(vals: seq<nat>, p: seq<nat>)
    requires Chain(vals, p) && |p| == |vals|
    ensures forall a, b | 0 <= a <= b < |p| :: vals[p[a]] <= vals[p[b]]
    ensures NoDup(p) <==> OnlyTopPair(vals)
  {
    forall a, b | 0 <= a <= b < |p| ensures vals[p[a]] <= vals[p[b]] {
      Ascending(vals, p, a, b);
    }
    if NoDup(p) {
      forall i, j | 0 <= i < j < |vals| && vals[i] == vals[j]
        ensures forall l | 0 <= l < |vals| :: vals[l] <= vals[i] && (l != i && l != j ==> vals[l] != vals[i])
      {
        TopPair(vals, p, i, j);
      }
    }
    if OnlyTopPair(vals) {
      forall a, b | 0 <= a < b < |p| ensures p[a] != p[b] {
        Ascending(vals, p, a, a + 1);
        Ascending(vals, p, a + 1, b);
        assert Link(vals, p, a + 1);
        if vals[p[a]] == vals[p[a + 1]] {
          PairIsLast(vals, p, a);
        }
      }
    }
  }

  lemma Place(p: seq<nat>, n: nat, i: nat) returns (a: nat)
    requires NoDup(p) && |p| == n && i < n && forall k | 0 <= k < n :: p[k] < n
    ensures a < n && p[a] == i
  {
    assert Indices(n) == (Indices(n) - {i}) + {i};
    if i !in p {
      DistinctFit(p, Indices(n) - {i});
    }
    a :| 0 <= a < n && p[a] == i;
  }

  lemma {:induction false} DistinctFit(p: seq<nat>, xs: set<nat>)
    requires NoDup(p) && forall k | 0 <= k < |p| :: p[k] in xs
    ensures |p| <= |xs|
  {
    if p != [] {
      DistinctFit(p[1..], xs - {p[0]});
    }
  }

  lemma TopPair(vals: seq<nat>, p: seq<nat>, i: nat, j: nat)
    requires Chain(vals, p) && |p| == |vals| && NoDup(p) && i < j < |vals| && vals[i] == vals[j]
    ensures forall l | 0 <= l < |vals| :: vals[l] <= vals[i] && (l != i && l != j ==> vals[l] != vals[i])
  {
    var n := |vals|;
    var a := Place(p, n, i);
    var b := Place(p, n, j);
    var lo, hi := if a < b then a else b, if a < b then b else a;
    var s := FirstOf(vals, p, lo);
    Ascending(vals, p, s, s + 1);
    Ascending(vals, p, s + 1, hi);
    if s + 2 < n {
      Repeats(vals, p, s);
    }
    forall l | 0 <= l < n ensures vals[l] <= vals[i] && (l != i && l != j ==> vals[l] != vals[i]) {
      var c := Place(p, n, l);
      Ascending(vals, p, c, n - 1);
      if c < s {
        Ascending(vals, p, c, s - 1);
      }
    }
  }

  lemma PairIsLast(vals: seq<nat>, p: seq<nat>, a: nat)
    requires Chain(vals, p) && |p| == |vals| && OnlyTopPair(vals)
    requires a + 1 < |p| && vals[p[a]] == vals[p[a + 1]]
    ensures a + 2 == |p|
  {
    var n, i, j := |vals|, p[a], p[a + 1];
    assert Link(vals, p, a + 1);
    var s := FirstOf(vals, p, a);
    var below := Indices(n) - {i, j};
    assert Indices(n) == below + {i, j};
    forall l | l in below ensures l in p[..s] {
      assert vals[l] < vals[i];
      BelowIsPicked(vals, p, s, l);
    }
    Pigeonhole(below, p[..s]);
  }

  /** With the two least thresholds equal the same two indices are picked in turn for ever, and
      no other is in the order. */
  lemma TwoInTurn(vals: seq<nat>, p: seq<nat>)
    requires |vals| > 2 && vals[0] == vals[1] && (forall i | 2 <= i < |vals| :: vals[0] < vals[i])
    requires Chain(vals, p)
    ensures forall k | 0 <= k < |p| :: p[k] == (if k % 2 == 0 then 1 else 0)
  {
    TwoInTurnUpTo(vals, p, |p|);
  }

  lemma {:induction false} TwoInTurnUpTo(vals: seq<nat>, p: seq<nat>, n: nat)
    requires |vals| > 2 && vals[0] == vals[1] && (forall i | 2 <= i < |vals| :: vals[0] < vals[i])
    requires Chain(vals, p) && n <= |p|
    ensures forall k | 0 <= k < n :: p[k] == (if k % 2 == 0 then 1 else 0)
  {
    if n > 0 {
      TwoInTurnUpTo(vals, p, n - 1);
      assert Link(vals, p, n - 1);
      assert Last(p, n - 1) != 1 ==> Candidate(vals, Last(p, n - 1), Least(vals, p, n - 1), 1);
      assert Last(p, n - 1) != 0 ==> Candidate(vals, Last(p, n - 1), Least(vals, p, n - 1), 0);
    }
  }

  // ---- the thresholds next to the chosen one ----

  /** The part of `qdma_descq_config_complete` that looks up the chosen threshold in the order
      and averages it with its neighbours. `stale` is the place found at an earlier start, which
      stands when the chosen index is missing. */
  method Neighbours(vals: seq<nat>, order: seq<nat>, chosen: nat, stale: nat) returns (lo: nat, hi: nat, k: nat)
    requires |vals| == |order| && chosen < |vals| && InRange(vals, order) && stale < |order|
    ensures k < |order| && (if chosen in order then order[k] == chosen && chosen !in order[..k] else k == stale)
    ensures lo == (vals[chosen] + vals[order[Before(k)]]) / 2
    ensures hi == (vals[chosen] + vals[order[After(k, |order|)]]) / 2
    ensures lo <= vals[chosen] <= hi <==>
              vals[order[Before(k)]] <= vals[chosen] + 1 && vals[chosen] <= vals[order[After(k, |order|)]]
  {
    k := stale;
    var i := 0;
    while i < |order|
      invariant i <= |order| && chosen !in order[..i] && k == stale
    {
      if order[i] == chosen {
        k := i;
        break;
      }
      i := i + 1;
    }
    assert i == |order| ==> order[..i] == order;
    var hiIdx, loIdx := k + 1, k - 1;
    if k == |order| - 1 {
      hiIdx := k;
    }
    hi := vals[chosen] + vals[order[hiIdx]];
    if k == 0 {
      loIdx := 0;
    }
    lo := vals[chosen] + vals[order[loIdx]];
    hi, lo := hi / 2, lo / 2;
  }

  function Before(k: nat): nat { if k == 0 then 0 else k - 1 }

  function After(k: nat, n: nat): nat { if k + 1 == n then k else k + 1 }

  /** In an ascending order that holds the chosen index, its neighbours are on the right sides. */
  lemma NeighboursInOrder(vals: seq<nat>, order: seq<nat>, k: nat)
    requires InRange(vals, order) && k < |order|
    requires forall a, b | 0 <= a <= b < |order| :: vals[order[a]] <= vals[order[b]]
    ensures vals[order[Before(k)]] <= vals[order[k]] <= vals[order[After(k, |order|)]]
  {
  }

  // ---- the completion ring ----

  /** The search for a completion ring larger than the one asked for. */
  method BestFit(sizes: seq<nat>, asked: nat) returns (idx: nat)
    requires asked < |sizes|
    ensures idx < |sizes|
    ensures if exists i :: 0 <= i < |sizes| && sizes[i] > sizes[asked]
            then sizes[idx] > sizes[asked] && forall i | 0 <= i < |sizes| && sizes[i] > sizes[asked] :: sizes[idx] <= sizes[i]
            else idx == asked
  {
    var i, best := 0, -1;
    while i < |sizes|
      invariant i <= |sizes| && -1 <= best < i
      invariant best < 0 ==> forall l | 0 <= l < i :: sizes[l] <= sizes[asked]
      invariant best >= 0 ==> sizes[best] > sizes[asked]
      invariant best >= 0 ==> forall l | 0 <= l < i && sizes[l] > sizes[asked] :: sizes[best] <= sizes[l]
    {
      if sizes[i] > sizes[asked] {
        if best < 0 {
          best := i;
        } else if best >= 0 && sizes[i] < sizes[best] {
          best := i;
        }
      }
      i := i + 1;
    }
    idx := if best >= 0 then best else asked;
  }
}
