/** Assignment of queues to interrupt vectors when they start. */
module VectorBalance {
  import Ring

  /** The queues on vector `v`. */
  function On(vectorOf: map<nat, nat>, v: nat): set<nat>
  {
    set q | q in vectorOf && vectorOf[q] == v
  }

  /** The first data vector with the fewest queues. */
  predicate FirstLeast(load: seq<nat>, v: nat)
  {
    v < |load| && (forall w | 0 <= w < |load| :: load[v] <= load[w] && (w < v ==> load[v] < load[w]))
  }

  /** `load` counts the queues on each vector; data vectors start at `first`. */
  class Vectors {
    const direct: bool
    const first: nat
    const load: array<nat>
    var vectorOf: map<nat, nat>

    ghost predicate Valid()
      reads this, load
    {
      && first < load.Length
      && (forall q | q in vectorOf :: first <= vectorOf[q] < load.Length)
      && (forall v | 0 <= v < load.Length :: load[v] == |On(vectorOf, v)|)
    }

    constructor (direct: bool, first: nat, count: nat)
      requires first < count
      ensures Valid() && fresh(load) && vectorOf == map[] && load.Length == count && this.first == first
      ensures this.direct == direct
    {
      this.direct, this.first := direct, first;
      load := new nat[count](_ => 0);
      vectorOf := map[];
      new;
      assert forall v :: On(map[], v) == {};
    }

    /** `desc_alloc_irq`. */
    method AllocIrq() returns (idx: nat)
      requires first < load.Length
      ensures direct ==> first <= idx < load.Length && FirstLeast(load[first..], idx - first)
      ensures !direct ==> idx == first
    {
      idx := first;
      if !direct { return; }
      var i, min := first, -1;
      while i < load.Length
        invariant first <= i <= load.Length && first <= idx < load.Length
        invariant if i == first then min == -1 && idx == first else idx < i && min == load[idx] > 0
        invariant forall w | first <= w < i :: load[idx] <= load[w] && (w < idx ==> load[idx] < load[w])
      {
        if load[i] == 0 {
          idx := i;
          break;
        }
        if min < 0 {
          min := load[i];
        }
        if load[i] < min {
          min, idx := load[i], i;
        }
        i := i + 1;
      }
    }

    /** The part of `qdma_queue_start` that puts a queue on its vector. */
    method StartQueue(q: nat) returns (v: nat)
      requires Valid() && q !in vectorOf
      modifies this`vectorOf, load
      ensures Valid() && vectorOf == old(vectorOf)[q := v] && first <= v < load.Length
      ensures forall w | 0 <= w < load.Length :: load[w] == old(load[w]) + (if w == v then 1 else 0)
      ensures if direct then FirstLeast(old(load[first..]), v - first) else v == first
    {
      v := AllocIrq();
      PutOn(q, v);
    }

    method PutOn(q: nat, v: nat)
      requires Valid() && q !in vectorOf && first <= v < load.Length
      modifies this`vectorOf, load
      ensures Valid() && vectorOf == old(vectorOf)[q := v]
      ensures forall w | 0 <= w < load.Length :: load[w] == old(load[w]) + (if w == v then 1 else 0)
    {
      load[v] := load[v] + 1;
      ghost var was := vectorOf;
      vectorOf := vectorOf[q := v];
      assert On(vectorOf, v) == On(was, v) + {q};
      assert forall w | w != v :: On(vectorOf, w) == On(was, w);
    }

    /** The part of `qdma_queue_stop` that takes it off. */
    method StopQueue(q: nat)
      requires Valid() && q in vectorOf
      modifies this`vectorOf, load
      ensures Valid() && vectorOf == old(vectorOf) - {q}
      ensures forall w | 0 <= w < load.Length :: load[w] + (if w == old(vectorOf)[q] then 1 else 0) == old(load[w])
    {
      var v := vectorOf[q];
      ghost var was := vectorOf;
      assert q in On(was, v);
      load[v] := load[v] - 1;
      vectorOf := vectorOf - {q};
      assert On(vectorOf, v) == On(was, v) - {q};
      assert forall w | w != v :: On(vectorOf, w) == On(was, w);
    }
  }

  /** Starts in a row put their queues on these vectors, each the first with the fewest. */
  predicate Picked(load: seq<nat>, picks: seq<nat>)
    decreases |picks|
  {
    picks == [] || (FirstLeast(load, picks[0]) && Picked(OneMore(load, picks[0]), picks[1..]))
  }

  function OneMore(load: seq<nat>, v: nat): (r: seq<nat>)
    ensures |r| == |load|
  {
    if v < |load| then load[v := load[v] + 1] else load
  }

  function After(load: seq<nat>, picks: seq<nat>): (r: seq<nat>)
    ensures |r| == |load|
    decreases |picks|
  {
    if picks == [] then load else After(OneMore(load, picks[0]), picks[1..])
  }

  /** What `k` queues on `m` vectors look like when dealt out in turn. */
  function Dealt(m: nat, k: nat): (r: seq<nat>)
    requires m > 0
    ensures |r| == m
  {
    seq(m, i requires 0 <= i < m => k / m + (if i < k % m then 1 else 0))
  }

  lemma NextDealt(m: nat, k: nat, v: nat)
    requires m > 0 && FirstLeast(Dealt(m, k), v)
    ensures v == k % m && OneMore(Dealt(m, k), v) == Dealt(m, k + 1)
  {
    var d := Dealt(m, k);
    assert d[k % m] == k / m;
    assert d[v] <= d[k % m];
    assert v >= k % m;
    if k % m + 1 < m {
      Ring.ModUnique(k + 1, k / m, k % m + 1, m);
    } else {
      Ring.ModUnique(k + 1, k / m + 1, 0, m);
    }
  }

  lemma DealtEven(m: nat, k: nat)
    requires m > 0
    ensures forall v, w | 0 <= v < m && 0 <= w < m :: Dealt(m, k)[v] <= Dealt(m, k)[w] + 1
  {
  }

  /** Any run of starts from empty vectors deals the queues out in turn, so that loads differ by
      one at most. */
  lemma {:induction false} StartsDealOut(m: nat, k: nat, picks: seq<nat>)
    requires m > 0 && Picked(Dealt(m, k), picks)
    ensures After(Dealt(m, k), picks) == Dealt(m, k + |picks|)
    ensures forall v, w | 0 <= v < m && 0 <= w < m :: After(Dealt(m, k), picks)[v] <= After(Dealt(m, k), picks)[w] + 1
    decreases |picks|
  {
    hide Dealt, FirstLeast, OneMore;
    DealtEven(m, k + |picks|);
    if picks != [] {
      NextDealt(m, k, picks[0]);
      StartsDealOut(m, k + 1, picks[1..]);
    }
  }
}
