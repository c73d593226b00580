/** The table of worker processes of the performance tool, and the slot in which the stop of a
    queue is announced. */
module ThreadTable {
  import Ring

  datatype Dir = H2C | C2H

  datatype Mode = OnlyH2C | OnlyC2H | Both

  /** The queue a worker serves: device address of its function, queue id, direction. */
  datatype Queue = Queue(pf: nat, qid: nat, dir: Dir)

  datatype Thread = Thread(queue: Queue, ctrl: bool)

  /** `device` is the bus and device part of the address, without the four function bits. */
  datatype Config = Config(numPf: nat, numQ: nat, perQ: nat, mode: Mode, device: nat, pfStart: nat, qStart: nat)
  {
    predicate Valid() { pfStart + numPf <= 16 }

    function DirFactor(): nat { if mode.Both? then 2 else 1 }

    function NumThreads(): nat { numPf * numQ * DirFactor() * perQ }

    function Pf(k: nat): nat { device * 16 + (pfStart + k) }

    predicate Serves(d: Dir) { match d case H2C => !mode.OnlyC2H? case C2H => !mode.OnlyH2C? }

    predicate Has(q: Queue)
    {
      && Serves(q.dir) && qStart <= q.qid < qStart + numQ
      && Pf(0) <= q.pf < Pf(0) + numPf
    }
  }

  /** The entries written for worker `j` of a queue. */
  function Group(c: Config, k: nat, i: nat, j: nat): (r: seq<Thread>)
    ensures |r| == c.DirFactor()
  {
    (if c.Serves(H2C) then [Thread(Queue(c.Pf(k), c.qStart + i, H2C), j == 0)] else [])
    + (if c.Serves(C2H) then [Thread(Queue(c.Pf(k), c.qStart + i, C2H), j == 0)] else [])
  }

  function QueueRows(c: Config, k: nat, i: nat, n: nat): seq<Thread>
  {
    if n == 0 then [] else QueueRows(c, k, i, n - 1) + Group(c, k, i, n - 1)
  }

  function PfRows(c: Config, k: nat, n: nat): seq<Thread>
  {
    if n == 0 then [] else PfRows(c, k, n - 1) + QueueRows(c, k, n - 1, c.perQ)
  }

  function Rows(c: Config, n: nat): seq<Thread>
  {
    if n == 0 then [] else Rows(c, n - 1) + PfRows(c, n - 1, c.numQ)
  }

  function Table(c: Config): seq<Thread>
  {
    Rows(c, c.numPf)
  }

  lemma {:induction false} QueueRowsSize(c: Config, k: nat, i: nat, n: nat)
    ensures |QueueRows(c, k, i, n)| == n * c.DirFactor()
  {
    if n > 0 {
      QueueRowsSize(c, k, i, n - 1);
    }
  }

  lemma {:induction false} PfRowsSize(c: Config, k: nat, n: nat)
    ensures |PfRows(c, k, n)| == n * (c.perQ * c.DirFactor())
  {
    if n > 0 {
      PfRowsSize(c, k, n - 1);
      QueueRowsSize(c, k, n - 1, c.perQ);
      OneMore(n - 1, c.perQ * c.DirFactor());
    }
  }

  lemma {:induction false} RowsSize(c: Config, n: nat)
    ensures |Rows(c, n)| == n * (c.numQ * (c.perQ * c.DirFactor()))
  {
    if n > 0 {
      RowsSize(c, n - 1);
      PfRowsSize(c, n - 1, c.numQ);
      OneMore(n - 1, c.numQ * (c.perQ * c.DirFactor()));
    }
  }

  lemma OneMore(n: nat, size: nat)
    ensures n * size + size == (n + 1) * size
  {
  }

  lemma Regroup(a: nat, b: nat, p: nat, f: nat)
    ensures a * (b * (p * f)) == a * b * f * p
  {
    Associate(b, f, p);
    assert p * f == f * p;
    Associate(a, b * f, p);
    Associate(a, b, f);
  }

  lemma Associate(x: nat, y: nat, z: nat)
    ensures x * (y * z) == (x * y) * z
  {
  }

  lemma Size(c: Config)
    ensures |Table(c)| == c.NumThreads()
  {
    RowsSize(c, c.numPf);
    Regroup(c.numPf, c.numQ, c.perQ, c.DirFactor());
  }

  predicate Picks(t: Thread, q: Queue, onlyCtrl: bool)
  {
    t.queue == q && (onlyCtrl ==> t.ctrl)
  }

  /** How many workers serve a queue, or how many of them control it. */
  function Count(ts: seq<Thread>, q: Queue, onlyCtrl: bool): (r: nat)
    ensures r <= |ts|
  {
    if ts == [] then 0
    else Count(ts[..|ts| - 1], q, onlyCtrl) + (if Picks(ts[|ts| - 1], q, onlyCtrl) then 1 else 0)
  }

  lemma {:induction false} CountConcat(a: seq<Thread>, b: seq<Thread>, q: Queue, only: bool)
    ensures Count(a + b, q, only) == Count(a, q, only) + Count(b, q, only)
  {
    if b == [] {
      assert a + b == a;
    } else {
      CountConcat(a, b[..|b| - 1], q, only);
      assert (a + b)[..|a + b| - 1] == a + b[..|b| - 1];
    }
  }

  lemma CountGroup(c: Config, k: nat, i: nat, j: nat, q: Queue, only: bool)
    ensures Count(Group(c, k, i, j), q, only) ==
      (if c.Serves(q.dir) && q.pf == c.Pf(k) && q.qid == c.qStart + i && (only ==> j == 0) then 1 else 0)
  {
    var h, g := Thread(Queue(c.Pf(k), c.qStart + i, H2C), j == 0), Thread(Queue(c.Pf(k), c.qStart + i, C2H), j == 0);
    CountOne(h, q, only);
    CountOne(g, q, only);
    CountConcat([h], [g], q, only);
    assert [] + [g] == [g] && [h] + [] == [h];
  }

  lemma CountOne(t: Thread, q: Queue, only: bool)
    ensures Count([t], q, only) == if Picks(t, q, only) then 1 else 0
  {
    assert [t][..0] == [];
  }

  lemma {:induction false} CountQueueRows(c: Config, k: nat, i: nat, n: nat, q: Queue, only: bool)
    ensures Count(QueueRows(c, k, i, n), q, only) ==
      if c.Serves(q.dir) && q.pf == c.Pf(k) && q.qid == c.qStart + i then (if only && n > 0 then 1 else n) else 0
  {
    hide Group;
    if n > 0 {
      CountQueueRows(c, k, i, n - 1, q, only);
      CountGroup(c, k, i, n - 1, q, only);
      CountConcat(QueueRows(c, k, i, n - 1), Group(c, k, i, n - 1), q, only);
    }
  }

  lemma {:induction false} CountPfRows(c: Config, k: nat, n: nat, q: Queue, only: bool)
    ensures Count(PfRows(c, k, n), q, only) ==
      if c.Serves(q.dir) && q.pf == c.Pf(k) && c.qStart <= q.qid < c.qStart + n
      then (if only && c.perQ > 0 then 1 else c.perQ) else 0
  {
    if n > 0 {
      CountPfRows(c, k, n - 1, q, only);
      CountQueueRows(c, k, n - 1, c.perQ, q, only);
      CountConcat(PfRows(c, k, n - 1), QueueRows(c, k, n - 1, c.perQ), q, only);
    }
  }

  lemma {:induction false} CountRows(c: Config, n: nat, q: Queue, only: bool)
    ensures Count(Rows(c, n), q, only) ==
      if c.Serves(q.dir) && c.Pf(0) <= q.pf < c.Pf(0) + n && c.qStart <= q.qid < c.qStart + c.numQ
      then (if only && c.perQ > 0 then 1 else c.perQ) else 0
  {
    if n > 0 {
      CountRows(c, n - 1, q, only);
      CountPfRows(c, n - 1, c.numQ, q, only);
      CountConcat(Rows(c, n - 1), PfRows(c, n - 1, c.numQ), q, only);
    }
  }

  /** Every queue the tool was asked for is served by `perQ` workers of which exactly one is in
      control, and no other queue by any. */
  lemma TableServes(c: Config, q: Queue)
    ensures Count(Table(c), q, false) == if c.Has(q) then c.perQ else 0
    ensures Count(Table(c), q, true) == if c.Has(q) && c.perQ > 0 then 1 else 0
  {
    CountRows(c, c.numPf, q, false);
    CountRows(c, c.numPf, q, true);
  }

  lemma {:induction false} CountSome(ts: seq<Thread>, q: Queue, only: bool, t: nat)
    requires t < |ts| && Picks(ts[t], q, only)
    ensures Count(ts, q, only) > 0
  {
    if t < |ts| - 1 {
      CountSome(ts[..|ts| - 1], q, only, t);
    }
  }

  lemma {:induction false} CountTwo(ts: seq<Thread>, q: Queue, only: bool, t: nat, u: nat)
    requires t < u < |ts| && Picks(ts[t], q, only) && Picks(ts[u], q, only)
    ensures Count(ts, q, only) > 1
  {
    if u < |ts| - 1 {
      CountTwo(ts[..|ts| - 1], q, only, t, u);
    } else {
      CountSome(ts[..|ts| - 1], q, only, t);
    }
  }

  lemma {:induction false} Witness(ts: seq<Thread>, q: Queue, only: bool) returns (t: nat)
    requires Count(ts, q, only) > 0
    ensures t < |ts| && Picks(ts[t], q, only)
  {
    if Picks(ts[|ts| - 1], q, only) {
      t := |ts| - 1;
    } else {
      t := Witness(ts[..|ts| - 1], q, only);
    }
  }

  /** Every worker's queue has exactly one worker in control of it. */
  lemma OneController(c: Config, t: nat) returns (u: nat)
    requires t < |Table(c)|
    ensures c.perQ > 0 && c.Has(Table(c)[t].queue)
    ensures u < |Table(c)| && Table(c)[u] == Thread(Table(c)[t].queue, true)
    ensures forall v: nat | v < |Table(c)| && Table(c)[v] == Thread(Table(c)[t].queue, true) :: v == u
  {
    var q := Table(c)[t].queue;
    CountSome(Table(c), q, false, t);
    TableServes(c, q);
    u := Witness(Table(c), q, true);
    forall v: nat | v < |Table(c)| && Table(c)[v] == Thread(q, true) && v != u ensures false {
      CountTwo(Table(c), q, true, if u < v then u else v, if u < v then v else u);
    }
  }

  /** A worker controls its queue exactly when no worker before it serves the same one. */
  predicate Led(ts: seq<Thread>)
  {
    forall t | 0 <= t < |ts| :: LedAt(ts, t)
  }

  predicate LedAt(ts: seq<Thread>, t: nat)
    requires t < |ts|
  {
    ts[t].ctrl <==> Count(ts[..t], ts[t].queue, false) == 0
  }

  lemma LedConcat(a: seq<Thread>, b: seq<Thread>)
    requires Led(a)
    requires forall t | 0 <= t < |b| :: b[t].ctrl <==> Count(a, b[t].queue, false) + Count(b[..t], b[t].queue, false) == 0
    ensures Led(a + b)
  {
    hide Count;
    forall t | 0 <= t < |a + b| ensures LedAt(a + b, t) {
      if t < |a| {
        assert LedAt(a, t) && (a + b)[..t] == a[..t];
      } else {
        assert (a + b)[..t] == a + b[..t - |a|];
        CountConcat(a, b[..t - |a|], b[t - |a|].queue, false);
      }
    }
  }

  lemma {:induction false} LedQueueRows(c: Config, k: nat, i: nat, n: nat)
    ensures Led(QueueRows(c, k, i, n))
  {
    if n > 0 {
      LedQueueRows(c, k, i, n - 1);
      var a, b := QueueRows(c, k, i, n - 1), Group(c, k, i, n - 1);
      forall t | 0 <= t < |b|
        ensures b[t].ctrl <==> Count(a, b[t].queue, false) + Count(b[..t], b[t].queue, false) == 0
      {
        CountQueueRows(c, k, i, n - 1, b[t].queue, false);
        if t > 0 {
          assert b[..t] == [b[0]];
          CountOne(b[0], b[t].queue, false);
        }
      }
      LedConcat(a, b);
    }
  }

  /** Rows of a new queue, or of a new function, behind those of others. */
  lemma LedNew(a: seq<Thread>, b: seq<Thread>)
    requires Led(a) && Led(b) && forall t | 0 <= t < |b| :: Count(a, b[t].queue, false) == 0
    ensures Led(a + b)
  {
    hide Count;
    forall t | 0 <= t < |b|
      ensures b[t].ctrl <==> Count(a, b[t].queue, false) + Count(b[..t], b[t].queue, false) == 0
    {
      assert LedAt(b, t);
    }
    LedConcat(a, b);
  }

  lemma {:induction false} LedPfRows(c: Config, k: nat, n: nat)
    ensures Led(PfRows(c, k, n))
  {
    hide Count;
    if n > 0 {
      LedPfRows(c, k, n - 1);
      LedQueueRows(c, k, n - 1, c.perQ);
      var a, b := PfRows(c, k, n - 1), QueueRows(c, k, n - 1, c.perQ);
      forall t | 0 <= t < |b| ensures Count(a, b[t].queue, false) == 0 {
        CountSome(b, b[t].queue, false, t);
        CountQueueRows(c, k, n - 1, c.perQ, b[t].queue, false);
        CountPfRows(c, k, n - 1, b[t].queue, false);
      }
      LedNew(a, b);
    }
  }

  lemma {:induction false} LedRows(c: Config, n: nat)
    ensures Led(Rows(c, n))
  {
    hide Count;
    if n > 0 {
      LedRows(c, n - 1);
      LedPfRows(c, n - 1, c.numQ);
      var a, b := Rows(c, n - 1), PfRows(c, n - 1, c.numQ);
      forall t | 0 <= t < |b| ensures Count(a, b[t].queue, false) == 0 {
        CountSome(b, b[t].queue, false, t);
        CountPfRows(c, n - 1, c.numQ, b[t].queue, false);
        CountRows(c, n - 1, b[t].queue, false);
      }
      LedNew(a, b);
    }
  }

  /** In the table the first worker of every queue, and only it, is in control. */
  lemma FirstControls(c: Config, t: nat)
    requires t < |Table(c)|
    ensures Table(c)[t].ctrl <==> forall u: nat | u < t :: Table(c)[u].queue != Table(c)[t].queue
  {
    LedRows(c, c.numPf);
    assert LedAt(Table(c), t);
    var before, q := Table(c)[..t], Table(c)[t].queue;
    if Count(before, q, false) > 0 {
      var u := Witness(before, q, false);
      assert Table(c)[u] == before[u];
    } else {
      forall u: nat | u < t ensures Table(c)[u].queue != q {
        if Table(c)[u].queue == q {
          assert before[u] == Table(c)[u];
          CountSome(before, q, false, u);
        }
      }
    }
  }

  // ---- the fill ----

  lemma Room(c: Config, k: nat, i: nat, j: nat)
    requires k < c.numPf && i < c.numQ && j < c.perQ
    ensures |Rows(c, k)| + |PfRows(c, k, i)| + |QueueRows(c, k, i, j)| + c.DirFactor() <= |Table(c)|
  {
    var f := c.DirFactor();
    RowsSize(c, c.numPf);
    RowsSize(c, k);
    PfRowsSize(c, k, i);
    QueueRowsSize(c, k, i, j);
    Below(j, c.perQ, f);
    Below(i, c.numQ, c.perQ * f);
    Below(k, c.numPf, c.numQ * (c.perQ * f));
  }

  lemma Below(x: nat, bound: nat, size: nat)
    requires x < bound
    ensures x * size + size <= bound * size
  {
    var d := bound - x - 1;
    assert (x + 1 + d) * size == x * size + size + d * size;
  }

  /** `create_thread_info`: the nested loops over functions, queues and workers. */
  method Fill(c: Config) returns (info: array<Thread>, base: nat)
    ensures info[..] == Table(c) && base == c.NumThreads()
  {
    hide Group;
    Size(c);
    info := new Thread[c.NumThreads()](_ => Thread(Queue(0, 0, H2C), false));
    base := 0;
    var k := 0;
    while k < c.numPf
      invariant k <= c.numPf && fresh(info) && info.Length == |Table(c)|
      invariant base <= info.Length && info[..base] == Rows(c, k)
    {
      var i := 0;
      while i < c.numQ
        invariant i <= c.numQ && base <= info.Length && info[..base] == Rows(c, k) + PfRows(c, k, i)
      {
        base := FillQueue(c, info, base, k, i);
        assert Rows(c, k) + PfRows(c, k, i + 1) == Rows(c, k) + PfRows(c, k, i) + QueueRows(c, k, i, c.perQ);
        i := i + 1;
      }
      k := k + 1;
    }
    assert info[..] == info[..base];
  }

  /** The innermost loop: the first worker of a queue controls it. */
  method FillQueue(c: Config, info: array<Thread>, start: nat, k: nat, i: nat) returns (base: nat)
    requires k < c.numPf && i < c.numQ && info.Length == |Table(c)|
    requires start == |Rows(c, k)| + |PfRows(c, k, i)| <= info.Length
    modifies info
    ensures start <= base <= info.Length && info[..base] == old(info[..start]) + QueueRows(c, k, i, c.perQ)
  {
    hide Rows, PfRows, Group;
    base := start;
    var ctrl, j := true, 0;
    while j < c.perQ
      invariant j <= c.perQ && ctrl == (j == 0)
      invariant start <= base <= info.Length && info[..base] == old(info[..start]) + QueueRows(c, k, i, j)
    {
      Room(c, k, i, j);
      base := WriteGroup(c, info, base, k, i, ctrl);
      assert old(info[..start]) + QueueRows(c, k, i, j + 1)
          == (old(info[..start]) + QueueRows(c, k, i, j)) + Group(c, k, i, j);
      ctrl := false;
      j := j + 1;
    }
  }

  method WriteGroup(c: Config, info: array<Thread>, base: nat, k: nat, i: nat, ctrl: bool) returns (next: nat)
    requires base + c.DirFactor() <= info.Length
    modifies info
    ensures next == base + c.DirFactor()
    ensures forall j :: (ctrl <==> j == 0) ==> info[..next] == old(info[..base]) + Group(c, k, i, j)
  {
    next := base;
    if c.mode.OnlyH2C? || c.mode.Both? {
      info[next] := Thread(Queue(c.Pf(k), c.qStart + i, H2C), ctrl);
      next := next + 1;
    }
    if !c.mode.OnlyH2C? {
      info[next] := Thread(Queue(c.Pf(k), c.qStart + i, C2H), ctrl);
      next := next + 1;
    }
  }

  // ---- where the stop of a queue is announced ----

  /** The slot a worker computes from its own entry. */
  function StopSlot(c: Config, q: Queue): int
  {
    var offset := if c.mode.Both? && q.dir == C2H then c.numQ else 0;
    (q.pf % 16 - c.pfStart) * c.numQ * c.DirFactor() + offset + q.qid - c.qStart
  }

  /** The row of slots a queue falls in. */
  function SlotRow(c: Config, q: Queue): int
  {
    (q.pf - c.Pf(0)) * c.DirFactor() + (if c.mode.Both? && q.dir == C2H then 1 else 0)
  }

  lemma SlotShape(c: Config, q: Queue)
    requires c.Valid() && c.Has(q)
    ensures StopSlot(c, q) == SlotRow(c, q) * c.numQ + (q.qid - c.qStart)
    ensures 0 <= SlotRow(c, q) < c.numPf * c.DirFactor()
  {
    var k, f := q.pf - c.Pf(0), c.DirFactor();
    Ring.ModUnique(q.pf, c.device, c.pfStart + k, 16);
    Below(k, c.numPf, f);
    var o := if c.mode.Both? && q.dir == C2H then 1 else 0;
    Spread(k, f, o, c.numQ);
  }

  lemma Spread(k: int, f: int, o: int, n: int)
    ensures (k * f + o) * n == k * n * f + o * n
  {
  }

  /** Slots stay inside the shared array, and two queues share one only if they are the same. */
  lemma SlotsDistinct(c: Config, q: Queue, r: Queue)
    requires c.Valid() && c.Has(q) && c.Has(r)
    ensures 0 <= StopSlot(c, q) < c.DirFactor() * c.numQ * c.numPf
    ensures StopSlot(c, q) == StopSlot(c, r) <==> q == r
  {
    hide StopSlot, SlotRow;
    SlotShape(c, q);
    SlotShape(c, r);
    if StopSlot(c, q) == StopSlot(c, r) {
      SameSlot(c, SlotRow(c, q), q.qid - c.qStart, SlotRow(c, r), r.qid - c.qStart);
      RowIdentifies(c, q, r);
    }
    SlotBound(c, SlotRow(c, q), q.qid - c.qStart);
  }

  lemma RowIdentifies(c: Config, q: Queue, r: Queue)
    requires c.Has(q) && c.Has(r) && SlotRow(c, q) == SlotRow(c, r)
    ensures q.pf == r.pf && q.dir == r.dir
  {
    var x, y := q.pf - c.Pf(0), r.pf - c.Pf(0);
    if c.mode.Both? {
      assert x * c.DirFactor() == 2 * x && y * c.DirFactor() == 2 * y;
    } else {
      assert x * c.DirFactor() == x && y * c.DirFactor() == y;
    }
  }

  lemma SlotBound(c: Config, row: nat, i: nat)
    requires row < c.numPf * c.DirFactor() && i < c.numQ
    ensures row * c.numQ + i < c.DirFactor() * c.numQ * c.numPf
  {
    Below(row, c.numPf * c.DirFactor(), c.numQ);
  }

  lemma SameSlot(c: Config, row: nat, i: nat, other: nat, l: nat)
    requires i < c.numQ && l < c.numQ && row * c.numQ + i == other * c.numQ + l
    ensures row == other && i == l
  {
    Ring.ModUnique(row * c.numQ + i, row, i, c.numQ);
    Ring.ModUnique(row * c.numQ + i, other, l, c.numQ);
  }
}
