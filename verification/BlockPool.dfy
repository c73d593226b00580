/** The block pools of the user-space tools: a roving first-fit scan over an array of entries,
    one thread allocating while another frees. */
module BlockPool {
  import Ring

  /** The bookkeeping of one block. A block that heads a range in use has `used` and its length;
      a release first zeroes the length, then clears `used`. */
  datatype Entry = Entry(used: bool, blocks: nat)

  datatype Pool = Pool(info: seq<Entry>, rover: nat)
  {
    predicate Live(j: nat)
    {
      j < |info| && info[j].used && info[j].blocks > 0
    }

    function End(j: nat): nat
      requires j < |info|
    {
      j + info[j].blocks
    }

    /** Ranges in use stay in bounds and hold no other used entry, and the rover never points
        strictly inside one. */
    ghost predicate Inv()
    {
      && rover <= |info|
      && (forall j: nat | Live(j) :: End(j) <= |info|)
      && (forall j: nat, k: nat | Live(j) && k < |info| && info[k].used && j < k :: End(j) <= k)
      && (forall j: nat | Live(j) && j < rover :: End(j) <= rover)
    }
  }

  /** Where a scan for `n` blocks begins. */
  function Start(p: Pool, n: nat): nat
  {
    if p.rover + n > |p.info| then 0 else p.rover
  }

  /** None of the `n` entries from `t` is used. */
  predicate Fits(info: seq<Entry>, t: nat, n: nat)
  {
    t + n <= |info| && forall j | t <= j < t + n :: !info[j].used
  }

  function Take(p: Pool, t: nat, n: nat): Pool
    requires t < |p.info|
  {
    Pool(p.info[t := Entry(true, n)], t + n)
  }

  /** One of the two stores of a release. */
  function FreeStep(info: seq<Entry>, j: nat): seq<Entry>
  {
    if j < |info| && info[j].used then
      info[j := if info[j].blocks > 0 then Entry(true, 0) else Entry(false, 0)]
    else info
  }

  function FreeSteps(info: seq<Entry>, js: seq<nat>): (r: seq<Entry>)
    ensures |r| == |info|
    decreases |js|
  {
    if js == [] then info else FreeSteps(FreeStep(info, js[0]), js[1..])
  }

  /** Releases have happened in between, and nothing else. */
  predicate Released(was: seq<Entry>, now: seq<Entry>)
  {
    && |now| == |was|
    && forall j | 0 <= j < |was| ::
         now[j] == was[j] || (was[j].used && now[j].blocks == 0)
  }

  lemma {:induction false} FreeStepsRelease(info: seq<Entry>, js: seq<nat>)
    ensures Released(info, FreeSteps(info, js))
    decreases |js|
  {
    if js != [] {
      FreeStepsRelease(FreeStep(info, js[0]), js[1..]);
    }
  }

  lemma ReleaseKeepsInv(p: Pool, info: seq<Entry>)
    requires p.Inv() && Released(p.info, info)
    ensures p.(info := info).Inv()
  {
    var u := p.(info := info);
    assert forall j: nat | u.Live(j) :: p.Live(j) && info[j] == p.info[j];
  }

  lemma TakeKeepsInv(p: Pool, n: nat)
    requires p.Inv() && n > 0 && Fits(p.info, Start(p, n), n)
    ensures Take(p, Start(p, n), n).Inv()
  {
    var t := Start(p, n);
    var u := Take(p, t, n);
    assert forall j: nat | u.Live(j) && j != t :: p.Live(j) && u.info[j] == p.info[j];
  }

  // ---- whole runs ----

  datatype Step = AllocStep(n: nat) | ReleaseStep(j: nat)

  /** An allocation that succeeds, or one store of a release of some block. */
  predicate Enabled(p: Pool, s: Step)
  {
    match s
    case AllocStep(n) => n > 0 && Fits(p.info, Start(p, n), n)
    case ReleaseStep(j) => true
  }

  function Apply(p: Pool, s: Step): Pool
    requires Enabled(p, s)
  {
    match s
    case AllocStep(n) => Take(p, Start(p, n), n)
    case ReleaseStep(j) => p.(info := FreeStep(p.info, j))
  }

  predicate CanRun(p: Pool, steps: seq<Step>)
    decreases |steps|
  {
    steps == [] || (Enabled(p, steps[0]) && CanRun(Apply(p, steps[0]), steps[1..]))
  }

  function Run(p: Pool, steps: seq<Step>): Pool
    requires CanRun(p, steps)
    decreases |steps|
  {
    if steps == [] then p else Run(Apply(p, steps[0]), steps[1..])
  }

  function Empty(total: nat): Pool
  {
    Pool(seq(total, i => Entry(false, 0)), 0)
  }

  lemma {:induction false} RunKeepsInv(p: Pool, steps: seq<Step>)
    requires p.Inv() && CanRun(p, steps)
    ensures Run(p, steps).Inv() && |Run(p, steps).info| == |p.info|
    decreases |steps|
  {
    if steps != [] {
      match steps[0] {
        case AllocStep(n) => TakeKeepsInv(p, n);
        case ReleaseStep(j) => ReleaseKeepsInv(p, FreeStep(p.info, j));
      }
      RunKeepsInv(Apply(p, steps[0]), steps[1..]);
    }
  }

  // ---- bytes ----

  /** Where block `j` begins, in the 32 bits the product is computed in. The entries are kept
      where the block after the last would begin. */
  function Offset(j: nat, size: nat): nat
  {
    (j * size) % Ring.U32
  }

  /** Byte `b` belongs to the range in use at `j`. */
  predicate Holds(p: Pool, size: nat, j: nat, b: nat)
  {
    p.Live(j) && Offset(j, size) <= b < Offset(j, size) + p.info[j].blocks * size
  }

  /** No byte belongs to two ranges in use, and the first byte of the entries to none. */
  ghost predicate BytesSafe(p: Pool, size: nat)
  {
    && (forall i: nat, j: nat, b: nat | i < j && Holds(p, size, i, b) :: !Holds(p, size, j, b))
    && (forall j: nat :: !Holds(p, size, j, Offset(|p.info|, size)))
  }

  /** The bytes stay apart after every interleaving of allocations and releases on a new pool if
      and only if the blocks together are shorter than 2^32 bytes. */
  lemma BytesDisjoint(total: nat, size: nat)
    requires size > 0
    ensures (forall steps | CanRun(Empty(total), steps) :: BytesSafe(Run(Empty(total), steps), size)) <==> total * size < Ring.U32
  {
    if total * size < Ring.U32 {
      forall steps | CanRun(Empty(total), steps) ensures BytesSafe(Run(Empty(total), steps), size) {
        RunKeepsInv(Empty(total), steps);
        BytesApart(Run(Empty(total), steps), size);
      }
    } else {
      var steps, j := EntriesOverrun(total, size);
      assert !BytesSafe(Run(Empty(total), steps), size);
    }
  }

  lemma BytesApart(p: Pool, size: nat)
    requires p.Inv() && |p.info| * size < Ring.U32
    ensures BytesSafe(p, size)
    ensures forall j: nat | p.Live(j) :: Offset(j, size) + p.info[j].blocks * size <= Offset(|p.info|, size)
  {
    hide Offset;
    forall i: nat | p.Live(i)
      ensures Offset(i, size) == i * size && Offset(|p.info|, size) == |p.info| * size
      ensures i * size + p.info[i].blocks * size <= |p.info| * size
      ensures forall j: nat | p.Live(j) && i < j :: i * size + p.info[i].blocks * size <= j * size
    {
      Scaled(i, p.info[i].blocks, |p.info|, size);
      WholeOffset(i, |p.info|, size);
      forall j: nat | p.Live(j) && i < j ensures i * size + p.info[i].blocks * size <= j * size {
        Scaled(i, p.info[i].blocks, j, size);
      }
    }
  }

  lemma WholeOffset(j: nat, total: nat, size: nat)
    requires j * size <= total * size < Ring.U32
    ensures Offset(j, size) == j * size && Offset(total, size) == total * size
  {
  }

  /** On a pool of 2^32 bytes or more, filling it with single blocks reaches one that holds the
      first byte of the entries. */
  lemma EntriesOverrun(total: nat, size: nat) returns (steps: seq<Step>, j: nat)
    requires size > 0 && total * size >= Ring.U32
    ensures CanRun(Empty(total), steps) && Holds(Run(Empty(total), steps), size, j, Offset(total, size))
    ensures |Run(Empty(total), steps).info| == total
  {
    var at := Offset(total, size);
    j := at / size;
    assert at == size * j + at % size;
    if j >= total {
      Scaled(total, j - total, j, size);
    }
    steps := Singles(total);
    FillFrom(total, 0, total);
    assert Filled(total, 0) == Empty(total);
    Ring.ModUnique(j * size, 0, j * size, Ring.U32);
  }

  function Singles(n: nat): (r: seq<Step>)
    ensures |r| == n
  {
    seq(n, _ => AllocStep(1))
  }

  /** The first `n` blocks in use, one by one. */
  function Filled(total: nat, n: nat): Pool
  {
    Pool(seq(total, k => if k < n then Entry(true, 1) else Entry(false, 0)), n)
  }

  lemma {:induction false} FillFrom(total: nat, n: nat, m: nat)
    requires n + m <= total
    ensures CanRun(Filled(total, n), Singles(m)) && Run(Filled(total, n), Singles(m)) == Filled(total, n + m)
    decreases m
  {
    if m > 0 {
      var p := Filled(total, n);
      assert Take(p, n, 1) == Filled(total, n + 1);
      assert Singles(m)[1..] == Singles(m - 1);
      FillFrom(total, n + 1, m - 1);
    }
  }

  /** A pool filled up and then released but for its first block: every other block is free, and
      yet a single block cannot be had. */
  lemma FreeButFull(total: nat) returns (steps: seq<Step>)
    requires total > 0
    ensures CanRun(Empty(total), steps)
    ensures var p := Run(Empty(total), steps);
      && |p.info| == total && (forall j | 0 < j < total :: !p.info[j].used) && !Fits(p.info, Start(p, 1), 1)
  {
    FillFrom(total, 0, total);
    assert Filled(total, 0) == Empty(total);
    var p := Filled(total, total);
    steps := Singles(total) + Releases(1, total);
    ReleaseFrom(p, 1, total);
    RunJoin(Empty(total), Singles(total), Releases(1, total));
    var r := Run(p, Releases(1, total));
    assert r.info[..1][0] == p.info[..1][0];
  }

  /** Both stores of the release of every block from `j` on. */
  function Releases(j: nat, total: nat): seq<Step>
    decreases total - j
  {
    if j >= total then [] else [ReleaseStep(j), ReleaseStep(j)] + Releases(j + 1, total)
  }

  lemma {:induction false} ReleaseFrom(p: Pool, j: nat, total: nat)
    requires j <= total == |p.info| && forall k | 0 <= k < total && p.info[k].used :: p.info[k].blocks > 0
    ensures CanRun(p, Releases(j, total))
    ensures var r := Run(p, Releases(j, total));
      && |r.info| == total && r.rover == p.rover && r.info[..j] == p.info[..j] && (forall k | j <= k < total :: !r.info[k].used)
    decreases total - j
  {
    if j < total {
      var once := p.(info := FreeStep(p.info, j));
      var twice := once.(info := FreeStep(once.info, j));
      var steps, rest := Releases(j, total), Releases(j + 1, total);
      assert steps[1..] == [ReleaseStep(j)] + rest && steps[1..][1..] == rest;
      ReleaseFrom(twice, j + 1, total);
      assert CanRun(once, steps[1..]) && Run(once, steps[1..]) == Run(twice, rest);
      var r := Run(twice, rest);
      assert r.info[..j + 1][j] == twice.info[..j + 1][j];
      assert r.info[..j] == r.info[..j + 1][..j] && twice.info[..j + 1][..j] == p.info[..j];
    }
  }

  lemma {:induction false} RunJoin(p: Pool, a: seq<Step>, b: seq<Step>)
    requires CanRun(p, a) && CanRun(Run(p, a), b)
    ensures CanRun(p, a + b) && Run(p, a + b) == Run(Run(p, a), b)
    decreases |a|
  {
    hide Enabled, Apply;
    if a == [] {
      assert a + b == b;
    } else {
      RunJoin(Apply(p, a[0]), a[1..], b);
      assert (a + b)[0] == a[0] && (a + b)[1..] == a[1..] + b;
    }
  }

  lemma Scaled(a: nat, n: nat, b: nat, size: nat)
    requires a + n <= b
    ensures a * size + n * size <= b * size
  {
    assert b * size - (a * size + n * size) == (b - a - n) * size;
  }

  /** An allocation leaves every other range in use as it was. */
  lemma AllocKeepsOthers(p: Pool, n: nat, j: nat)
    requires p.Inv() && n > 0 && Fits(p.info, Start(p, n), n) && p.Live(j)
    ensures var u := Take(p, Start(p, n), n);
      u.Live(j) && u.info[j] == p.info[j] && (u.End(j) <= Start(p, n) || Start(p, n) + n <= j)
  {
  }

  // ---- the scan ----

  /** The range handed out, by its first block and by the offset of its address. */
  datatype Result = Got(block: nat, offset: nat) | Full | Scanning

  lemma ReleasedTwice(a: seq<Entry>, b: seq<Entry>, c: seq<Entry>)
    requires Released(a, b) && Released(b, c)
    ensures Released(a, c)
  {
  }

  /** The variables of the scan. */
  datatype Scan = Scan(i: nat, limit: nat, avail: nat, from: nat, full: bool)
  {
    /** A scan from `t` that has met no used entry has counted every entry it passed; one that
        has is bound to fall one entry short. */
    predicate Progress(info: seq<Entry>, t: nat, n: nat, clean: bool)
    {
      && limit == from + n && i <= limit
      && if clean then from == t && i == t + avail && i <= |info| && (forall j | t <= j < i :: !info[j].used)
         else avail + from + 1 <= i
    }
  }

  class MemPool {
    const total: nat
    const blockSize: nat
    const entries: array<Entry>
    /** Where the entries are kept, from the start of the blocks. */
    const entriesAt: nat
    var rover: nat

    ghost predicate Valid()
      reads this, entries
    {
      entries.Length == total && blockSize > 0 && entriesAt == Offset(total, blockSize) && View().Inv()
    }

    ghost function View(): Pool
      reads this, entries
    {
      Pool(entries[..], rover)
    }

    /** `mempool_create`. */
    constructor (blockSize: nat, total: nat)
      requires blockSize > 0
      ensures Valid() && fresh(entries) && View() == Empty(total) && this.blockSize == blockSize
    {
      this.total, this.blockSize := total, blockSize;
      entriesAt := (total * blockSize) % Ring.U32;
      entries := new Entry[total](i => Entry(false, 0));
      rover := 0;
      new;
      assert entries[..] == Empty(total).info;
    }

    /** What the other thread stores while this one scans. */
    method Interleave(frees: seq<nat>)
      requires entries.Length == total
      modifies entries
      ensures entries[..] == FreeSteps(old(entries[..]), frees)
      ensures Released(old(entries[..]), entries[..])
    {
      ghost var was := entries[..];
      FreeStepsRelease(was, frees);
      var k := 0;
      assert frees[0..] == frees;
      while k < |frees|
        invariant k <= |frees| && FreeSteps(entries[..], frees[k..]) == FreeSteps(was, frees)
      {
        var j := frees[k];
        ghost var now := entries[..];
        assert frees[k..][0] == j && frees[k..][1..] == frees[k + 1..];
        if j < total && entries[j].used {
          entries[j] := if entries[j].blocks > 0 then Entry(true, 0) else Entry(false, 0);
        }
        assert entries[..] == FreeStep(now, j);
        k := k + 1;
      }
    }

    /** What the scan does at entry `i`: count it or jump over the range it heads, then start
        over when the next range would not fit. Before each of its two reads the other thread
        may have stored something. */
    method Visit(n: nat, t: nat, scan: Scan, noise: seq<seq<nat>>, ghost was: Pool, ghost wasClean: bool)
        returns (next: Scan, ghost mid: Pool, ghost clean: bool)
      requires Valid() && n > 0 && |noise| == 2 && was.Inv()
      requires Released(was.info, entries[..]) && rover == was.rover && t == Start(was, n)
      requires scan.i < total && scan.i < scan.limit && scan.Progress(entries[..], t, n, wasClean)
      modifies entries
      ensures Valid() && mid == View() && Released(was.info, mid.info) && rover == was.rover
      ensures noise[0] == [] && noise[1] == [] ==> mid == old(View())
      ensures next.full || next.Progress(mid.info, t, n, clean)
      ensures clean ==> wasClean && next.avail == scan.avail + 1
      ensures Fits(was.info, t, n) && wasClean ==> clean && !next.full
      ensures n == 1 && !next.full ==> next.i >= next.limit
    {
      hide Pool.Inv;
      Interleave(noise[0]);
      ReleasedTwice(was.info, old(entries[..]), entries[..]);
      ReleaseKeepsInv(was, entries[..]);
      next, clean := scan.(full := false), wasClean;
      if entries[scan.i].used {
        ghost var before := entries[..];
        Interleave(noise[1]);
        ReleasedTwice(was.info, before, entries[..]);
        ReleaseKeepsInv(was, entries[..]);
        var i := scan.i + entries[scan.i].blocks;
        next, clean := Scan(i, i + n, 0, i, false), false;
      } else {
        next := next.(avail := scan.avail + 1);
      }
      if next.limit > total {
        next, clean := Scan(0, n, 0, 0, n > rover), false;
      }
      next := next.(i := next.i + 1);
      mid := View();
    }
  
    /** `dma_memalloc` of dma-utils, `fuel` bounding the iterations looked at. It succeeds only
        where the whole range from the rover (or from 0, if the pool ends too soon) is free;
        anything used in that range makes it fail, however much is free elsewhere. */
    method Alloc(n: nat, noise: nat -> seq<seq<nat>>, fuel: nat) returns (r: Result, ghost mid: Pool)
      requires Valid() && n > 0 && forall k :: |noise(k)| == 2
      modifies this`rover, entries
      ensures Valid() && Released(old(entries[..]), mid.info) && mid.rover == old(rover)
      ensures (forall k :: noise(k) == [[], []]) ==> mid == old(View())
      ensures r.Got? ==> r.offset == Offset(r.block, blockSize)
      ensures r.Got? ==> r.block == Start(mid, n) && Fits(mid.info, r.block, n) && View() == Take(mid, r.block, n)
      ensures !r.Got? ==> View() == mid
      ensures Fits(old(entries[..]), Start(old(View()), n), n) && fuel >= n ==> r.Got?
      ensures n == 1 && fuel > 0 ==> !r.Scanning?
    {
      hide Pool.Inv;
      ghost var was, clean := View(), true;
      mid := was;
      var t := if rover + n > total then 0 else rover;
      var scan, steps := Scan(t, t + n, 0, t, false), 0;
      RoverInBounds(was);
      while scan.i < total && scan.i < scan.limit
        invariant Valid() && mid == View() && Released(was.info, mid.info) && rover == was.rover
        invariant (forall k :: noise(k) == [[], []]) ==> mid == was
        invariant scan.Progress(mid.info, t, n, clean)
        invariant (Fits(was.info, t, n) ==> clean) && (clean ==> steps == scan.avail)
        invariant n == 1 && steps > 0 ==> scan.i >= scan.limit
        invariant steps <= fuel
        decreases fuel - steps
      {
        if steps == fuel {
          return Scanning, mid;
        }
        scan, mid, clean := Visit(n, t, scan, noise(steps), was, clean);
        if scan.full {
          return Full, mid;
        }
        steps := steps + 1;
      }
      if scan.avail < n {
        return Full, mid;
      }
      TakeKeepsInv(mid, n);
      Claim(scan.from, n, scan.from + n);
      r := Got(scan.from, (scan.from * blockSize) % Ring.U32);
    }

    /** `dma_memalloc` of dma-xfer: the same scan, taking the range as soon as it is counted. */
    method AllocEarly(n: nat, noise: nat -> seq<seq<nat>>, fuel: nat) returns (r: Result, ghost mid: Pool)
      requires Valid() && n > 0 && forall k :: |noise(k)| == 2
      modifies this`rover, entries
      ensures Valid() && Released(old(entries[..]), mid.info) && mid.rover == old(rover)
      ensures (forall k :: noise(k) == [[], []]) ==> mid == old(View())
      ensures r.Got? ==> r.offset == Offset(r.block, blockSize)
      ensures r.Got? ==> r.block == Start(mid, n) && Fits(mid.info, r.block, n) && View() == Take(mid, r.block, n)
      ensures !r.Got? ==> View() == mid
      ensures Fits(old(entries[..]), Start(old(View()), n), n) && fuel >= n ==> r.Got?
      ensures n == 1 && fuel > 0 ==> !r.Scanning?
    {
      hide Pool.Inv;
      ghost var was, clean := View(), true;
      mid := was;
      var t := if rover + n > total then 0 else rover;
      var scan, steps := Scan(t, t + n, 0, t, false), 0;
      RoverInBounds(was);
      while scan.i < total && scan.i < scan.limit
        invariant Valid() && mid == View() && Released(was.info, mid.info) && rover == was.rover
        invariant (forall k :: noise(k) == [[], []]) ==> mid == was
        invariant scan.Progress(mid.info, t, n, clean)
        invariant (Fits(was.info, t, n) ==> clean) && (clean ==> steps == scan.avail)
        invariant n == 1 && steps > 0 ==> scan.i >= scan.limit
        invariant steps <= fuel && scan.avail < n
        decreases fuel - steps
      {
        if steps == fuel {
          return Scanning, mid;
        }
        scan, mid, clean := Visit(n, t, scan, noise(steps), was, clean);
        if scan.full {
          return Full, mid;
        }
        if scan.avail == n {
          TakeKeepsInv(mid, n);
          Claim(scan.from, n, scan.i);
          return Got(scan.from, (scan.from * blockSize) % Ring.U32), mid;
        }
        steps := steps + 1;
      }
      r := Full;
    }

    method Claim(t: nat, n: nat, next: nat)
      requires Valid() && t < total && next == t + n && Take(View(), t, n).Inv()
      modifies this`rover, entries
      ensures Valid() && View() == Take(old(View()), t, n)
    {
      entries[t] := Entry(true, n);
      rover := next;
      assert View() == Take(old(View()), t, n);
    }

    /** `dma_free` of a block by its byte offset in the pool, both stores. */
    method Free(offset: nat)
      requires Valid() && offset / blockSize < total
      modifies entries
      ensures Valid() && View() == old(View()).(info := old(entries[..])[offset / blockSize := Entry(false, 0)])
    {
      hide Pool.Inv;
      ghost var was := View();
      var idx := offset / blockSize;
      entries[idx] := entries[idx].(blocks := 0);
      entries[idx] := entries[idx].(used := false);
      assert View() == was.(info := was.info[idx := Entry(false, 0)]);
      FreeKeepsInv(was, idx);
    }
  }

  lemma FreeKeepsInv(p: Pool, j: nat)
    requires p.Inv() && j < |p.info|
    ensures p.(info := p.info[j := Entry(false, 0)]).Inv()
  {
    var info := p.info[j := Entry(false, 0)];
    var u := p.(info := info);
    assert forall k: nat | u.Live(k) :: p.Live(k) && u.info[k] == p.info[k];
  }

  lemma RoverInBounds(p: Pool)
    requires p.Inv()
    ensures p.rover <= |p.info|
  {
  }

  /** The offset of a block leads back to it if and only if it is not cut; otherwise to an
      earlier block, which a release at that offset frees in its place. */
  lemma BlockOfOffset(j: nat, size: nat)
    requires size > 0
    ensures Offset(j, size) / size <= j
    ensures Offset(j, size) / size == j <==> j * size < Ring.U32
  {
    if j * size < Ring.U32 {
      Ring.ModUnique(j * size, 0, j * size, Ring.U32);
      Ring.ModUnique(j * size, j, 0, size);
    } else {
      CutOffset(j, size);
    }
  }

  lemma CutOffset(j: nat, size: nat)
    requires size > 0 && j * size >= Ring.U32
    ensures Offset(j, size) / size < j
  {
    var o := Offset(j, size);
    var q := o / size;
    assert o == q * size + o % size;
    Below(q, j, size);
  }

  lemma Below(q: nat, j: nat, size: nat)
    requires q * size < j * size
    ensures q < j
  {
    Ring.MulGap(size, j - q);
    assert size * (j - q) == j * size - q * size;
  }
}
