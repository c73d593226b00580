/** Doorbell batching on the streaming path that fills its descriptors through a callback.

    Descriptors are fetched by the callback, committed at the end of a round, and published to
    the device only when the queue is not busy or enough of them have gathered. The backlog
    is counted in eight bits, and the counter survives a restart of the queue. */
module Doorbell {
  import opened Errno
  import Ring


  /** What an eight-bit counter keeps. */
  function Byte(n: nat): (r: nat)
    ensures r < 256 && (n < 256 ==> r == n)
  {
    n % 256
  }

  lemma ByteSum(a: nat, k: nat)
    ensures Byte(Byte(a) + k) == Byte(a + k)
  {
    assert a == 256 * (a / 256) + a % 256;
    assert a + k == 256 * (a / 256) + (a % 256 + k);
  }

  /** Absolute positions: retired by software, published to the device, committed by a round,
      fetched by the callback. `backlog` is the driver's counter; `carry` is what it held when
      the queue was last started, and is gone after the first publication. */
  datatype Bell = Bell(rngsz: nat, acc: nat, retired: nat, published: nat, committed: nat, fetched: nat,
                       backlog: nat, carry: nat)
  {
    predicate Inv()
    {
      && 0 < rngsz && acc <= rngsz - 1 && acc <= 255
      && retired <= published <= committed <= fetched <= retired + rngsz - 1
      && carry <= 255 && backlog == Byte(carry + (committed - published))
    }

    function Avail(): int
    {
      rngsz - 1 - (fetched - retired)
    }

    /** Descriptors wait for their doorbell while nothing at the device can bring the
        interrupt that would ring it. */
    predicate Lost()
    {
      published < committed && retired == published
    }
  }

  function Publish(b: Bell): Bell
  {
    b.(published := b.committed, backlog := 0, carry := 0)
  }

  /** `qdma_pidx_update`: publish when forced, when the queue is not busy, or when the backlog
      has reached the threshold. */
  function RingBell(b: Bell, force: bool): Bell
  {
    if RingsNow(b, force) then Publish(b) else b
  }

  predicate RingsNow(b: Bell, force: bool)
  {
    force || b.Avail() > (b.rngsz - 1) - b.acc || b.backlog >= b.acc
  }

  /** End of a round: everything fetched is committed and counted. */
  function Commit(b: Bell): Bell
    requires b.committed <= b.fetched
  {
    RingBell(Staged(b), false)
  }

  function Staged(b: Bell): Bell
    requires b.committed <= b.fetched
  {
    b.(committed := b.fetched, backlog := Byte(b.backlog + (b.fetched - b.committed)))
  }

  /** The completion path: nothing when the device has not moved, otherwise publish the rest. */
  function Complete(b: Bell, done: nat): Bell
  {
    if done == b.retired then b else RingBell(b.(retired := done), true)
  }

  function Fetch(b: Bell, count: nat): Bell
  {
    b.(fetched := b.fetched + count)
  }

  function Restarted(b: Bell, rngsz: nat, acc: nat): Bell
  {
    Bell(rngsz, acc, 0, 0, 0, 0, b.backlog, b.backlog)
  }

  datatype Step = FetchStep(count: nat) | CommitStep | CompleteStep(done: nat) | RestartStep(rngsz: nat, acc: nat)

  predicate Enabled(b: Bell, s: Step)
  {
    match s
    case FetchStep(count) => count <= b.Avail()
    case CommitStep => b.committed < b.fetched
    case CompleteStep(done) => b.retired <= done <= b.published
    case RestartStep(rngsz, acc) => 0 < rngsz && acc <= rngsz - 1 && acc <= 255
  }

  function Apply(b: Bell, s: Step): Bell
    requires b.Inv() && Enabled(b, s)
  {
    match s
    case FetchStep(count) => Fetch(b, count)
    case CommitStep => Commit(b)
    case CompleteStep(done) => Complete(b, done)
    case RestartStep(rngsz, acc) => Restarted(b, rngsz, acc)
  }

  lemma StepKeepsInv(b: Bell, s: Step)
    requires b.Inv() && Enabled(b, s)
    ensures Apply(b, s).Inv()
  {
    hide Byte;
    if s.CommitStep? {
      ByteSum(b.carry + (b.committed - b.published), b.fetched - b.committed);
    }
  }

  /** A round leaves its descriptors stranded exactly when nothing is in flight, the round is
      at least one threshold long, and the eight-bit count wraps to below the threshold. */
  lemma CommitStrands(b: Bell)
    requires b.Inv() && !b.Lost() && b.committed < b.fetched
    ensures var round := b.fetched - b.committed;
      Commit(b).Lost() <==>
        b.retired == b.published && round >= b.acc && b.carry + round >= 256 && Byte(b.carry + round) < b.acc
  {
    if b.retired == b.published {
      assert b.committed == b.published;
      ByteSum(b.carry, b.fetched - b.committed);
    }
  }

  /** A completion that sees progress publishes everything committed. */
  lemma CompletionPublishes(b: Bell, done: nat)
    requires b.Inv() && b.retired < done <= b.published
    ensures Complete(b, done).published == b.committed && !Complete(b, done).Lost()
  {
  }

  predicate CanRun(b: Bell, steps: seq<Step>)
    requires b.Inv()
    decreases |steps|
  {
    steps == [] || (Enabled(b, steps[0]) && (StepKeepsInv(b, steps[0]); CanRun(Apply(b, steps[0]), steps[1..])))
  }

  function Run(b: Bell, steps: seq<Step>): (r: Bell)
    requires b.Inv() && CanRun(b, steps)
    ensures r.Inv()
    decreases |steps|
  {
    if steps == [] then b else (StepKeepsInv(b, steps[0]); Run(Apply(b, steps[0]), steps[1..]))
  }

  /** No run that keeps every round, with what the counter carried in, below 256 descriptors. */
  predicate ShortRounds(b: Bell, steps: seq<Step>)
    requires b.Inv() && CanRun(b, steps)
    decreases |steps|
  {
    steps == []
    || ((steps[0].CommitStep? ==> b.carry + (b.fetched - b.committed) < 256)
        && (StepKeepsInv(b, steps[0]); ShortRounds(Apply(b, steps[0]), steps[1..])))
  }

  /** With short rounds no doorbell is ever lost, over any run. */
  lemma {:induction false} NoDoorbellLost(b: Bell, steps: seq<Step>)
    requires b.Inv() && !b.Lost() && CanRun(b, steps) && ShortRounds(b, steps)
    ensures !Run(b, steps).Lost()
    decreases |steps|
  {
    if steps != [] {
      StepKeepsInv(b, steps[0]);
      if steps[0].CommitStep? {
        CommitStrands(b);
      }
      NoDoorbellLost(Apply(b, steps[0]), steps[1..]);
    }
  }

  /** One round of `n` descriptors on an idle ring. */
  lemma IdleRound(b: Bell, n: nat) returns (steps: seq<Step>)
    requires b.Inv() && b.retired == b.fetched && 0 < n <= b.Avail()
    ensures steps == [FetchStep(n), CommitStep] && CanRun(b, steps)
    ensures Run(b, steps).Lost() <==> n >= b.acc && b.carry + n >= 256 && Byte(b.carry + n) < b.acc
  {
    hide Byte, CanRun, Run, RingBell;
    RunNothing(b);
    RunThen(b, [], FetchStep(n));
    var c := Fetch(b, n);
    CommitStrands(c);
    steps := [] + [FetchStep(n)];
    RunThen(b, steps, CommitStep);
    steps := steps + [CommitStep];
  }

  lemma ByteOver(n: nat)
    requires 256 <= n < 512
    ensures Byte(n) == n - 256
  {
  }

  /** A ring of 512 slots with a threshold of 8: one round of 256 descriptors is stranded. */
  lemma LongRoundStrands(b: Bell) returns (steps: seq<Step>)
    requires b == Bell(512, 8, 0, 0, 0, 0, 0, 0)
    ensures CanRun(b, steps) && !b.Lost() && Run(b, steps).Lost()
  {
    steps := WrappedRound(b, 256);
  }

  /** On an idle ring with an empty backlog, a round that comes just past a wrap of the count. */
  lemma WrappedRound(b: Bell, n: nat) returns (steps: seq<Step>)
    requires b.Inv() && b.retired == b.fetched && b.carry == 0 && 256 <= n < 256 + b.acc && n <= b.Avail()
    ensures CanRun(b, steps) && Run(b, steps).Lost()
  {
    hide Byte, CanRun, Run;
    ByteOver(n);
    steps := IdleRound(b, n);
  }

  /** A round of one threshold, published at once, then a shorter one that is left unpublished:
      a restart at this point carries its length over. */
  lemma LeaveBacklog(b: Bell, m: nat) returns (steps: seq<Step>)
    requires b.Inv() && b == Bell(b.rngsz, b.acc, 0, 0, 0, 0, 0, 0) && 0 < m < b.acc && b.acc + m <= b.Avail()
    ensures steps == [FetchStep(b.acc), CommitStep, FetchStep(m), CommitStep, RestartStep(b.rngsz, b.acc)]
    ensures CanRun(b, steps) && Run(b, steps) == Bell(b.rngsz, b.acc, 0, 0, 0, 0, m, m)
  {
    hide Byte, CanRun, Run;
    RunNothing(b);
    steps := Do(b, [], FetchStep(b.acc));
    steps := Do(b, steps, CommitStep);
    steps := Do(b, steps, FetchStep(m));
    steps := Do(b, steps, CommitStep);
    steps := Do(b, steps, RestartStep(b.rngsz, b.acc));
  }

  /** A ring of 512 slots with a threshold of 8, stopped with a backlog of 7 and started again:
      250 descriptors are enough. */
  lemma StaleBacklogStrands(b: Bell) returns (steps: seq<Step>)
    requires b == Bell(512, 8, 0, 0, 0, 0, 0, 0)
    ensures steps == [FetchStep(8), CommitStep, FetchStep(7), CommitStep, RestartStep(512, 8), FetchStep(250), CommitStep]
    ensures CanRun(b, steps) && Run(b, steps).Lost()
  {
    hide Byte, CanRun, Run;
    var before := LeaveBacklog(b, 7);
    var round := IdleRound(Run(b, before), 250);
    ByteOver(257);
    RunJoin(b, before, round);
    steps := before + round;
  }

  lemma Do(b: Bell, steps: seq<Step>, step: Step) returns (more: seq<Step>)
    requires b.Inv() && CanRun(b, steps) && Enabled(Run(b, steps), step)
    ensures more == steps + [step] && CanRun(b, more) && Run(b, more) == Apply(Run(b, steps), step)
  {
    RunThen(b, steps, step);
    more := steps + [step];
  }

  lemma {:induction false} RunThen(b: Bell, steps: seq<Step>, last: Step)
    requires b.Inv() && CanRun(b, steps) && Enabled(Run(b, steps), last)
    ensures CanRun(b, steps + [last]) && Run(b, steps + [last]) == Apply(Run(b, steps), last)
    decreases |steps|
  {
    StepKeepsInv(Run(b, steps), last);
    if steps == [] {
      assert [last][1..] == [];
      assert steps + [last] == [last];
    } else {
      StepKeepsInv(b, steps[0]);
      RunThen(Apply(b, steps[0]), steps[1..], last);
      assert (steps + [last])[0] == steps[0] && (steps + [last])[1..] == steps[1..] + [last];
    }
  }

  function Sum(xs: seq<nat>): nat
  {
    if xs == [] then 0 else Sum(xs[..|xs| - 1]) + xs[|xs| - 1]
  }

  lemma SumNone()
    ensures Sum([]) == 0
  {
  }

  lemma SumMore(xs: seq<nat>, n: nat)
    requires n < |xs|
    ensures Sum(xs[..n + 1]) == Sum(xs[..n]) + xs[n]
  {
    assert xs[..n + 1][..n] == xs[..n];
  }

  /** When an update that is not forced leaves nothing unpublished: when nothing was, when fewer
      descriptors than a threshold are in use, or when the backlog has reached the threshold. */
  lemma PublishesExactly(b: Bell)
    requires b.Inv()
    ensures RingBell(b, false).published == b.committed <==>
      b.published == b.committed || b.fetched - b.retired < b.acc || b.acc <= b.backlog
    ensures RingBell(b, true).published == b.committed
    ensures forall force :: RingBell(b, force).published != b.committed ==> RingBell(b, force) == b
  {
    hide Byte;
  }

  /** The queue as the driver keeps it: wrapped indices and an eight-bit backlog. */
  class BatchedQueue {
    var rngsz: nat
    var acc: nat
    var pidx: nat
    var cidx: nat
    var avail: int
    var pending: nat
    var infoPidx: nat
    var doorbell: nat
    var statusCidx: nat
    ghost var bell: Bell
    ghost var done: nat

    ghost predicate Valid()
      reads this
    {
      && bell.Inv() && bell.retired <= done <= bell.published
      && rngsz == bell.rngsz && acc == bell.acc && pending == bell.backlog && avail == bell.Avail()
      && pidx == Ring.Slot(bell.fetched, rngsz) && cidx == Ring.Slot(bell.retired, rngsz) && statusCidx == Ring.Slot(done, rngsz)
      && doorbell == Ring.Slot(bell.published, rngsz) && (bell.committed > 0 ==> infoPidx == Ring.Slot(bell.committed, rngsz))
    }

    constructor (rngsz: nat, acc: nat)
      requires 0 < rngsz && acc <= rngsz - 1 && acc <= 255
      ensures Valid() && bell == Bell(rngsz, acc, 0, 0, 0, 0, 0, 0) && done == 0
    {
      this.rngsz, this.acc, pidx, cidx, avail := rngsz, acc, 0, 0, rngsz - 1;
      pending, infoPidx, doorbell, statusCidx := 0, 0, 0, 0;
      bell, done := Bell(rngsz, acc, 0, 0, 0, 0, 0, 0), 0;
    }

    /** The device consumes up to `count` published descriptors and writes its index back. */
    method HardwareStep(count: nat)
      requires Valid()
      modifies this`statusCidx, this`done
      ensures Valid() && done == if old(done) + count <= bell.published then old(done) + count else bell.published
    {
      var left := Ring.Delta(statusCidx, doorbell, rngsz);
      Ring.DeltaIsDistance(done, bell.published, rngsz);
      var move := if count <= left then count else left;
      Ring.ModStep(done, move, rngsz);
      statusCidx := Ring.Incr(statusCidx, move, rngsz);
      done := done + move;
    }

    /** The part of `qdma_descq_config_complete` that starts the ring anew: neither the backlog nor
        the index committed last is cleared. */
    method Restart(rngsz: nat, acc: nat)
      requires Valid() && 0 < rngsz && acc <= rngsz - 1 && acc <= 255
      modifies this
      ensures Valid() && bell == Restarted(old(bell), rngsz, acc) && done == 0 && infoPidx == old(infoPidx)
    {
      this.rngsz, this.acc, pidx, cidx, avail := rngsz, acc, 0, 0, rngsz - 1;
      doorbell, statusCidx := 0, 0;
      bell, done := Restarted(bell, rngsz, acc), 0;
    }

    /** `qdma_pidx_update`. It writes whatever was committed last, so that before the first round
        the index is that of an earlier start. */
    method PidxUpdate(force: bool)
      requires Valid()
      modifies this`pending, this`doorbell, this`bell
      ensures bell == RingBell(old(bell), force) && pending == bell.backlog
      ensures doorbell == if RingsNow(old(bell), force) then infoPidx else old(doorbell)
      ensures old(bell).committed > 0 ==> Valid()
    {
      hide Byte;
      bell := RingBell(bell, force);
      if !force && avail <= (rngsz - 1) - acc && pending < acc {
        return;
      }
      doorbell := infoPidx;
      pending := 0;
    }

    /** `descq_mm_n_h2c_cmpl_status`, its index part. The early exit on an empty ring agrees
        with the later one, since the device has nothing to consume then. */
    method CmplStatus()
      requires Valid()
      modifies this`cidx, this`avail, this`pending, this`doorbell, this`bell
      ensures Valid() && bell == Complete(old(bell), done)
    {
      hide Byte;
      Ring.DeltaIsDistance(bell.retired, done, rngsz);
      if pidx == cidx {
        Ring.DeltaIsDistance(bell.retired, bell.fetched, rngsz);
        return;
      }
      if statusCidx == cidx {
        return;
      }
      var credits := Ring.Delta(cidx, statusCidx, rngsz);
      cidx := statusCidx;
      avail := avail + credits;
      bell := bell.(retired := done);
      PidxUpdate(true);
    }

    /** `qdma_q_desc_get`: hand out `count` slots, polling once when they are short. */
    method DescGet(count: nat) returns (rc: int, slot: nat, ghost trace: seq<Step>)
      requires Valid()
      modifies this`cidx, this`avail, this`pending, this`doorbell, this`pidx, this`bell
      ensures Valid() && old(bell.Inv())
      ensures CanRun(old(bell), trace) && bell == Run(old(bell), trace)
      ensures bell.committed == old(bell).committed && (old(bell).carry == 0 ==> bell.carry == 0)
      ensures bell.carry <= old(bell).carry
      ensures rc == -EINVAL <==> count >= rngsz
      ensures rc == 0 <==>
        count < rngsz && (count <= old(bell).Avail() || count <= Complete(old(bell), done).Avail())
      ensures rc == 0 || (rc == -EINVAL && bell == old(bell)) || (rc == -EBUSY && bell == Complete(old(bell), done))
      ensures rc == 0 ==> slot == old(pidx) && bell.fetched == old(bell).fetched + count
      ensures rc != 0 ==> bell.fetched == old(bell).fetched
      ensures !old(bell).Lost() ==> !bell.Lost()
    {
      hide Byte;
      trace := [];
      if count >= rngsz {
        return -EINVAL, 0, trace;
      }
      if avail < count {
        RunThen(bell, trace, CompleteStep(done));
        trace := trace + [CompleteStep(done)];
        CmplStatus();
      }
      if avail < count {
        return -EBUSY, 0, trace;
      }
      RunThen(old(bell), trace, FetchStep(count));
      trace := trace + [FetchStep(count)];
      slot := HandOut(count);
      rc := 0;
    }

    /** The slots from the producer index on. */
    method HandOut(count: nat) returns (slot: nat)
      requires Valid() && count <= bell.Avail()
      modifies this`avail, this`pidx, this`bell
      ensures Valid() && slot == old(pidx) && bell == Fetch(old(bell), count)
    {
      hide Byte;
      Ring.ModStep(bell.fetched, count, rngsz);
      slot := pidx;
      pidx := Ring.Incr(pidx, count, rngsz);
      avail := avail - count;
      bell := Fetch(bell, count);
    }
  
    /** `descq_proc_st_h2c_request_qep`, one round of its outer loop: let the callback fill
        descriptors for one packet after another until a threshold is gathered or one packet
        does not fit, then commit. `wants` is what the callback asks for, packet by packet;
        `moves` is what the device consumes in between. */
    method Round(wants: seq<nat>, moves: seq<nat>) returns (taken: nat, written: nat, ghost trace: seq<Step>)
      requires Valid() && |moves| == |wants| && bell.committed == bell.fetched
      requires forall k :: 0 <= k < |wants| ==> 0 < wants[k]
      modifies this
      ensures Valid() && old(bell.Inv()) && CanRun(old(bell), trace) && bell == Run(old(bell), trace)
      ensures taken <= |wants| && bell.fetched == old(bell).fetched + written && written == Sum(wants[..taken])
      ensures taken > 0 ==> written - wants[taken - 1] < acc || taken == 1
      ensures bell.committed == bell.fetched
      ensures taken < |wants| ==> (0 < written && written >= acc) || bell.Avail() < wants[taken]
      ensures !old(bell).Lost() && old(bell).carry + written < 256 ==> !bell.Lost()
    {
      hide CanRun, Run, RingBell, Byte, Ring.Slot, Sum;
      ghost var before := bell;
      taken, written, trace := Gather(wants, moves);
      if written == 0 {
        return;
      }
      RunThen(before, trace, CommitStep);
      trace := trace + [CommitStep];
      CommitFacts(bell);
      CommitRound(written);
    }

    /** The loop of a round, before anything is committed. */
    method Gather(wants: seq<nat>, moves: seq<nat>) returns (taken: nat, written: nat, ghost trace: seq<Step>)
      requires Valid() && |moves| == |wants|
      requires forall k :: 0 <= k < |wants| ==> 0 < wants[k]
      modifies this
      ensures Valid() && old(bell.Inv()) && CanRun(old(bell), trace) && bell == Run(old(bell), trace)
      ensures bell.committed == old(bell).committed && bell.fetched == old(bell).fetched + written
      ensures rngsz == old(rngsz) && acc == old(acc) && bell.carry <= old(bell).carry && (old(bell).Lost() || !bell.Lost())
      ensures taken <= |wants| && written == Sum(wants[..taken]) && (taken > 0 <==> written > 0)
      ensures taken > 1 ==> written - wants[taken - 1] < acc
      ensures taken < |wants| ==> (0 < written && written >= acc) || bell.Avail() < wants[taken]
    {
      hide CanRun, Run, RingBell, Byte, Ring.Slot, Sum;
      taken, written, trace := 0, 0, [];
      ghost var before := bell;
      RunNothing(bell);
      assert wants[..0] == [];
      SumNone();
      while taken < |wants| && avail > 0
        invariant Valid() && 0 <= taken <= |wants|
        invariant before.Inv() && CanRun(before, trace) && bell == Run(before, trace)
        invariant bell.committed == before.committed && bell.fetched == before.fetched + written
        invariant rngsz == before.rngsz && acc == before.acc && bell.carry <= before.carry
        invariant written == Sum(wants[..taken])
        invariant (before.Lost() || !bell.Lost()) && (taken == 0 ==> written == 0) && (0 < taken ==> 0 < written < acc)
        invariant taken > 1 ==> written - wants[taken - 1] < acc
        decreases |wants| - taken
      {
        var rc, more := FillPacket(wants[taken], moves[taken]);
        RunJoin(before, trace, more);
        trace := trace + more;
        if rc != 0 {
          break;
        }
        SumMore(wants, taken);
        written := written + wants[taken];
        taken := taken + 1;
        if written >= acc {
          break;
        }
      }
    }

    /** One call of the callback, after the device has moved. */
    method FillPacket(want: nat, move: nat) returns (rc: int, ghost trace: seq<Step>)
      requires Valid()
      modifies this
      ensures Valid() && old(bell.Inv()) && CanRun(old(bell), trace) && bell == Run(old(bell), trace)
      ensures bell.committed == old(bell).committed && bell.carry <= old(bell).carry
      ensures bell.rngsz == old(bell).rngsz && bell.acc == old(bell).acc
      ensures bell.fetched == old(bell).fetched + (if rc == 0 then want else 0)
      ensures rc != 0 ==> bell.Avail() < want
      ensures !old(bell).Lost() ==> !bell.Lost()
    {
      hide CanRun, Run, RingBell, Byte, Ring.Slot;
      HardwareStep(move);
      var slot;
      rc, slot, trace := DescGet(want);
    }

    /** The fetched descriptors become the committed position and enter the backlog. */
    method Stage(written: nat)
      requires Valid() && 0 < written == bell.fetched - bell.committed
      modifies this`pending, this`bell, this`infoPidx
      ensures Valid() && bell == Staged(old(bell))
    {
      hide Byte, Ring.Slot;
      ByteSum(bell.carry + (bell.committed - bell.published), written);
      pending := Byte(pending + written);
      infoPidx := pidx;
      bell := Staged(bell);
    }

    method CommitRound(written: nat)
      requires Valid() && 0 < written == bell.fetched - bell.committed
      modifies this`pending, this`doorbell, this`bell, this`infoPidx
      ensures Valid() && bell == Commit(old(bell))
    {
      hide RingBell;
      Stage(written);
      PidxUpdate(false);
    }
  }

  lemma CommitFacts(b: Bell)
    requires b.Inv() && b.committed < b.fetched
    ensures var c := Commit(b);
      && c.committed == c.fetched == b.fetched && c.retired == b.retired && c.rngsz == b.rngsz && c.acc == b.acc
      && (!b.Lost() && b.carry + (b.fetched - b.committed) < 256 ==> !c.Lost())
  {
    if !b.Lost() {
      CommitStrands(b);
    }
  }

  lemma RunNothing(b: Bell)
    requires b.Inv()
    ensures CanRun(b, []) && Run(b, []) == b
  {
  }

  lemma {:induction false} RunJoin(b: Bell, first: seq<Step>, second: seq<Step>)
    requires b.Inv() && CanRun(b, first) && CanRun(Run(b, first), second)
    ensures CanRun(b, first + second) && Run(b, first + second) == Run(Run(b, first), second)
    decreases |first|
  {
    if first == [] {
      assert first + second == second;
    } else {
      StepKeepsInv(b, first[0]);
      RunJoin(Apply(b, first[0]), first[1..], second);
      assert (first + second)[0] == first[0] && (first + second)[1..] == first[1..] + second;
    }
  }
}
