/** What the driver promises, for every state a run of the descriptor queue can reach. */
module DescqTheorems {
  import opened Transfer
  import opened DescqState
  import opened DescqProofs
  import Ring

  // ---------------------------------------------------------------- bytes

  lemma {:induction false} BytesConcat(conf: Conf, a: seq<Desc>, b: seq<Desc>)
    ensures Bytes(conf, a + b) == Bytes(conf, a) + Bytes(conf, b)
  {
    hide DescBytes;
    if a == [] {
      assert a + b == b;
    } else {
      BytesConcat(conf, a[1..], b);
      assert (a + b)[1..] == a[1..] + b && (a + b)[0] == a[0];
    }
  }

  /** Bytes asked for by a list of requests, one after the other. */
  function WantedAll(conf: Conf, rs: seq<Request>): seq<BytePair>
    requires conf.Valid() && AllWellFormed(rs)
  {
    if rs == [] then [] else WantedAll(conf, rs[..|rs| - 1]) + Wanted(conf, rs[|rs| - 1], 0)
  }

  lemma {:induction false} PlansBytes(conf: Conf, rs: seq<Request>)
    requires conf.Valid() && AllWellFormed(rs) && forall i :: 0 <= i < |rs| ==> conf.Moves(rs[i])
    ensures Bytes(conf, Plans(conf, rs)) == WantedAll(conf, rs)
  {
    hide Plan, Bytes, Wanted;
    if rs == [] {
      NoBytes(conf);
    } else {
      var r := rs[|rs| - 1];
      PlansBytes(conf, rs[..|rs| - 1]);
      PlanIsByteExact(conf, r, 0);
      BytesConcat(conf, Plans(conf, rs[..|rs| - 1]), Plan(conf, r, 0));
    }
  }

  lemma NoBytes(conf: Conf)
    ensures Bytes(conf, []) == []
  {
  }

  /** However passes were interrupted, what was posted transfers the accepted requests byte by
      byte: all of every finished and pending request, then the part of the first waiting
      request that its offset counts, which is nothing for one that does not move. */
  lemma PostedBytes(s: St)
    requires Inv(s) && s.online
    ensures AllWellFormed(s.h.finished + Reqs(s.pend))
    ensures Bytes(s.conf, s.h.log) == WantedAll(s.conf, s.h.finished + Reqs(s.pend))
      + if s.work == [] then [] else Wanted(s.conf, s.work[0].req, 0)[..s.work[0].offset]
  {
    hide Plan, Plans, Bytes, Wanted, WantedAll, CreditOk, Window, CallsOk, DrainOk, Cut, CutEnd;
    var rs := s.h.finished + Reqs(s.pend);
    PendReqsOk(s.conf, s.pend);
    PlansBytes(s.conf, rs);
    if s.work != [] {
      var e := s.work[0];
      BytesConcat(s.conf, Plans(s.conf, rs), Cut(s.conf, e.req, 0, e.descNr));
      CutIsByteExact(s.conf, e.req, 0, e.descNr);
    }
  }

  // ---------------------------------------------------------------- completion

  /** Where in the log the first `n` requests end. */
  function EndOf(conf: Conf, rs: seq<Request>, n: nat): nat
    requires conf.Valid() && AllWellFormed(rs) && n <= |rs|
  {
    |Plans(conf, rs[..n])|
  }

  lemma {:induction false} EndsGrow(conf: Conf, rs: seq<Request>, m: nat, n: nat)
    requires conf.Valid() && AllWellFormed(rs) && m <= n <= |rs|
    ensures EndOf(conf, rs, m) <= EndOf(conf, rs, n)
  {
    hide Plan, Plans;
    PlansConcat(conf, rs[..m], rs[m..n]);
    assert rs[..n] == rs[..m] + rs[m..n];
  }

  /** Completion is in order, never early and never late: of the requests posted in full, the
      ones called back are exactly those whose last descriptor has been seen consumed. */
  lemma DoneExactlyWhenConsumed(s: St, i: nat)
    requires Inv(s) && s.online && i < |s.h.finished| + |s.pend|
    ensures AllWellFormed(s.h.finished + Reqs(s.pend))
    ensures i < |s.h.finished| <==> EndOf(s.conf, s.h.finished + Reqs(s.pend), i + 1) <= s.h.consumed
    ensures i < |s.h.finished| ==>
      s.h.epoch + i < |s.callbacks| && s.callbacks[s.h.epoch + i] == Callback(s.h.finished[i], s.h.finished[i].count, 0)
  {
    hide Plan, Plans, LogOk, Window, DrainOk;
    var rs := s.h.finished + Reqs(s.pend);
    var f := |s.h.finished|;
    assert rs[..f] == s.h.finished;
    if i < f {
      EndsGrow(s.conf, rs, i + 1, f);
      assert s.callbacks[s.h.epoch..][i] == Successes(s.h.finished)[i];
    } else {
      PlansSnoc(s.conf, s.h.finished, s.pend[0].req);
      assert rs[..f + 1] == s.h.finished + [s.pend[0].req];
      EndsGrow(s.conf, rs, f + 1, i + 1);
    }
  }

  lemma {:induction false} CutValid(conf: Conf, req: Request, off: nat, max: nat)
    requires conf.Valid() && WellFormed(req) && off <= req.count
    ensures forall i | 0 <= i < |Cut(conf, req, off, max)| :: Cut(conf, req, off, max)[i].valid
    decreases max
  {
    if max > 0 && off < req.count {
      CutValid(conf, req, off + ChunkLen(conf, req, off), max - 1);
    }
  }

  lemma {:induction false} PlansValid(conf: Conf, rs: seq<Request>)
    requires conf.Valid() && AllWellFormed(rs) && forall i :: 0 <= i < |rs| ==> conf.Moves(rs[i])
    ensures forall i | 0 <= i < |Plans(conf, rs)| :: Plans(conf, rs)[i].valid
  {
    if rs != [] {
      PlansValid(conf, rs[..|rs| - 1]);
      PlanValid(conf, rs[|rs| - 1], 0);
    }
  }

  lemma {:induction false} PlanValid(conf: Conf, req: Request, off: nat)
    requires conf.Valid() && WellFormed(req) && off <= req.count
    ensures forall i | 0 <= i < |Plan(conf, req, off)| :: Plan(conf, req, off)[i].valid
    decreases req.count - off
  {
    if off < req.count && conf.Moves(req) {
      PlanValid(conf, req, off + ChunkLen(conf, req, off));
    }
  }

  /** Every descriptor ever posted is marked valid. */
  lemma PostedAreValid(s: St)
    requires Inv(s) && s.online
    ensures forall i | 0 <= i < |s.h.log| :: s.h.log[i].valid
  {
    hide Plan, Plans, CreditOk, Window, CallsOk, DrainOk, Cut, CutEnd;
    PendReqsOk(s.conf, s.pend);
    PlansValid(s.conf, s.h.finished + Reqs(s.pend));
    if s.work != [] {
      CutValid(s.conf, s.work[0].req, 0, s.work[0].descNr);
    }
  }

  /** The device, starting at the index it last wrote back and stopping at the doorbell, finds
      in the ring exactly the descriptors planned for the requests, up to packet flags, all of
      them valid. */
  lemma DeviceReads(s: St, i: nat)
    requires Inv(s) && s.online && i < Ring.Delta(s.statusCidx, s.doorbell, s.conf.rngsz)
    ensures s.h.hwDone + i < s.h.published
    ensures var d := s.ring[Ring.Incr(s.statusCidx, i, s.conf.rngsz)];
      Strip(d) == s.h.log[s.h.hwDone + i] && d.valid
  {
    hide Plan, Plans, LogOk, DrainOk, CreditOk, CallsOk;
    Ring.DeltaIsDistance(s.h.hwDone, s.h.published, s.conf.rngsz);
    Ring.ModStep(s.h.hwDone, i, s.conf.rngsz);
    PostedAreValid(s);
  }

  /** What a pass leaves in the ring: the new descriptors in the slots of their positions, a
      memory-mapped pass being one packet, with its first descriptor marked SOP and its last EOP;
      on a streaming queue the flag of the slot that follows cleared, unless that is slot 0; and
      every other slot as it was. */
  lemma PassStores(s: St)
    requires Inv(s) && s.online && CanPass(s)
    ensures var t, size := Pass(s), s.conf.rngsz;
      && |s.h.log| < |t.h.log| < |s.h.log| + size && |t.ring| == size
      && (forall i | |s.h.log| <= i < |t.h.log| ::
            t.ring[Ring.Slot(i, size)]
            == t.h.log[i].(sop := !s.conf.st && i == |s.h.log|, eop := !s.conf.st && i == |t.h.log| - 1))
      && (forall j | 0 <= j < size && (forall i | |s.h.log| <= i < |t.h.log| :: j != Ring.Slot(i, size)) ::
            t.ring[j] == if s.conf.st && j != 0 && j == Ring.Slot(|t.h.log|, size) then s.ring[j].(valid := false) else s.ring[j])
  {
    hide Plan, Plans, LogOk, CreditOk, DrainOk, Window, CallsOk, Cut, CutEnd;
    PassGrows(s);
    var t, size, e := Pass(s), s.conf.rngsz, s.work[0];
    var ds := Cut(s.conf, e.req, e.offset, s.avail);
    forall i | |s.h.log| <= i < |t.h.log|
      ensures t.ring[Ring.Slot(i, size)]
           == t.h.log[i].(sop := !s.conf.st && i == |s.h.log|, eop := !s.conf.st && i == |t.h.log| - 1)
    {
      SlotDistance(|s.h.log|, i, size);
      CutUnmarked(s.conf, e.req, e.offset, s.avail, i - |s.h.log|);
    }
    forall j | 0 <= j < size && (forall i | |s.h.log| <= i < |t.h.log| :: j != Ring.Slot(i, size))
      ensures t.ring[j] == if s.conf.st && j != 0 && j == Ring.Slot(|t.h.log|, size) then s.ring[j].(valid := false) else s.ring[j]
    {
      var k := Ring.Delta(s.pidx, j, size);
      Ring.ModStep(|s.h.log|, k, size);
      assert j == Ring.Slot(|s.h.log| + k, size);
      Ring.ModStep(|s.h.log|, |ds|, size);
      if k > |ds| {
        Ring.ModDistinct(|t.h.log|, |s.h.log| + k, size);
      }
    }
  }

  /** What the software has seen consumed, the device has processed, and what the device has
      processed was published; nothing posted is more than a ring ahead. */
  lemma PositionsInOrder(s: St)
    requires Inv(s) && s.online
    ensures s.h.consumed <= s.h.hwDone <= s.h.published <= |s.h.log|
    ensures s.avail + (|s.h.log| - s.h.consumed) == s.conf.rngsz - 1
    ensures s.avail + (s.pidx - s.cidx) % s.conf.rngsz == s.conf.rngsz - 1
    ensures s.pidx == s.cidx <==> s.avail == s.conf.rngsz - 1
  {
    hide Plan, Plans, LogOk, Window, DrainOk, CreditOk;
    CompleteDistance(s);
    IndexDistance(s.h.consumed, |s.h.log|, s.conf.rngsz);
  }

  lemma IndexDistance(a: nat, b: nat, size: nat)
    requires 0 < size && a <= b < a + size
    ensures (b % size - a % size) % size == b - a
  {
    Ring.DeltaIsDistance(a, b, size);
    if b % size < a % size {
      Ring.ModStep(b - a, 0, size);
      NegMod(b - a, size);
    } else {
      SmallMod(b - a, size);
    }
  }

  lemma SmallMod(x: nat, size: nat)
    requires x < size
    ensures x % size == x
  {
    Ring.ModUnique(x, 0, x, size);
  }

  lemma NegMod(x: nat, size: nat)
    requires x < size
    ensures (x - size) % size == x
  {
    var d := x - size;
    var q, r := d / size, d % size;
    assert d == size * q + r;
    Ring.MulGap(size, q + 1);
    assert size * (q + 1) == size * q + size;
  }

  /** Sum of the descriptor counts on both lists. */
  function Owed(es: seq<Entry>): int
  {
    if es == [] then 0 else es[0].descNr + Owed(es[1..])
  }

  lemma {:induction false} OwedFull(conf: Conf, pend: seq<Entry>)
    requires conf.Valid() && PendOk(conf, pend)
    requires pend != [] ==> pend[0].descNr == |Plan(conf, pend[0].req, 0)|
    ensures AllWellFormed(Reqs(pend)) && Owed(pend) == |Plans(conf, Reqs(pend))|
  {
    hide Plan, Plans;
    if pend == [] {
      PlansNone(conf);
    } else {
      assert PendOk(conf, pend[1..]) by {
        assert forall i :: 0 <= i < |pend[1..]| ==> pend[1..][i] == pend[i + 1];
      }
      OwedFull(conf, pend[1..]);
      PlansConcat(conf, [pend[0].req], Reqs(pend[1..]));
      PlansNone(conf);
      PlansSnoc(conf, [], pend[0].req);
      assert [] + [pend[0].req] == [pend[0].req];
      assert Reqs(pend) == [pend[0].req] + Reqs(pend[1..]);
    }
  }

  lemma {:induction false} OwedFresh(work: seq<Entry>)
    requires forall i :: 0 <= i < |work| ==> work[i].descNr == 0
    ensures Owed(work) == 0
  {
    if work != [] {
      OwedFresh(work[1..]);
    }
  }

  /** Descriptors on the two lists, less the credit in hand, are the outstanding ones. */
  lemma CreditConservation(s: St)
    requires Inv(s) && s.online
    ensures Owed(s.pend) + Owed(s.work) - s.credit == |s.h.log| - s.h.consumed
  {
    hide Plan, Plans, Window, DrainOk, CallsOk;
    PendReqsOk(s.conf, s.pend);
    PlansConcat(s.conf, s.h.finished, Reqs(s.pend));
    if s.work != [] {
      OwedFresh(s.work[1..]);
    }
    if s.pend == [] {
      PlansNone(s.conf);
    } else {
      var full := s.pend[0].(descNr := |Plan(s.conf, s.pend[0].req, 0)|);
      var pend := [full] + s.pend[1..];
      assert Reqs(pend) == Reqs(s.pend);
      assert pend[1..] == s.pend[1..];
      OwedFull(s.conf, pend);
    }
  }

  /** After a completion that saw progress, no credit is left while a request still waits. */
  lemma CompletionSpendsCredit(s: St)
    requires Inv(s) && s.online && NewWriteback(s)
    ensures Complete(s).pend != [] ==> Complete(s).credit == 0
    ensures Complete(s).h.consumed == s.h.hwDone
  {
    hide Plan, Plans, Window, DrainOk, LogOk, Drain;
    CompleteDistance(s);
    DrainLists(s.conf, s.h.finished, s.pend, s.credit + (s.h.hwDone - s.h.consumed));
    DrainKeepsPosition(s.conf, s.h.finished, s.pend, s.credit + (s.h.hwDone - s.h.consumed));
    CompleteCounters(s);
  }

  /** When left-over credit stops meaning that nothing is pending: exactly when a pass completes
      the posting of a request while there is credit in hand. */
  lemma CreditRuleBreaks(s: St, step: Step)
    requires Inv(s) && s.online && Enabled(s, step) && (s.credit > 0 ==> s.pend == [])
    ensures var t := Apply(s, step);
      t.online && t.credit > 0 && t.pend != [] <==>
        step.PassStep? && s.credit > 0
        && CutEnd(s.conf, s.work[0].req, s.work[0].offset, s.avail) == s.work[0].req.count
  {
    hide Plan, Plans, Window, DrainOk, LogOk, Drain, Cut, CutEnd, StoreAll, Mark, CallsOk;
    if step.PollStep? && NewWriteback(s) {
      CompletionSpendsCredit(s);
    }
  }

  /** What a start leaves: empty lists of its own, an empty ring of cleared slots, all but one of
      them available; and whether it is online is all that its success decides. */
  lemma StartLeaves(s: St, conf: Conf, ok: bool)
    requires Inv(s) && Enabled(s, StartStep(conf, ok))
    ensures var t := Apply(s, StartStep(conf, ok));
      && t.online == ok && t.conf == conf && !t.stopWait && t.work == [] && t.pend == [] && t.callbacks == s.callbacks
      && t.pidx == t.cidx == t.statusCidx == t.doorbell == t.credit == t.workReqPend == 0 && t.avail == conf.rngsz - 1
      && t.pendListEmpty && t.pidxInfo == s.pidxInfo && |t.ring| == conf.rngsz && (forall j | 0 <= j < conf.rngsz :: !t.ring[j].valid)
  {
  }

  // ---------------------------------------------------------------- conservation

  /** Requests accepted by a run, in order. */
  function AcceptedBy(s: St, steps: seq<Step>): seq<Request>
    requires CanRun(s, steps)
    decreases |steps|
  {
    if steps == [] then []
    else (match steps[0]
          case SubmitStep(r) => if s.online then [r] else []
          case BatchStep(rs) => if s.online then rs else []
          case _ => []) + AcceptedBy(Apply(s, steps[0]), steps[1..])
  }

  lemma {:induction false} AcceptedGrows(s: St, steps: seq<Step>)
    requires CanRun(s, steps)
    ensures Run(s, steps).h.accepted == s.h.accepted + AcceptedBy(s, steps)
    ensures s.callbacks <= Run(s, steps).callbacks
    decreases |steps|
  {
    hide Pass, Cut, CutEnd, StoreAll, Drain;
    if steps != [] {
      var t := Apply(s, steps[0]);
      StepGrows(s, steps[0]);
      AcceptedGrows(t, steps[1..]);
    }
  }

  lemma StepGrows(s: St, step: Step)
    requires Enabled(s, step)
    ensures var t := Apply(s, step);
      && s.callbacks <= t.callbacks
      && t.h.accepted == s.h.accepted + match step
                                        case SubmitStep(r) => (if s.online then [r] else [])
                                        case BatchStep(rs) => (if s.online then rs else [])
                                        case _ => []
  {
  }

  /** Over any run from creation, the requests accepted are the ones called back, then those
      pending, then those waiting, in order and each once; every call reports all bytes with
      status 0 or no bytes with -ENXIO; calls are never withdrawn; and once the queue is
      stopped every request has had its call. */
  lemma EveryRequestCalledOnce(steps: seq<Step>)
    requires CanRun(Initial(), steps)
    ensures var s := Run(Initial(), steps);
      && AcceptedBy(Initial(), steps) == Called(s.callbacks) + Reqs(s.pend) + Reqs(s.work)
      && (forall i :: 0 <= i < |s.callbacks| ==> Served(s.callbacks[i]))
      && (!s.online ==> AcceptedBy(Initial(), steps) == Called(s.callbacks))
  {
    hide Running;
    InitialInv();
    RunKeepsInv(Initial(), steps);
    AcceptedGrows(Initial(), steps);
    var s := Run(Initial(), steps);
    assert [] + AcceptedBy(Initial(), steps) == AcceptedBy(Initial(), steps);
    if !s.online {
      assert Called(s.callbacks) + [] + [] == Called(s.callbacks);
    }
  }

  // ---------------------------------------------------------------- independence of the passes

  /** The requests accepted by a run since the queue was last started. */
  function SinceStart(steps: seq<Step>): seq<Request>
    requires CanRun(Initial(), steps) && Run(Initial(), steps).h.epoch <= |AcceptedBy(Initial(), steps)|
  {
    AcceptedBy(Initial(), steps)[Run(Initial(), steps).h.epoch..]
  }

  /** Two runs that have accepted the same requests since the last start, on queues of the same
      configuration, have posted the same descriptors as far as both have come, however their
      passes were cut: one log begins with the other. */
  lemma PassesDoNotMatter(a: seq<Step>, b: seq<Step>)
    requires CanRun(Initial(), a) && CanRun(Initial(), b)
    ensures Run(Initial(), a).h.epoch <= |AcceptedBy(Initial(), a)| && Run(Initial(), b).h.epoch <= |AcceptedBy(Initial(), b)|
    ensures var s, t := Run(Initial(), a), Run(Initial(), b);
      s.online && t.online && s.conf == t.conf && SinceStart(a) == SinceStart(b) ==> s.h.log <= t.h.log || t.h.log <= s.h.log
  {
    hide Run, CanRun, AcceptedBy, Inv;
    var s, t := Run(Initial(), a), Run(Initial(), b);
    EpochAccepted(a);
    EpochAccepted(b);
    if s.online && t.online && s.conf == t.conf && SinceStart(a) == SinceStart(b) {
      if |s.h.finished + Reqs(s.pend)| <= |t.h.finished + Reqs(t.pend)| {
        SameRequests(s, t);
      } else {
        SameRequests(t, s);
      }
    }
  }

  /** What a run has accepted since the last start is finished, pending or waiting. */
  lemma EpochAccepted(steps: seq<Step>)
    requires CanRun(Initial(), steps)
    ensures var s := Run(Initial(), steps);
      && Inv(s) && s.h.epoch <= |AcceptedBy(Initial(), steps)|
      && (s.online ==> SinceStart(steps) == (s.h.finished + Reqs(s.pend)) + Reqs(s.work))
  {
    hide Plan, Plans, LogOk, CreditOk, Window, DrainOk, Counters, Run, CanRun, AcceptedBy;
    InitialInv();
    RunKeepsInv(Initial(), steps);
    AcceptedGrows(Initial(), steps);
    var s := Run(Initial(), steps);
    assert [] + AcceptedBy(Initial(), steps) == AcceptedBy(Initial(), steps);
    if s.online {
      CalledSince(s.callbacks, s.h.epoch, s.h.finished);
      assert (Called(s.callbacks) + Reqs(s.pend) + Reqs(s.work))[s.h.epoch..]
          == Called(s.callbacks)[s.h.epoch..] + Reqs(s.pend) + Reqs(s.work);
    }
  }

  lemma CalledSince(cs: seq<Callback>, epoch: nat, rs: seq<Request>)
    requires epoch <= |cs| && cs[epoch..] == Successes(rs)
    ensures Called(cs)[epoch..] == rs
  {
    assert |rs| == |cs| - epoch;
    forall i | 0 <= i < |rs| ensures Called(cs)[epoch..][i] == rs[i] {
      assert cs[epoch..][i] == Successes(rs)[i];
    }
  }

  lemma SameRequests(s: St, t: St)
    requires Inv(s) && Inv(t) && s.online && t.online && s.conf == t.conf
    requires (s.h.finished + Reqs(s.pend)) + Reqs(s.work) == (t.h.finished + Reqs(t.pend)) + Reqs(t.work)
    requires |s.h.finished + Reqs(s.pend)| <= |t.h.finished + Reqs(t.pend)|
    ensures s.h.log <= t.h.log || t.h.log <= s.h.log
  {
    hide Plan, Plans, CreditOk, Window, DrainOk, Counters, CallsOk, Cut, CutEnd;
    var done, more := s.h.finished + Reqs(s.pend), t.h.finished + Reqs(t.pend);
    OnlineShape(s);
    PendReqsOk(s.conf, s.pend);
    PendReqsOk(t.conf, t.pend);
    SamePrefix(done, Reqs(s.work), more, Reqs(t.work));
    assert more == done + more[|done|..];
    PlansConcat(s.conf, done, more[|done|..]);
    var rest := more[|done|..];
    if rest == [] {
      assert more == done;
      if s.work != [] && t.work != [] {
        assert Reqs(s.work) == Reqs(t.work);
        assert s.work[0].req == Reqs(s.work)[0] == Reqs(t.work)[0] == t.work[0].req;
        CutsNest(s.conf, s.work[0].req, s.work[0].descNr, t.work[0].descNr);
      }
    } else {
      var r := rest[0];
      assert s.work != [] && Reqs(s.work)[0] == r == s.work[0].req;
      assert more[|done|] == r;
      FinishedMoves(t, |done|);
      assert rest == [r] + rest[1..];
      PlansConcat(s.conf, [r], rest[1..]);
      PlansNone(s.conf);
      PlansSnoc(s.conf, [], r);
      assert [] + [r] == [r];
      CutThenPlan(s.conf, r, 0, s.work[0].descNr);
    }
  }

  lemma SamePrefix<T>(a: seq<T>, b: seq<T>, c: seq<T>, d: seq<T>)
    requires a + b == c + d && |a| <= |c|
    ensures a == c[..|a|] && b == c[|a|..] + d
  {
    assert (a + b)[..|a|] == a && (c + d)[..|a|] == c[..|a|];
    assert (a + b)[|a|..] == b && (c + d)[|a|..] == c[|a|..] + d;
  }

  lemma CutsNest(conf: Conf, req: Request, m: nat, n: nat)
    requires conf.Valid() && WellFormed(req) && |Cut(conf, req, 0, m)| == m && |Cut(conf, req, 0, n)| == n
    ensures Cut(conf, req, 0, m) <= Cut(conf, req, 0, n) || Cut(conf, req, 0, n) <= Cut(conf, req, 0, m)
  {
    hide Cut, CutEnd;
    if m <= n {
      CutJoin(conf, req, 0, m, n - m);
    } else {
      CutJoin(conf, req, 0, n, m - n);
    }
  }

  /** Every request posted in full moves. */
  lemma FinishedMoves(s: St, i: nat)
    requires Inv(s) && s.online && i < |s.h.finished + Reqs(s.pend)|
    ensures WellFormed((s.h.finished + Reqs(s.pend))[i]) && s.conf.Moves((s.h.finished + Reqs(s.pend))[i])
  {
    hide Plans, LogOk, CreditOk, Window, DrainOk, Counters, CallsOk;
    if i >= |s.h.finished| {
      assert (s.h.finished + Reqs(s.pend))[i] == s.pend[i - |s.h.finished|].req;
    }
  }

  // ---------------------------------------------------------------- draining

  predicate StaysStopped(steps: seq<Step>)
  {
    forall i :: 0 <= i < |steps| ==> !steps[i].FlushStep?
  }

  /** Once a stop waits, the producer index never moves, outstanding descriptors only
      decrease, and the drained flag, once set, stays set and means what it says. */
  lemma {:induction false} DrainingRun(s: St, steps: seq<Step>)
    requires Inv(s) && s.online && s.stopWait && CanRun(s, steps) && StaysStopped(steps)
    ensures var t := Run(s, steps);
      && t.online && t.stopWait && Inv(t)
      && t.pidx == s.pidx && t.h.log == s.h.log && s.h.consumed <= t.h.consumed
      && (s.pendListEmpty ==> t.pendListEmpty)
      && (t.pendListEmpty ==> t.pend == [] && t.h.consumed == |t.h.log|)
    decreases |steps|
  {
    hide Plan, Plans, LogOk, CreditOk, Window, Drain, Pass;
    if steps != [] {
      DrainingStep(s, steps[0]);
      DrainingRun(Apply(s, steps[0]), steps[1..]);
    }
  }

  lemma DrainingStep(s: St, step: Step)
    requires Inv(s) && s.online && s.stopWait && Enabled(s, step) && !step.FlushStep?
    ensures var t := Apply(s, step);
      && t.online && t.stopWait && Inv(t)
      && t.pidx == s.pidx && t.h.log == s.h.log && s.h.consumed <= t.h.consumed
      && (s.pendListEmpty ==> t.pendListEmpty)
  {
    hide Plan, Plans, LogOk, CreditOk, Window, Drain, Pass;
    ApplyKeepsInv(s, step);
    if step.PollStep? && NewWriteback(s) {
      CompleteDistance(s);
    }
  }

  /** The completion that drains the ring sets the flag if and only if a request is pending: only
      the end of a request looks at the ring. */
  lemma DrainedFlag(s: St)
    requires Inv(s) && s.online && Quiet(s) && NewWriteback(s) && s.h.hwDone == |s.h.log|
    ensures Complete(s).h.consumed == |s.h.log|
    ensures Complete(s).pendListEmpty <==> s.pend != []
  {
    hide Plan, Plans, Window, LogOk, Drain;
    CompleteDistance(s);
    CompleteCounters(s);
    CompleteLists(s);
    CompleteKeepsRunning(s);
    DrainLists(s.conf, s.h.finished, s.pend, s.credit + (s.h.hwDone - s.h.consumed));
    if Complete(s).pend != [] {
      PendingLater(Complete(s));
    }
  }

  /** A drained ring whose flag is clear stays so while a stop waits. */
  lemma {:induction false} NeverSeenDrained(s: St, steps: seq<Step>)
    requires Inv(s) && s.online && s.stopWait && s.h.consumed == |s.h.log| && !s.pendListEmpty
    requires CanRun(s, steps) && StaysStopped(steps)
    ensures !Run(s, steps).pendListEmpty
    decreases |steps|
  {
    hide Plan, Plans, LogOk, CreditOk, Window, Drain, Pass;
    if steps != [] {
      DrainingStep(s, steps[0]);
      CompleteDistance(s);
      NeverSeenDrained(Apply(s, steps[0]), steps[1..]);
    }
  }

  /** With a drained ring nothing is pending, and a clear flag means that the descriptors that
      drained it belong to a request posted only in part, or were posted for nothing. */
  lemma DrainedIsRecognised(s: St)
    requires Inv(s) && s.online && Quiet(s) && s.h.consumed == |s.h.log|
    ensures s.pend == []
    ensures s.pendListEmpty || (s.work != [] && s.work[0].offset < s.work[0].req.count && s.credit == s.work[0].descNr > 0)
  {
    hide Plan, Plans, Window, Cut, CutEnd;
    if s.pend != [] {
      PendingLater(s);
    }
    assert s.h.finished + Reqs([]) == s.h.finished;
  }

  // ---------------------------------------------------------------- the queue length counter

  /** The interrupt service resumes posting only when the counter is not zero. It misses
      waiting requests exactly when as many requests came in batches as still wait. */
  lemma ServiceStalls(s: St)
    requires Inv(s) && s.online && |s.work| < Ring.U32 && s.h.batched < Ring.U32
    ensures s.workReqPend == 0 <==> |s.work| == s.h.batched
  {
    hide Running;
  }

  // ---------------------------------------------------------------- requests that never move

  /** A request that does not move, once first in line, is never served: it stays first, with
      nothing posted of it, whatever happens short of a stop, and so nothing behind it is. */
  lemma {:induction false} StuckStays(s: St, steps: seq<Step>)
    requires Inv(s) && s.online && s.work != [] && !s.conf.Moves(s.work[0].req)
    requires CanRun(s, steps) && StaysStopped(steps)
    ensures var t := Run(s, steps);
      && t.online && t.work != [] && t.work[0].req == s.work[0].req && t.work[0].offset == 0
      && |t.work| >= |s.work| && t.h.finished + Reqs(t.pend) == s.h.finished + Reqs(s.pend)
    decreases |steps|
  {
    hide Plan, Plans, LogOk, CreditOk, Window, Drain, Pass, Cut, CutEnd;
    StuckOffset(s);
    if steps != [] {
      ApplyKeepsInv(s, steps[0]);
      StuckStep(s, steps[0]);
      StuckStays(Apply(s, steps[0]), steps[1..]);
    }
  }

  lemma StuckOffset(s: St)
    requires Inv(s) && s.online && s.work != [] && !s.conf.Moves(s.work[0].req)
    ensures s.work[0].offset == 0
  {
    hide Plan, Plans, Window, CreditOk, DrainOk, Cut;
  }

  lemma StuckStep(s: St, step: Step)
    requires Inv(s) && s.online && s.work != [] && !s.conf.Moves(s.work[0].req)
    requires Enabled(s, step) && !step.FlushStep?
    ensures var t := Apply(s, step);
      && t.online && t.conf == s.conf && t.work != [] && t.work[0].req == s.work[0].req && |t.work| >= |s.work|
      && t.h.finished + Reqs(t.pend) == s.h.finished + Reqs(s.pend)
  {
    hide Plan, Plans, LogOk, CreditOk, Window, Drain, DrainOk, Cut, CutEnd, StoreAll, Mark, Complete, Pass, CallsOk;
    match step
    case PollStep => StuckPoll(s);
    case PassStep =>
      PassReducesLeft(s);
      StuckLap(s);
    case _ =>
  }

  lemma StuckPoll(s: St)
    requires Inv(s) && s.online
    ensures var t := Complete(s);
      t.online && t.conf == s.conf && t.work == s.work && t.h.finished + Reqs(t.pend) == s.h.finished + Reqs(s.pend)
  {
    hide Plan, Plans, LogOk, CreditOk, Window, Drain, DrainOk;
    if NewWriteback(s) {
      CompleteDistance(s);
      DrainLists(s.conf, s.h.finished, s.pend, s.credit + (s.h.hwDone - s.h.consumed));
      var n := Drain(s.pend, s.credit + (s.h.hwDone - s.h.consumed)).0;
      assert Reqs(s.pend) == Reqs(s.pend[..n]) + Reqs(s.pend[n..]);
    }
  }

  /** A lap for such a request: the ring is filled with empty descriptors. */
  lemma StuckLap(s: St)
    requires Inv(s) && s.online && s.work != [] && s.avail > 0 && !s.conf.Moves(s.work[0].req)
    ensures CanPass(s) && s.conf.rngsz > 1
    ensures var t := Pass(s);
      && t.work == [s.work[0].(descNr := s.work[0].descNr + s.avail)] + s.work[1..]
      && t.pend == s.pend && t.avail == 0 && |t.h.log| == |s.h.log| + s.avail
      && t == s.(ring := t.ring, pidx := t.pidx, avail := 0, work := t.work, h := s.h.(log := t.h.log))
  {
    hide Plan, Plans, LogOk, CreditOk, Window, DrainOk, Cut, CutEnd, StoreAll, Mark;
    OnlineShape(s);
    PassReducesLeft(s);
  }

  /** Everything posted so far is done, and it is all for one request that carries no byte. */
  predicate Spinning(s: St, conf: Conf, req: Request)
  {
    && s.online && !s.stopWait && s.conf == conf && conf.rngsz >= 2 && Quiet(s) && s.avail == conf.rngsz - 1
    && s.work == [Entry(req, 0, |s.h.log|)] && s.pend == [] && s.h.consumed == |s.h.log| && s.callbacks == []
  }

  lemma StuckRound(steps: seq<Step>, conf: Conf, req: Request) returns (more: seq<Step>)
    requires CanRun(Initial(), steps) && Spinning(Run(Initial(), steps), conf, req) && !conf.Moves(req)
    ensures CanRun(Initial(), more) && Spinning(Run(Initial(), more), conf, req)
    ensures |Run(Initial(), more).h.log| > |Run(Initial(), steps).h.log|
  {
    hide Plan, Plans, LogOk, CreditOk, Window, DrainOk, CallsOk, StoreAll, Mark, Run, CanRun, Pass;
    InitialInv();
    RunKeepsInv(Initial(), steps);
    var s := Run(Initial(), steps);
    StuckLap(s);
    more := Do(steps, PassStep);
    more := Do(more, PublishStep);
    RunKeepsInv(Initial(), more);
    more := Do(more, HwStep(conf.rngsz - 1));
    RunKeepsInv(Initial(), more);
    CompleteDistance(Run(Initial(), more));
    more := Do(more, PollStep);
    RunKeepsInv(Initial(), more);
  }

  /** A streaming request with device offset 2^32: for every `n` a run that posts and consumes `n`
      and more descriptors for it without a single byte. */
  lemma {:induction false} StuckAtFourGiB(rngsz: nat, n: nat) returns (conf: Conf, req: Request, steps: seq<Step>)
    requires rngsz >= 2
    ensures conf == Conf(true, false, 0, BLEN_MAX, rngsz) && WellFormed(req) && req.epAddr == Ring.U32
    ensures CanRun(Initial(), steps) && Spinning(Run(Initial(), steps), conf, req) && |Run(Initial(), steps).h.log| >= n
  {
    hide Run, CanRun;
    if n == 0 {
      conf := Conf(true, false, 0, BLEN_MAX, rngsz);
      req := Request(0, [Sg(PAGE_SIZE, 0)], PAGE_SIZE, Ring.U32);
      assert req.sgl[1..] == [];
      steps := [];
      RunNone(Initial());
      steps := Do(steps, StartStep(conf, true));
      steps := Do(steps, SubmitStep(req));
    } else {
      conf, req, steps := StuckAtFourGiB(rngsz, n - 1);
      steps := StuckRound(steps, conf, req);
    }
  }

  // ---------------------------------------------------------------- runs worth knowing

  /** The longest descriptor of the hard cores. */
  const BLEN_MAX: nat := 0x0FFF_FFFF

  /** A list of `n` elements of one byte each. */
  function OneByteEach(n: nat, addr: nat): (r: seq<Sg>)
    ensures |r| == n
  {
    if n == 0 then [] else [Sg(1, addr)] + OneByteEach(n - 1, addr + 1)
  }

  lemma {:induction false} OneByteEachIs(n: nat, addr: nat)
    ensures Positive(OneByteEach(n, addr)) && TotalLen(OneByteEach(n, addr)) == n
    ensures forall o: nat | o < n :: Locate(OneByteEach(n, addr), o) == (o, 0) && OneByteEach(n, addr)[o].len == 1
  {
    if n > 0 {
      OneByteEachIs(n - 1, addr + 1);
      var rest := OneByteEach(n - 1, addr + 1);
      assert OneByteEach(n, addr)[1..] == rest;
      forall o: nat | o < n
        ensures Locate(OneByteEach(n, addr), o) == (o, 0) && OneByteEach(n, addr)[o].len == 1
      {
        if o > 0 {
          assert Locate(rest, o - 1) == (o - 1, 0);
        }
      }
    }
  }

  /** Twice as many bytes as the ring has room for descriptors, each a descriptor of its own. */
  function TwiceTheRing(conf: Conf): Request
    requires conf.rngsz >= 2
  {
    Request(0, OneByteEach(2 * (conf.rngsz - 1), 0), 2 * (conf.rngsz - 1), 0)
  }

  lemma OneByteChunk(conf: Conf, off: nat)
    requires conf.Valid() && conf.rngsz >= 2 && off < 2 * (conf.rngsz - 1)
    ensures WellFormed(TwiceTheRing(conf)) && conf.Moves(TwiceTheRing(conf)) && ChunkLen(conf, TwiceTheRing(conf), off) == 1
  {
    hide OneByteEach;
    var req := TwiceTheRing(conf);
    OneByteEachIs(req.count, 0);
    assert Locate(req.sgl, off) == (off, 0);
  }

  lemma {:induction false} OneByteCut(conf: Conf, off: nat, max: nat)
    requires conf.Valid() && conf.rngsz >= 2 && off + max <= 2 * (conf.rngsz - 1)
    ensures var req := TwiceTheRing(conf);
      WellFormed(req) && |Cut(conf, req, off, max)| == max && CutEnd(conf, req, off, max) == off + max
    decreases max
  {
    hide OneByteEach, Locate, TotalLen, Chunk, ChunkLen;
    OneByteEachIs(2 * (conf.rngsz - 1), 0);
    if max > 0 {
      OneByteChunk(conf, off);
      CutNext(conf, TwiceTheRing(conf), off, max);
      OneByteCut(conf, off + 1, max - 1);
    }
  }

  /** On any queue with room for a descriptor: half of such a request is posted, published,
      processed and credited; how it came in makes no difference to that. */
  lemma HalfDone(conf: Conf, first: Step) returns (steps: seq<Step>)
    requires conf.Valid() && conf.rngsz >= 2
    requires first == SubmitStep(TwiceTheRing(conf)) || first == BatchStep([TwiceTheRing(conf)])
    ensures CanRun(Initial(), steps)
    ensures var s, n := Run(Initial(), steps), conf.rngsz - 1;
      && s.online && !s.stopWait && s.conf == conf && Quiet(s)
      && s.work == [Entry(TwiceTheRing(conf), n, n)] && s.pend == [] && s.credit == n && s.avail == n
      && s.h.consumed == |s.h.log| && !s.pendListEmpty
      && s.workReqPend == (if first.SubmitStep? then 1 else 0)
  {
    hide Cut, CutEnd, StoreAll, Mark, Run, CanRun, OneByteEach;
    OneByteCut(conf, 0, conf.rngsz - 1);
    steps := [];
    RunNone(Initial());
    steps := Do(steps, StartStep(conf, true));
    steps := Do(steps, first);
    steps := Do(steps, PassStep);
    steps := Do(steps, PublishStep);
    steps := Do(steps, HwStep(conf.rngsz - 1));
    steps := Do(steps, PollStep);
  }

  lemma Do(steps: seq<Step>, step: Step) returns (more: seq<Step>)
    requires CanRun(Initial(), steps) && Enabled(Run(Initial(), steps), step)
    ensures CanRun(Initial(), more) && Run(Initial(), more) == Apply(Run(Initial(), steps), step)
  {
    RunSnoc(Initial(), steps, step);
    more := steps + [step];
  }

  /** Left-over credit does not mean that nothing is pending: a request that was credited while
      still waiting takes its credit along when it becomes pending. */
  lemma CreditWithPending(conf: Conf) returns (steps: seq<Step>)
    requires conf.Valid() && conf.rngsz >= 2
    ensures CanRun(Initial(), steps)
    ensures var s := Run(Initial(), steps); s.online && s.conf == conf && s.pend != [] && s.credit > 0
  {
    hide Cut, CutEnd, StoreAll, Mark, Run, CanRun, Inv;
    steps := HalfDone(conf, SubmitStep(TwiceTheRing(conf)));
    OneByteCut(conf, conf.rngsz - 1, conf.rngsz - 1);
    InitialInv();
    RunKeepsInv(Initial(), steps);
    OnlineShape(Run(Initial(), steps));
    steps := Do(steps, PassStep);
  }

  /** A stop that comes when half of a request is posted and done waits in vain for the ring,
      however long it waits. */
  lemma StopWaitsInVain(conf: Conf, waiting: seq<Step>) returns (steps: seq<Step>)
    requires conf.Valid() && conf.rngsz >= 2
    ensures CanRun(Initial(), steps)
    ensures var s := Run(Initial(), steps);
      && s.online && s.conf == conf && s.stopWait && s.h.consumed == |s.h.log|
      && (CanRun(s, waiting) && StaysStopped(waiting) ==> !Run(s, waiting).pendListEmpty)
  {
    hide Run, CanRun, Inv;
    steps := HalfDone(conf, SubmitStep(TwiceTheRing(conf)));
    steps := Do(steps, StopStep);
    InitialInv();
    RunKeepsInv(Initial(), steps);
    var s := Run(Initial(), steps);
    if CanRun(s, waiting) && StaysStopped(waiting) {
      NeverSeenDrained(s, waiting);
    }
  }

  /** A batch of one request larger than the ring: everything posted is completed, half of the
      request still waits, and the interrupt service will not resume it. */
  lemma BatchStalls(conf: Conf) returns (steps: seq<Step>)
    requires conf.Valid() && conf.rngsz >= 2
    ensures CanRun(Initial(), steps)
    ensures var s := Run(Initial(), steps);
      && s.online && s.conf == conf && s.work != [] && s.avail > 0 && s.h.consumed == |s.h.log| && s.workReqPend == 0
  {
    steps := HalfDone(conf, BatchStep([TwiceTheRing(conf)]));
  }
}
