/** Every step of the descriptor queue keeps its invariant; what that means over whole runs. */
module DescqProofs {
  import opened Transfer
  import opened DescqState
  import Ring

  // ---------------------------------------------------------------- plans of several requests

  lemma PlansSnoc(conf: Conf, rs: seq<Request>, r: Request)
    requires conf.Valid() && AllWellFormed(rs) && WellFormed(r)
    ensures AllWellFormed(rs + [r])
    ensures Plans(conf, rs + [r]) == Plans(conf, rs) + Plan(conf, r, 0)
  {
    hide Plan;
    assert (rs + [r])[..|rs|] == rs;
  }

  lemma {:induction false} PlansConcat(conf: Conf, a: seq<Request>, b: seq<Request>)
    requires conf.Valid() && AllWellFormed(a) && AllWellFormed(b)
    ensures AllWellFormed(a + b)
    ensures Plans(conf, a + b) == Plans(conf, a) + Plans(conf, b)
    decreases |b|
  {
    hide Plan, Plans;
    if b == [] {
      PlansNone(conf);
      assert a + b == a;
    } else {
      var b', r := b[..|b| - 1], b[|b| - 1];
      assert b == b' + [r] && a + b == (a + b') + [r];
      PlansConcat(conf, a, b');
      PlansSnoc(conf, a + b', r);
      PlansSnoc(conf, b', r);
      ConcatAssoc(Plans(conf, a), Plans(conf, b'), Plan(conf, r, 0));
    }
  }

  lemma PlansNone(conf: Conf)
    requires conf.Valid()
    ensures Plans(conf, []) == []
  {
  }

  lemma ConcatAssoc<T>(a: seq<T>, b: seq<T>, c: seq<T>)
    ensures (a + b) + c == a + (b + c)
  {
  }

  lemma PendReqsOk(conf: Conf, pend: seq<Entry>)
    requires conf.Valid() && PendOk(conf, pend)
    ensures AllWellFormed(Reqs(pend))
  {
  }

  // ---------------------------------------------------------------- completion

  /** Draining takes whole requests from the front. */
  lemma {:induction false} DrainLists(conf: Conf, fin: seq<Request>, pend: seq<Entry>, credit: nat)
    requires conf.Valid() && AllWellFormed(fin) && PendOk(conf, pend)
    ensures var (n, rest, left) := Drain(pend, credit);
      && PendOk(conf, rest)
      && Reqs(rest) == Reqs(pend[n..])
      && AllWellFormed(fin + Reqs(pend[..n]))
      && (rest != [] ==> left == 0)
      && (n == 0 && rest == [] ==> pend == [] && left == credit)
    decreases |pend|
  {
    hide Plan, Plans;
    PendReqsOk(conf, pend);
    if pend != [] && 0 < credit && pend[0].descNr <= credit {
      TailOk(conf, pend);
      DrainLists(conf, fin, pend[1..], credit - pend[0].descNr);
      var (m, rest, left) := Drain(pend[1..], credit - pend[0].descNr);
      assert Reqs(pend[1..][m..]) == Reqs(pend[m + 1..]);
    }
  }

  lemma TailOk(conf: Conf, pend: seq<Entry>)
    requires conf.Valid() && PendOk(conf, pend) && pend != []
    ensures PendOk(conf, pend[1..])
    ensures pend[1..] != [] ==> pend[1..][0].descNr == |Plan(conf, pend[1..][0].req, 0)|
  {
    assert forall i :: 0 <= i < |pend[1..]| ==> pend[1..][i] == pend[i + 1];
  }

  /** Draining keeps the ring position that lists and credit account for. */
  lemma {:induction false} DrainKeepsPosition(conf: Conf, fin: seq<Request>, pend: seq<Entry>, credit: nat)
    requires conf.Valid() && AllWellFormed(fin) && PendOk(conf, pend)
    ensures var (n, rest, left) := Drain(pend, credit);
      && PendOk(conf, rest) && AllWellFormed(fin + Reqs(pend[..n]))
      && Position(conf, |Plans(conf, fin + Reqs(pend[..n]))|, rest, left)
         == Position(conf, |Plans(conf, fin)|, pend, credit)
    decreases |pend|
  {
    hide Plan, Plans;
    DrainLists(conf, fin, pend, credit);
    if pend != [] && 0 < credit && pend[0].descNr <= credit {
      var fin1, credit1 := fin + [pend[0].req], credit - pend[0].descNr;
      PlansSnoc(conf, fin, pend[0].req);
      TailOk(conf, pend);
      DrainKeepsPosition(conf, fin1, pend[1..], credit1);
      var (m, rest, left) := Drain(pend[1..], credit1);
      assert Position(conf, |Plans(conf, fin1)|, pend[1..], credit1) == Position(conf, |Plans(conf, fin)|, pend, credit);
      assert fin1 + Reqs(pend[1..][..m]) == fin + Reqs(pend[..m + 1]);
    } else {
      assert fin + Reqs(pend[..0]) == fin;
    }
  }

  lemma CompleteDistance(s: St)
    requires Counters(s)
    ensures Ring.Delta(s.cidx, s.statusCidx, s.conf.rngsz) == s.h.hwDone - s.h.consumed
    ensures s.pidx == s.cidx <==> |s.h.log| == s.h.consumed
  {
    Ring.DeltaIsDistance(s.h.consumed, s.h.hwDone, s.conf.rngsz);
    if s.h.consumed < |s.h.log| {
      Ring.ModDistinct(s.h.consumed, |s.h.log|, s.conf.rngsz);
    }
  }

  /** Hardware has moved since the last completion. */
  predicate NewWriteback(s: St)
  {
    s.pidx != s.cidx && s.statusCidx != s.cidx
  }

  lemma CompleteCounters(s: St)
    requires s.online && Running(s) && NewWriteback(s)
    ensures Counters(Complete(s)) && Window(Complete(s)) && Complete(s).h.consumed == s.h.hwDone
  {
    hide Plan, Plans, Drain, LogOk, CreditOk;
    CompleteDistance(s);
  }

  lemma CompleteLists(s: St)
    requires s.online && Running(s) && NewWriteback(s)
    ensures var t := Complete(s); AllWellFormed(t.h.finished) && PendOk(t.conf, t.pend) && LogOk(t) && CreditOk(t)
  {
    hide Plan, Plans, Drain, DrainOk, LogOk, CreditOk, Complete;
    CompleteLog(s);
    CompleteCredit(s);
  }

  lemma CompleteLog(s: St)
    requires s.online && Running(s) && NewWriteback(s)
    ensures var t := Complete(s); t.conf.Valid() && AllWellFormed(t.h.finished) && PendOk(t.conf, t.pend) && LogOk(t)
  {
    hide Plan, Plans, Drain, CreditOk, DrainOk;
    CompleteDistance(s);
    var t := Complete(s);
    DrainLists(s.conf, s.h.finished, s.pend, s.credit + (s.h.hwDone - s.h.consumed));
    var n := Drain(s.pend, s.credit + (s.h.hwDone - s.h.consumed)).0;
    assert t.h.finished + Reqs(t.pend) == s.h.finished + Reqs(s.pend) by {
      assert s.pend == s.pend[..n] + s.pend[n..];
    }
  }

  lemma CompleteCredit(s: St)
    requires s.online && Running(s) && NewWriteback(s)
    ensures var t := Complete(s); t.conf.Valid() && AllWellFormed(t.h.finished) && PendOk(t.conf, t.pend) && CreditOk(t)
  {
    hide Plan, Plans, Drain, LogOk, DrainOk;
    CompleteDistance(s);
    DrainLists(s.conf, s.h.finished, s.pend, s.credit + (s.h.hwDone - s.h.consumed));
    DrainKeepsPosition(s.conf, s.h.finished, s.pend, s.credit + (s.h.hwDone - s.h.consumed));
  }

  /** When nothing is left pending, either nothing was, or requests have been retired. */
  lemma CompleteEmpties(s: St)
    requires s.online && Running(s) && NewWriteback(s)
    ensures var t := Complete(s); t.pend == [] ==> (s.pend == [] && t.credit > 0) || |t.h.finished| > |s.h.finished|
  {
    hide Plan, Plans, Drain, LogOk, CreditOk, DrainOk;
    CompleteDistance(s);
    DrainLists(s.conf, s.h.finished, s.pend, s.credit + (s.h.hwDone - s.h.consumed));
  }

  lemma CompleteMoves(s: St)
    requires s.online && Running(s) && NewWriteback(s)
    ensures var t := Complete(s); forall i :: 0 <= i < |t.h.finished| ==> t.conf.Moves(t.h.finished[i])
  {
    hide Plan, Plans, Drain, LogOk, CreditOk, Window, DrainOk;
    CompleteDistance(s);
  }

  lemma CompleteDrainOk(s: St)
    requires s.online && Running(s) && NewWriteback(s)
    ensures DrainOk(Complete(s))
  {
    hide Plan, Plans, Drain;
    CompleteDistance(s);
    CompleteCounters(s);
    CompleteLists(s);
    CompleteEmpties(s);
    var t := Complete(s);
    if t.pend != [] {
      PendingLater(t);
    }
  }

  lemma CompleteKeepsRunning(s: St)
    requires s.online && Running(s) && CallsOk(s)
    ensures Running(Complete(s)) && CallsOk(Complete(s))
    ensures Complete(s).h.consumed == s.h.hwDone
  {
    hide Plan, Plans, Drain, LogOk, CreditOk, Window, DrainOk;
    CompleteDistance(s);
    if NewWriteback(s) {
      CompleteCounters(s);
      CompleteLists(s);
      CompleteMoves(s);
      CompleteDrainOk(s);
      CompleteCalls(s);
    }
  }

  lemma CompleteCalls(s: St)
    requires s.online && Running(s) && CallsOk(s) && NewWriteback(s)
    ensures var t := Complete(s);
      CallsOk(t) && t.h.epoch <= |t.callbacks| && t.callbacks[t.h.epoch..] == Successes(t.h.finished)
    ensures Complete(s).stopWait ==> Quiet(Complete(s))
  {
    hide Plan, Plans, Drain, LogOk, CreditOk, Window, DrainOk;
    CompleteDistance(s);
    var (n, rest, left) := Drain(s.pend, s.credit + (s.h.hwDone - s.h.consumed));
    DrainLists(s.conf, s.h.finished, s.pend, s.credit + (s.h.hwDone - s.h.consumed));
    DrainKeepsPosition(s.conf, s.h.finished, s.pend, s.credit + (s.h.hwDone - s.h.consumed));
    DrainedCalls(s, n);
  }

  /** A request that still waits ends beyond what the software has seen consumed. */
  lemma PendingLater(s: St)
    requires s.conf.Valid() && AllWellFormed(s.h.finished) && PendOk(s.conf, s.pend) && WorkOk(s.work)
    requires LogOk(s) && CreditOk(s) && s.pend != []
    ensures s.h.consumed < |Plans(s.conf, s.h.finished)| + |Plan(s.conf, s.pend[0].req, 0)| <= |s.h.log|
  {
    hide Plan, Plans;
    var r0 := s.pend[0].req;
    PlansSnoc(s.conf, s.h.finished, r0);
    PendReqsOk(s.conf, s.pend);
    PlansConcat(s.conf, s.h.finished + [r0], Reqs(s.pend[1..]));
    assert s.h.finished + Reqs(s.pend) == (s.h.finished + [r0]) + Reqs(s.pend[1..]);
  }

  /** The callbacks of a completion are successes, and carry the retired requests over. */
  lemma DrainedCalls(s: St, n: nat)
    requires s.online && Running(s) && CallsOk(s) && n <= |s.pend|
    ensures var cs := s.callbacks + DoneCalls(s.pend[..n]);
      && cs[s.h.epoch..] == Successes(s.h.finished + Reqs(s.pend[..n]))
      && (forall i :: 0 <= i < |cs| ==> Served(cs[i]))
      && s.h.accepted == Called(cs) + Reqs(s.pend[n..]) + Reqs(s.work)
  {
    hide Plan, Plans;
    var cs := s.callbacks + DoneCalls(s.pend[..n]);
    assert DoneCalls(s.pend[..n]) == Successes(Reqs(s.pend[..n]));
    assert cs[s.h.epoch..] == s.callbacks[s.h.epoch..] + DoneCalls(s.pend[..n]);
    assert Called(cs) == Called(s.callbacks) + Reqs(s.pend[..n]);
    assert Reqs(s.pend) == Reqs(s.pend[..n]) + Reqs(s.pend[n..]);
  }

  // ---------------------------------------------------------------- posting

  lemma {:induction false} CutUnmarked(conf: Conf, req: Request, off: nat, max: nat, i: nat)
    requires conf.Valid() && WellFormed(req) && off <= req.count
    requires i < |Cut(conf, req, off, max)|
    ensures Strip(Cut(conf, req, off, max)[i]) == Cut(conf, req, off, max)[i]
    decreases max
  {
    if i > 0 {
      CutUnmarked(conf, req, off + ChunkLen(conf, req, off), max - 1, i - 1);
    }
  }

  /** Packet flags are the only difference between what is stored and what was planned. */
  lemma MarkOnlyFlags(conf: Conf, ds: seq<Desc>, i: nat)
    requires i < |ds| && Strip(ds[i]) == ds[i]
    ensures Strip(Mark(conf, ds)[i]) == ds[i]
    ensures !conf.st ==> Mark(conf, ds)[i].sop == (i == 0) && Mark(conf, ds)[i].eop == (i == |ds| - 1)
  {
  }

  lemma PassGrows(s: St)
    requires s.online && Running(s) && CanPass(s)
    ensures var t := Pass(s); |s.h.log| < |t.h.log| <= |s.h.log| + s.avail
    ensures Counters(Pass(s))
  {
    hide Plan, Plans, LogOk, CreditOk, Window, DrainOk, Cut;
    var e := s.work[0];
    var ds := Cut(s.conf, e.req, e.offset, s.avail);
    CutFull(s.conf, e.req, e.offset, s.avail);
    Ring.ModStep(|s.h.log|, |ds|, s.conf.rngsz);
  }

  /** Distance from the slot of position `from` to the slot of an outstanding or new position. */
  lemma SlotDistance(from: nat, k: nat, size: nat)
    requires 0 < size && from < k + size && k < from + size
    ensures k % size < size && from % size < size
    ensures Ring.Delta(from % size, k % size, size) == if k >= from then k - from else k + size - from
  {
    if k >= from {
      Ring.DeltaIsDistance(from, k, size);
    } else {
      Ring.ModStep(k, size, size);
      Ring.DeltaIsDistance(from, k + size, size);
    }
  }

  /** Posting never touches a slot the hardware may still read. */
  lemma PassWindow(s: St)
    requires s.online && Running(s) && CanPass(s)
    ensures Pass(s).conf.Valid() && Shape(Pass(s)) && Window(Pass(s))
  {
    hide Plan, Plans, LogOk, CreditOk, DrainOk, Cut;
    PassGrows(s);
    var t := Pass(s);
    var e := s.work[0];
    var ds := Cut(s.conf, e.req, e.offset, s.avail);
    forall k | t.h.consumed <= k < |t.h.log|
      ensures Strip(t.ring[k % s.conf.rngsz]) == t.h.log[k]
    {
      SlotDistance(|s.h.log|, k, s.conf.rngsz);
      if k >= |s.h.log| {
        CutUnmarked(s.conf, e.req, e.offset, s.avail, k - |s.h.log|);
        MarkOnlyFlags(s.conf, ds, k - |s.h.log|);
      } else {
        assert t.ring[k % s.conf.rngsz] == s.ring[k % s.conf.rngsz];
      }
    }
  }

  /** What a pass makes of the part of the first waiting request that is posted. */
  lemma PassPart(s: St)
    requires s.online && Running(s) && CanPass(s)
    ensures var e, n := s.work[0], |Cut(s.conf, s.work[0].req, s.work[0].offset, s.avail)|;
      var part := Cut(s.conf, e.req, 0, e.descNr + n);
      var end := CutEnd(s.conf, e.req, e.offset, s.avail);
      && Pass(s).h.log == Plans(s.conf, s.h.finished + Reqs(s.pend)) + part
      && (end < e.req.count ==> |part| == e.descNr + n && end == CutEnd(s.conf, e.req, 0, e.descNr + n))
      && (end == e.req.count ==> s.conf.Moves(e.req) && part == Plan(s.conf, e.req, 0) && |part| == e.descNr + n)
  {
    hide Plan, Plans, Window, DrainOk, CreditOk, Cut, CutEnd, StoreAll, Mark;
    var e := s.work[0];
    var ds := Cut(s.conf, e.req, e.offset, s.avail);
    var n := |ds|;
    var part := Cut(s.conf, e.req, 0, e.descNr);
    var full := Plans(s.conf, s.h.finished + Reqs(s.pend));
    CutFull(s.conf, e.req, e.offset, s.avail);
    CutShorter(s.conf, e.req, e.offset, s.avail);
    CutJoin(s.conf, e.req, 0, e.descNr, n);
    assert (full + part) + ds == full + (part + ds);
    if CutEnd(s.conf, e.req, e.offset, s.avail) == e.req.count {
      CutThenPlan(s.conf, e.req, 0, e.descNr + n);
      PlanAtEnd(s.conf, e.req);
      assert (part + ds) + [] == part + ds;
    }
  }

  lemma PassPend(s: St)
    requires s.online && Running(s) && CanPass(s)
    ensures PendOk(Pass(s).conf, Pass(s).pend) && WorkOk(Pass(s).work)
  {
    hide Plan, Plans, Window, DrainOk, LogOk, CreditOk, Counters, Cut, CutEnd, StoreAll, Mark;
    PassGrows(s);
    PassPart(s);
  }

  lemma PassCredit(s: St)
    requires s.online && Running(s) && CanPass(s)
    ensures PendOk(Pass(s).conf, Pass(s).pend) && CreditOk(Pass(s))
  {
    hide Plan, Plans, Window, DrainOk, PendOk, WorkOk, Cut, CutEnd, StoreAll, Mark;
    PassPend(s);
    PassPart(s);
    if s.pend == [] {
      CutFull(s.conf, s.work[0].req, s.work[0].offset, s.avail);
      assert s.h.finished + Reqs(s.pend) == s.h.finished;
    }
  }

  lemma PassLists(s: St)
    requires s.online && Running(s) && CanPass(s)
    ensures var t := Pass(s);
      AllWellFormed(t.h.finished) && PendOk(t.conf, t.pend) && WorkOk(t.work) && LogOk(t) && CreditOk(t)
  {
    hide Plan, Plans, Window, DrainOk, CreditOk, Counters, Cut, CutEnd, StoreAll, Mark;
    var t, e := Pass(s), s.work[0];
    PassPend(s);
    PassCredit(s);
    PassPart(s);
    PendReqsOk(s.conf, s.pend);
    if CutEnd(s.conf, e.req, e.offset, s.avail) == e.req.count {
      PlansSnoc(s.conf, s.h.finished + Reqs(s.pend), e.req);
      assert s.h.finished + Reqs(t.pend) == (s.h.finished + Reqs(s.pend)) + [e.req];
      if t.work != [] {
        CutNone(s.conf, t.work[0].req);
      }
    }
  }

  lemma CutNone(conf: Conf, req: Request)
    requires conf.Valid() && WellFormed(req)
    ensures Cut(conf, req, 0, 0) == [] && CutEnd(conf, req, 0, 0) == 0
  {
  }

  lemma PlanAtEnd(conf: Conf, req: Request)
    requires conf.Valid() && WellFormed(req)
    ensures Plan(conf, req, req.count) == []
  {
  }

  lemma PassCalls(s: St)
    requires s.online && Running(s) && CallsOk(s) && CanPass(s)
    ensures CallsOk(Pass(s))
  {
    hide Plan, Plans, LogOk, CreditOk, Window, DrainOk, Cut, CutEnd, StoreAll, Mark;
    var t := Pass(s);
    var e' := Entry(s.work[0].req, CutEnd(s.conf, s.work[0].req, s.work[0].offset, s.avail),
                    s.work[0].descNr + |Cut(s.conf, s.work[0].req, s.work[0].offset, s.avail)|);
    HeadMoves(s.pend, s.work, e');
    CounterStep(|s.work| - s.h.batched, -1);
    assert Called(s.callbacks) + Reqs(t.pend) + Reqs(t.work) == Called(s.callbacks) + (Reqs(t.pend) + Reqs(t.work));
    assert Called(s.callbacks) + Reqs(s.pend) + Reqs(s.work) == Called(s.callbacks) + (Reqs(s.pend) + Reqs(s.work));
  }

  lemma HeadMoves(pend: seq<Entry>, work: seq<Entry>, e: Entry)
    requires work != [] && e.req == work[0].req
    ensures Reqs(pend + [e]) + Reqs(work[1..]) == Reqs(pend) + Reqs(work)
    ensures Reqs([e] + work[1..]) == Reqs(work)
  {
  }

  lemma CounterStep(x: int, k: int)
    ensures (x % Ring.U32 + k) % Ring.U32 == (x + k) % Ring.U32
  {
  }

  lemma PassKeepsRunning(s: St)
    requires s.online && !s.stopWait && Running(s) && CallsOk(s) && CanPass(s)
    ensures Running(Pass(s)) && CallsOk(Pass(s)) && !Quiet(Pass(s))
  {
    hide Plan, Plans, LogOk, CreditOk, Window, Cut, CutEnd, StoreAll, Mark;
    PassGrows(s);
    PassWindow(s);
    PassLists(s);
    PassCalls(s);
  }

  // ---------------------------------------------------------------- the other steps

  lemma PublishKeepsRunning(s: St)
    requires s.online && !s.stopWait && Running(s) && CallsOk(s) && !Quiet(s)
    ensures Running(Publish(s)) && CallsOk(Publish(s))
  {
    hide Plan, Plans;
  }

  lemma HwKeepsRunning(s: St, k: nat)
    requires s.online && Running(s) && CallsOk(s) && k <= s.conf.rngsz && s.h.hwDone + k <= s.h.published
    ensures Running(HwMove(s, k)) && CallsOk(HwMove(s, k))
  {
    hide Plan, Plans;
    Ring.ModStep(s.h.hwDone, k, s.conf.rngsz);
  }

  lemma AcceptKeepsInv(s: St, req: Request)
    requires Inv(s) && WellFormed(req)
    ensures Inv(Accept(s, req))
  {
    hide Plan, Plans, LogOk;
    if s.online {
      CounterStep(|s.work| - s.h.batched, 1);
      AppendCalls(s, [Entry(req, 0, 0)]);
      AppendRunning(s, [Entry(req, 0, 0)], [req], s.h.batched);
      assert Reqs([Entry(req, 0, 0)]) == [req];
    }
  }

  lemma AcceptBatchKeepsInv(s: St, rs: seq<Request>)
    requires Inv(s) && AllWellFormed(rs)
    ensures Inv(AcceptBatch(s, rs))
  {
    hide Plan, Plans, LogOk;
    if s.online {
      AppendCalls(s, Fresh(rs));
      AppendRunning(s, Fresh(rs), rs, s.h.batched + |rs|);
      assert Reqs(Fresh(rs)) == rs;
    }
  }

  lemma AppendCalls(s: St, es: seq<Entry>)
    ensures Called(s.callbacks) + Reqs(s.pend) + Reqs(s.work + es)
         == (Called(s.callbacks) + Reqs(s.pend) + Reqs(s.work)) + Reqs(es)
  {
    assert Reqs(s.work + es) == Reqs(s.work) + Reqs(es);
  }

  lemma AppendRunning(s: St, es: seq<Entry>, rs: seq<Request>, batched: nat)
    requires s.online && Running(s)
    requires forall i :: 0 <= i < |es| ==> WellFormed(es[i].req) && es[i].offset == 0 && es[i].descNr == 0
    ensures forall w :: Running(s.(work := s.work + es, workReqPend := w,
      h := s.h.(accepted := s.h.accepted + rs, batched := batched)))
  {
    hide Plan, Plans;
    FirstWork(s, es);
  }

  /** Untouched requests at the back of the work list change nothing in the log. */
  lemma FirstWork(s: St, es: seq<Entry>)
    requires s.online && Running(s)
    requires forall i :: 0 <= i < |es| ==> WellFormed(es[i].req) && es[i].offset == 0 && es[i].descNr == 0
    ensures var t := s.(work := s.work + es); WorkOk(t.work) && LogOk(t)
  {
    hide Plan, Plans;
    var t := s.(work := s.work + es);
    if s.work == [] && es != [] {
      var full := Plans(s.conf, s.h.finished + Reqs(s.pend));
      assert s.h.log[|full|..] == [];
      assert [] + Plan(s.conf, es[0].req, 0) == Plan(s.conf, es[0].req, 0);
    }
  }

  lemma FlushKeepsInv(s: St)
    requires Inv(s) && s.online
    ensures Inv(Flush(s))
    ensures Called(Flush(s).callbacks) == s.h.accepted
  {
    hide Running;
    var t := Flush(s);
    CounterStep(|s.work| - s.h.batched, -|s.work|);
    assert Called(t.callbacks) == Called(s.callbacks) + Reqs(s.pend) + Reqs(s.work);
    assert Called(t.callbacks) + Reqs(t.pend) + Reqs(t.work) == Called(t.callbacks);
  }

  lemma RestartKeepsInv(s: St, conf: Conf)
    requires Inv(s) && !s.online && conf.Valid()
    ensures Inv(Restart(s, conf)) && Inv(Restart(s, conf).(online := false))
  {
    hide Plan;
    var t := Restart(s, conf);
    assert t.callbacks[t.h.epoch..] == [];
    assert t.h.finished + Reqs(t.pend) == [];
  }

  lemma ApplyKeepsInv(s: St, step: Step)
    requires Inv(s) && Enabled(s, step)
    ensures Inv(Apply(s, step))
  {
    match step
    case HwStep(k) => HwKeepsRunning(s, k);
    case PollStep => CompleteKeepsRunning(s);
    case PassStep => PassKeepsRunning(s);
    case PublishStep => PublishKeepsRunning(s);
    case SubmitStep(r) => AcceptKeepsInv(s, r);
    case BatchStep(rs) => AcceptBatchKeepsInv(s, rs);
    case StopStep => StopKeepsInv(s);
    case FlushStep => FlushKeepsInv(s);
    case StartStep(conf, ok) => RestartKeepsInv(s, conf);
  }

  lemma InitialInv()
    ensures Inv(Initial())
  {
  }

  lemma StopKeepsInv(s: St)
    requires Inv(s) && s.online && Quiet(s)
    ensures Inv(s.(stopWait := true))
  {
    hide Plan, Plans;
  }

  lemma OnlineShape(s: St)
    requires Inv(s) && s.online
    ensures Shape(s) && (s.avail > 0 && s.work != [] ==> CanPass(s))
  {
  }

  // ---------------------------------------------------------------- runs

  predicate CanRun(s: St, steps: seq<Step>)
    decreases |steps|
  {
    steps == [] || (Enabled(s, steps[0]) && CanRun(Apply(s, steps[0]), steps[1..]))
  }

  function Run(s: St, steps: seq<Step>): St
    requires CanRun(s, steps)
    decreases |steps|
  {
    if steps == [] then s else Run(Apply(s, steps[0]), steps[1..])
  }

  /** Every state a run can reach satisfies the invariant. */
  lemma {:induction false} RunKeepsInv(s: St, steps: seq<Step>)
    requires Inv(s) && CanRun(s, steps)
    ensures Inv(Run(s, steps))
    decreases |steps|
  {
    hide Inv, Enabled, Apply;
    if steps != [] {
      ApplyKeepsInv(s, steps[0]);
      RunKeepsInv(Apply(s, steps[0]), steps[1..]);
    }
  }

  lemma {:induction false} RunSnoc(s: St, steps: seq<Step>, step: Step)
    requires CanRun(s, steps) && Enabled(Run(s, steps), step)
    ensures CanRun(s, steps + [step]) && Run(s, steps + [step]) == Apply(Run(s, steps), step)
    decreases |steps|
  {
    hide Enabled, Apply;
    if steps == [] {
      assert [step][1..] == [];
    } else {
      RunSnoc(Apply(s, steps[0]), steps[1..], step);
      assert (steps + [step])[1..] == steps[1..] + [step];
    }
  }

  lemma RunNone(s: St)
    ensures CanRun(s, []) && Run(s, []) == s
  {
  }

  lemma {:induction false} RunConcat(s: St, a: seq<Step>, b: seq<Step>)
    requires CanRun(s, a) && CanRun(Run(s, a), b)
    ensures CanRun(s, a + b) && Run(s, a + b) == Run(Run(s, a), b)
    decreases |a|
  {
    hide Enabled, Apply;
    if a == [] {
      assert a + b == b;
    } else {
      RunConcat(Apply(s, a[0]), a[1..], b);
      assert (a + b)[1..] == a[1..] + b;
    }
  }

  // ---------------------------------------------------------------- progress

  /** Bytes of the work list that are not posted yet. */
  function Left(work: seq<Entry>): nat
    requires forall i :: 0 <= i < |work| ==> work[i].offset <= work[i].req.count
  {
    if work == [] then 0 else work[0].req.count - work[0].offset + Left(work[1..])
  }

  /** A pass with room in the ring posts at least one byte if and only if the request moves.
      One that does not move fills the ring with empty descriptors and stays where it is. */
  lemma PassReducesLeft(s: St)
    requires s.online && Running(s) && CanPass(s)
    ensures WorkOk(Pass(s).work)
    ensures Left(Pass(s).work) < Left(s.work) <==> s.conf.Moves(s.work[0].req)
    ensures !s.conf.Moves(s.work[0].req) ==>
      Pass(s).avail == 0 && Pass(s).work == [s.work[0].(descNr := s.work[0].descNr + s.avail)] + s.work[1..]
  {
    hide Plan, Plans, LogOk, CreditOk, Window, DrainOk, Cut, CutEnd, StoreAll, Mark;
    PassLists(s);
    var t := Pass(s);
    var e := s.work[0];
    CutFull(s.conf, e.req, e.offset, s.avail);
    assert t.work == s.work[1..] || t.work[1..] == s.work[1..];
  }
}
