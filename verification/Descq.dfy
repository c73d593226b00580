/** The descriptor queue as the driver runs it: an object whose fields the request and
    completion paths update in place. Each method is proved against a step of `DescqState`. */
module Descq {
  import opened Transfer
  import opened DescqState
  import opened DescqProofs
  import opened Errno
  import Bits
  import Ring

  /** Which scatter element holds byte `offset` of the request, and where inside it.
      `rv` is the element's index, or -EINVAL when the list ends before `offset`. */
  method FindOffset(req: Request, offset: nat) returns (rv: int, sgOffset: nat)
    requires Positive(req.sgl)
    ensures req.count == 0 ==> rv == 0 && sgOffset == 0
    ensures req.count != 0 && offset < TotalLen(req.sgl) ==> (rv, sgOffset) == Locate(req.sgl, offset)
    ensures req.count != 0 && offset >= TotalLen(req.sgl) ==> rv == -EINVAL
  {
    hide Locate, TotalLen;
    if req.count == 0 {
      return 0, 0;
    }
    sgOffset := 0;
    var len, i := 0, 0;
    assert req.sgl[0..] == req.sgl;
    while i < |req.sgl|
      invariant 0 <= i <= |req.sgl|
      invariant len <= offset && (i > 0 ==> len < offset)
      invariant len + TotalLen(req.sgl[i..]) == TotalLen(req.sgl)
      invariant offset < TotalLen(req.sgl) ==>
        Locate(req.sgl, offset) == (i + Locate(req.sgl[i..], offset - len).0, Locate(req.sgl[i..], offset - len).1)
      invariant sgOffset == 0
    {
      assert req.sgl[i..][0] == req.sgl[i] && req.sgl[i..][1..] == req.sgl[i + 1..];
      LocateUnfold(req.sgl[i..], offset - len);
      len := len + req.sgl[i].len;
      if len == offset {
        i := i + 1;
        if i < |req.sgl| {
          assert req.sgl[i..][0] == req.sgl[i];
          LocateUnfold(req.sgl[i..], 0);
        }
        break;
      } else if len > offset {
        sgOffset := req.sgl[i].len - (len - offset);
        break;
      }
      i := i + 1;
    }
    if i == |req.sgl| {
      TotalNone();
    }
    rv := if i < |req.sgl| then i else -EINVAL;
  }

  lemma TotalNone()
    ensures TotalLen([]) == 0
  {
  }

  lemma LocateUnfold(sgl: seq<Sg>, off: nat)
    requires sgl != []
    ensures TotalLen(sgl) == sgl[0].len + TotalLen(sgl[1..])
    ensures off < sgl[0].len ==> Locate(sgl, off) == (0, off)
    ensures sgl[0].len <= off < TotalLen(sgl) ==>
      var (i, o) := Locate(sgl[1..], off - sgl[0].len); Locate(sgl, off) == (i + 1, o)
  {
  }

  lemma StoreSnoc(conf: Conf, ring: seq<Desc>, p: nat, ds: seq<Desc>, d: Desc)
    requires p < |ring| && |ds| < |ring|
    ensures var q := Ring.Incr(p, |ds|, |ring|);
      var put := StoreAll(conf, ring, p, ds)[q := d];
      StoreAll(conf, ring, p, ds + [d])
      == if conf.st && q + 1 < |ring| && |ds| + 1 < |ring| then put[q + 1 := put[q + 1].(valid := false)] else put
  {
  }

  lemma StoreMark(conf: Conf, ring: seq<Desc>, p: nat, ds: seq<Desc>)
    requires p < |ring| && 0 < |ds| < |ring| && !conf.st
    ensures var r := StoreAll(conf, ring, p, ds);
      var q := Ring.Incr(p, |ds| - 1, |ring|);
      var r' := r[q := r[q].(eop := true)];
      StoreAll(conf, ring, p, Mark(conf, ds)) == r'[p := r'[p].(sop := true)]
  {
  }

  /** State of a posting loop: descriptors `ds` are stored, byte `off` comes next. */
  ghost predicate Progress(conf: Conf, req: Request, start: nat, max: nat, p0: nat, ring0: seq<Desc>,
                           ring: seq<Desc>, ds: seq<Desc>, off: nat, p: nat)
  {
    && conf.Valid() && WellFormed(req) && max < conf.rngsz && |ring0| == conf.rngsz && p0 < conf.rngsz
    && start <= off <= req.count && |ds| <= max
    && p == Ring.Incr(p0, |ds|, conf.rngsz)
    && Cut(conf, req, start, max) == ds + Cut(conf, req, off, max - |ds|)
    && CutEnd(conf, req, start, max) == CutEnd(conf, req, off, max - |ds|)
    && ring == StoreAll(conf, ring0, p0, ds)
  }

  lemma ProgressStart(conf: Conf, req: Request, start: nat, max: nat, p0: nat, ring0: seq<Desc>)
    requires conf.Valid() && WellFormed(req) && max < conf.rngsz && |ring0| == conf.rngsz && p0 < conf.rngsz
    requires start <= req.count
    ensures var ring := if conf.st then ring0[p0 := ring0[p0].(valid := false)] else ring0;
      Progress(conf, req, start, max, p0, ring0, ring, [], start, p0)
  {
    assert StoreAll(conf, ring0, p0, []) == if conf.st then ring0[p0 := ring0[p0].(valid := false)] else ring0;
    assert [] + Cut(conf, req, start, max) == Cut(conf, req, start, max);
  }

  /** Storing the next chunk and moving to the next slot. */
  lemma ProgressStep(conf: Conf, req: Request, start: nat, max: nat, p0: nat, ring0: seq<Desc>,
                     ring: seq<Desc>, ds: seq<Desc>, off: nat, p: nat)
    requires Progress(conf, req, start, max, p0, ring0, ring, ds, off, p)
    requires off < req.count && |ds| < max
    ensures p < |ring|
    ensures var d := Chunk(conf, req, off);
      var put := ring[p := d];
      Progress(conf, req, start, max, p0, ring0,
        if conf.st && p + 1 < |ring| then put[p + 1 := put[p + 1].(valid := false)] else put,
        ds + [d], off + ChunkLen(conf, req, off), Ring.Incr(p, 1, conf.rngsz))
  {
    hide Chunk, ChunkLen, Cut, CutEnd, StoreAll;
    var d, n := Chunk(conf, req, off), ChunkLen(conf, req, off);
    StoreSnoc(conf, ring0, p0, ds, d);
    CutNext(conf, req, off, max - |ds|);
    assert (ds + [d]) + Cut(conf, req, off + n, max - |ds| - 1) == ds + ([d] + Cut(conf, req, off + n, max - |ds| - 1));
  }

  lemma ProgressEnd(conf: Conf, req: Request, start: nat, max: nat, p0: nat, ring0: seq<Desc>,
                    ring: seq<Desc>, ds: seq<Desc>, off: nat, p: nat)
    requires Progress(conf, req, start, max, p0, ring0, ring, ds, off, p)
    requires off == req.count || |ds| == max
    ensures ds == Cut(conf, req, start, max) && off == CutEnd(conf, req, start, max)
    ensures p == Ring.Incr(p0, |ds|, conf.rngsz) && ring == StoreAll(conf, ring0, p0, ds)
  {
    hide Chunk, ChunkLen;
    assert Cut(conf, req, off, max - |ds|) == [];
  }

  /** The scatter loop stands at byte `off`: element `i`, offset `so` inside it. */
  predicate At(req: Request, off: nat, i: nat, so: nat)
    requires off <= TotalLen(req.sgl)
  {
    if off < TotalLen(req.sgl) then i < |req.sgl| && Locate(req.sgl, off) == (i, so) else i >= |req.sgl|
  }

  /** Inside element `i`, with `tlen` bytes of it left from byte `off` on. */
  predicate ElementAt(req: Request, off: nat, i: nat, tlen: nat)
    requires off <= TotalLen(req.sgl)
  {
    if tlen > 0 then
      off < TotalLen(req.sgl) && i < |req.sgl| && tlen <= req.sgl[i].len
      && Locate(req.sgl, off) == (i, req.sgl[i].len - tlen)
    else At(req, off, i + 1, 0)
  }

  lemma ElementStep(req: Request, off: nat, i: nat, tlen: nat, len: nat)
    requires WellFormed(req) && off < TotalLen(req.sgl) && 0 < tlen && len <= tlen && ElementAt(req, off, i, tlen)
    ensures off + len <= TotalLen(req.sgl) && ElementAt(req, off + len, i, tlen - len)
  {
    hide Locate, TotalLen;
    LocateStep(req.sgl, off, len);
  }

  /** The running device address: the address of byte `off`, or one window further on
      when `off` starts a new lap of the keyhole. */
  predicate EpTracks(conf: Conf, req: Request, off: nat, ep: nat)
    requires conf.Valid()
  {
    ep == EpByte(conf, req, off)
    || (conf.Keyhole() && off % conf.apertureSize == 0 && ep == EpByte(conf, req, off) + conf.apertureSize)
  }

  /** Where a pass starts on the device. */
  method FirstEp(conf: Conf, req: Request, offset: nat) returns (ep: nat)
    requires conf.Valid() && !conf.st
    ensures ep == EpByte(conf, req, offset)
  {
    if conf.apertureSize == 0 {
      ep := req.epAddr + offset;
    } else {
      ep := req.epAddr + Bits.And(offset, conf.apertureSize - 1);
      Bits.MaskIsMod(offset, conf.apertureSize);
    }
  }

  /** Length of the next descriptor and its device address, from the loop's own variables. */
  method CutMm(conf: Conf, req: Request, ep0: nat, tlen: nat, ghost off: nat, ghost i: nat) returns (ep: nat, len: nat)
    requires conf.Valid() && !conf.st && WellFormed(req) && off < req.count && 0 < tlen
    requires i < |req.sgl| && tlen <= req.sgl[i].len && Locate(req.sgl, off) == (i, req.sgl[i].len - tlen)
    requires EpTracks(conf, req, off, ep0)
    ensures ep == EpByte(conf, req, off) && len == ChunkLen(conf, req, off) <= tlen
    ensures EpTracks(conf, req, off + len, ep + len)
  {
    hide Locate, TotalLen;
    var aperture := if conf.apertureSize != 0 then conf.apertureSize else conf.blenMax;
    var epMax := req.epAddr + aperture - 1;
    ep := ep0;
    len := Min(tlen, aperture);
    if conf.apertureSize != 0 {
      Ring.ModStep(off, 0, aperture);
      if ep > epMax {
        ep := req.epAddr;
      }
      if ep + len > epMax {
        len := epMax - ep + 1;
      }
      Ring.ModStep(off, len, aperture);
    }
  }

  lemma StreamLen(conf: Conf, req: Request, off: nat, i: nat, tlen: nat)
    requires conf.Valid() && conf.st && WellFormed(req) && off < req.count && 0 < tlen && ElementAt(req, off, i, tlen)
    ensures ChunkLen(conf, req, off) == Min(tlen, conf.MaxLen(req))
  {
  }

  predicate Polls(steps: seq<Step>)
  {
    forall i :: 0 <= i < |steps| ==> steps[i].HwStep? || steps[i].PollStep?
  }

  predicate PollsAndPasses(steps: seq<Step>)
  {
    forall i :: 0 <= i < |steps| ==> steps[i].HwStep? || steps[i].PollStep? || steps[i].PassStep?
  }

  lemma {:induction false} PollsKeepLog(s: St, steps: seq<Step>)
    requires CanRun(s, steps) && Polls(steps)
    ensures var t := Run(s, steps);
      t.h.log == s.h.log && t.h.published == s.h.published && t.work == s.work && t.online == s.online && t.stopWait == s.stopWait
    decreases |steps|
  {
    if steps != [] {
      PollsKeepLog(Apply(s, steps[0]), steps[1..]);
    }
  }

  lemma PassReady(s: St)
    requires Inv(s) && s.online && !s.stopWait && s.work != [] && s.avail > 0
    ensures CanPass(s) && Enabled(s, PassStep) && Apply(s, PassStep) == Pass(s)
    ensures Pass(s).online && !Pass(s).stopWait && Pass(s).conf == s.conf && Inv(Pass(s))
    ensures |s.h.log| < |Pass(s).h.log|
  {
    OnlineShape(s);
    ApplyKeepsInv(s, PassStep);
    PassGrows(s);
  }

  lemma OnlineStays(s: St, steps: seq<Step>)
    requires CanRun(s, steps) && Polls(steps)
    ensures Run(s, steps).online == s.online
  {
    PollsKeepLog(s, steps);
  }

  lemma NoCalls()
    ensures DoneCalls([]) == [] && Reqs([]) == []
  {
  }

  lemma OneMoreCall(es: seq<Entry>, e: Entry)
    ensures DoneCalls(es + [e]) == DoneCalls(es) + [DoneCall(e)] && Reqs(es + [e]) == Reqs(es) + [e.req]
  {
  }

  /** The last step is a look at the hardware. */
  predicate LooksLast(steps: seq<Step>)
  {
    steps != [] && steps[|steps| - 1] == PollStep
  }

  /** What the request path does from `s` on: the loop passes and polls until nothing waits or the
      ring is full; if anything was posted it is published, and polls follow. In the polling modes
      the hardware is looked at first, again before a full ring is given up, and last. */
  ghost predicate Serviced(poll: bool, s: St, body: seq<Step>, tail: seq<Step>)
  {
    && CanRun(s, body) && CanRun(Run(s, body), tail) && PollsAndPasses(body)
    && var mid := Run(s, body);
    && (mid.work == [] || mid.avail == 0)
    && (if Quiet(mid) then tail == [] else tail != [] && tail[0] == PublishStep && Polls(tail[1..]))
    && (poll ==> |body| >= 2 && body[1] == PollStep && (mid.work != [] ==> LooksLast(body)) && (tail != [] ==> LooksLast(tail)))
  }

  class DescriptorQueue {
    const pollMode: bool
    var conf: Conf
    var online: bool
    var stopWait: bool
    var procReqRunning: bool
    var desc: array<Desc>
    var pidx: nat
    var cidx: nat
    var avail: nat
    var credit: nat
    var pendListEmpty: bool
    var workReqPend: nat
    var descPend: nat
    var pidxInfo: nat
    /** The producer index last written to the device. */
    var doorbell: nat
    /** The consumer index the device last wrote back. */
    var statusCidx: nat
    var workList: seq<Entry>
    var pendList: seq<Entry>
    /** Every call of `fp_done` so far. */
    var callbacks: seq<Callback>
    ghost var h: History

    ghost function View(): St
      reads this, desc
    {
      St(conf, online, stopWait, desc[..], pidx, cidx, avail, credit, pendListEmpty, workReqPend,
         pidxInfo, doorbell, statusCidx, workList, pendList, callbacks, h)
    }

    /** `qdma_descq_init`. */
    constructor (poll: bool)
      ensures Valid() && View() == Initial() && pollMode == poll && fresh(desc)
    {
      pollMode := poll;
      conf := Conf(false, false, 0, 1, 1);
      online, stopWait, procReqRunning, pendListEmpty := false, false, false, false;
      desc := new Desc[1](_ => NO_DESC);
      pidx, cidx, avail, credit, workReqPend, descPend := 0, 0, 0, 0, 0, 0;
      pidxInfo, doorbell, statusCidx := 0, 0, 0;
      workList, pendList, callbacks := [], [], [];
      h := History([], 0, 0, 0, [], [], 0, 0);
      new;
      assert desc[..] == [NO_DESC];
      InitialInv();
    }

    /** What holds whenever the queue lock is free. */
    ghost predicate Core()
      reads this, desc
    {
      Inv(View()) && descPend == 0 && (online ==> Quiet(View()))
    }

    /** The object between two calls of the interface. */
    ghost predicate Valid()
      reads this, desc
    {
      Core() && !procReqRunning
    }

    /** The device processes some published descriptors and writes its index back. */
    method HardwareStep() returns (ghost k: nat)
      requires online && Inv(View())
      modifies this`statusCidx, this`h
      ensures Enabled(old(View()), HwStep(k))
      ensures View() == Apply(old(View()), HwStep(k))
    {
      hide Plan, Plans, LogOk, CreditOk, Window, CallsOk;
      Ring.DeltaIsDistance(h.hwDone, h.published, conf.rngsz);
      var moved: nat :| moved <= Ring.Delta(statusCidx, doorbell, conf.rngsz);
      statusCidx := Ring.Incr(statusCidx, moved, conf.rngsz);
      h := h.(hwDone := h.hwDone + moved);
      k := moved;
    }

    /** `qdma_sgt_req_done` for the first pending request. */
    method ReqDone(error: int)
      requires pendList != []
      modifies this`pendList, this`callbacks, this`pendListEmpty, this`h
      ensures pendList == old(pendList[1..])
      ensures var e := old(pendList[0]);
        callbacks == old(callbacks) + [Callback(e.req, e.offset, if e.offset != e.req.count then -EINVAL else error)]
      ensures h == old(h).(finished := old(h).finished + [old(pendList[0]).req])
      ensures pendListEmpty == (avail == conf.rngsz - 1)
    {
      var cb := pendList[0];
      pendList := pendList[1..];
      var status := error;
      if cb.offset != cb.req.count {
        status := -EINVAL;
      }
      callbacks := callbacks + [Callback(cb.req, cb.offset, status)];
      pendListEmpty := avail == conf.rngsz - 1;
      h := h.(finished := h.finished + [cb.req]);
    }

    /** The loop of the completion path: spend `total` credits on pending requests, in order. */
    method Retire(total: nat) returns (left: nat)
      modifies this`pendList, this`callbacks, this`pendListEmpty, this`h
      ensures var (n, rest, c) := Drain(old(pendList), total);
        && pendList == rest && left == c
        && callbacks == old(callbacks) + DoneCalls(old(pendList)[..n])
        && h == old(h).(finished := old(h).finished + Reqs(old(pendList)[..n]))
        && pendListEmpty == if n > 0 then avail == conf.rngsz - 1 else old(pendListEmpty)
    {
      hide DoneCalls, Reqs;
      var cr: nat := total;
      ghost var n := 0;
      NoCalls();
      ghost var pend0 := pendList;
      while pendList != [] && cr != 0
        invariant 0 <= n <= |pend0|
        invariant var (m, rest, c) := Drain(pendList, cr); Drain(pend0, total) == (n + m, rest, c)
        invariant cr != 0 ==> pendList == pend0[n..]
        invariant callbacks == old(callbacks) + DoneCalls(pend0[..n])
        invariant h == old(h).(finished := old(h).finished + Reqs(pend0[..n]))
        invariant pendListEmpty == if n > 0 then avail == conf.rngsz - 1 else old(pendListEmpty)
        decreases |pendList|, cr
      {
        var cb := pendList[0];
        if cr >= cb.descNr {
          cr := cr - cb.descNr;
          ReqDone(0);
          assert pend0[..n + 1] == pend0[..n] + [pend0[n]];
          OneMoreCall(pend0[..n], pend0[n]);
          n := n + 1;
        } else {
          pendList := [cb.(descNr := cb.descNr - cr)] + pendList[1..];
          cr := 0;
        }
      }
      left := cr;
    }

    /** The body of `CmplStatus`. */
    method TakeCredits()
      requires Shape(View())
      modifies this`cidx, this`avail, this`credit, this`pendList, this`callbacks, this`pendListEmpty,
               this`doorbell, this`descPend, this`h
      ensures var t := Complete(old(View()));
        && cidx == t.cidx && avail == t.avail && credit == t.credit && pendList == t.pend
        && callbacks == t.callbacks && pendListEmpty == t.pendListEmpty && doorbell == t.doorbell && h == t.h
      ensures descPend == old(descPend) || descPend == 0
    {
      hide Drain, DoneCalls, Reqs, Bits.IsPow2;
      if pidx == cidx || statusCidx == cidx {
        return;
      }
      var cr: nat := if statusCidx < cidx then (conf.rngsz - cidx) + statusCidx else statusCidx - cidx;
      cidx := statusCidx;
      avail := avail + cr;
      credit := credit + cr;
      credit := Retire(credit);
      doorbell := pidxInfo;
      descPend := 0;
      h := h.(consumed := h.consumed + cr);
    }

    /** One element of the scatter list: descriptors until it or the budget is used up. */
    method FillElement(req: Request, offset: nat, descMax: nat, i: nat, sgOffset0: nat,
                       p0: nat, descCnt0: nat, dataCnt0: nat, ep0: nat, ghost ring: seq<Desc>, ghost ds0: seq<Desc>)
      returns (p: nat, end: nat, descCnt: nat, dataCnt: nat, ep: nat, sgOffset: nat, ghost ds: seq<Desc>)
      requires conf.Valid() && WellFormed(req) && !conf.st && descCnt0 == |ds0| < descMax && i < |req.sgl|
      requires offset + dataCnt0 < req.count && pidx < conf.rngsz && descMax < conf.rngsz
      requires Progress(conf, req, offset, descMax, pidx, ring, desc[..], ds0, offset + dataCnt0, p0)
      requires At(req, offset + dataCnt0, i, sgOffset0) && EpTracks(conf, req, offset + dataCnt0, ep0)
      modifies desc
      ensures Progress(conf, req, offset, descMax, pidx, ring, desc[..], ds, offset + dataCnt, p)
      ensures 0 < descCnt == |ds| <= descMax && offset + dataCnt <= req.count
      ensures end == Ring.Incr(pidx, descCnt - 1, conf.rngsz)
      ensures descCnt < descMax ==> At(req, offset + dataCnt, i + 1, sgOffset) && EpTracks(conf, req, offset + dataCnt, ep)
    {
      hide Locate, Cut, CutEnd, Chunk, ChunkLen, StoreAll, EpByte, EpTracks, Progress;
      p, end, descCnt, dataCnt, ep, ds := p0, p0, descCnt0, dataCnt0, ep0, ds0;
      var tlen: nat := req.sgl[i].len - sgOffset0;
      var src: nat := req.sgl[i].addr + sgOffset0;
      sgOffset := 0;
      while tlen > 0 && descCnt < descMax
        invariant Progress(conf, req, offset, descMax, pidx, ring, desc[..], ds, offset + dataCnt, p)
        invariant descCnt0 <= |ds| == descCnt <= descMax && offset + dataCnt <= req.count
        invariant descCnt > descCnt0 ==> end == Ring.Incr(pidx, descCnt - 1, conf.rngsz)
        invariant descCnt == descCnt0 ==> tlen > 0
        invariant ElementAt(req, offset + dataCnt, i, tlen)
        invariant src + tlen == req.sgl[i].addr + req.sgl[i].len
        invariant EpTracks(conf, req, offset + dataCnt, ep)
        decreases tlen
      {
        ghost var off := offset + dataCnt;
        var len;
        ep, len := CutMm(conf, req, ep, tlen, off, i);
        end := p;
        sgOffset := sgOffset + len;
        p := PutMm(p, src, ep, len, req, offset, descMax, ring, ds, off, i);
        ElementStep(req, off, i, tlen, len);
        ds := ds + [Chunk(conf, req, off)];
        ep := ep + len;
        dataCnt := dataCnt + len;
        src := src + len;
        tlen := tlen - len;
        descCnt := descCnt + 1;
      }
      if tlen == 0 {
        sgOffset := 0;
      }
    }

    /** Write one descriptor and step to the next slot. */
    method PutMm(p0: nat, src: nat, ep: nat, len: nat, ghost req: Request, ghost start: nat, ghost max: nat,
                 ghost ring: seq<Desc>, ghost ds: seq<Desc>, ghost off: nat, ghost i: nat) returns (p: nat)
      requires Progress(conf, req, start, max, pidx, ring, desc[..], ds, off, p0)
      requires !conf.st && off < req.count && |ds| < max && i < |req.sgl|
      requires Locate(req.sgl, off).0 == i && src == req.sgl[i].addr + Locate(req.sgl, off).1
      requires ep == EpByte(conf, req, off) && len == ChunkLen(conf, req, off)
      modifies desc
      ensures Progress(conf, req, start, max, pidx, ring, desc[..], ds + [Chunk(conf, req, off)], off + len, p)
      ensures p0 == Ring.Incr(pidx, |ds|, conf.rngsz)
    {
      hide TotalLen, Locate, Cut, CutEnd, ChunkLen, StoreAll, EpByte;
      ProgressStep(conf, req, start, max, pidx, ring, desc[..], ds, off, p0);
      if conf.c2h {
        desc[p0] := Desc(ep, src, len, false, false, true);
      } else {
        desc[p0] := Desc(src, ep, len, false, false, true);
      }
      assert desc[..] == old(desc[..])[p0 := Chunk(conf, req, off)];
      p := if p0 + 1 == conf.rngsz then 0 else p0 + 1;
    }

    /** The scatter loop of `descq_mm_proc_request`: write descriptors for `req` from byte
        `offset` on, at most `descMax` of them, from slot `pidx` on. */
    method FillMm(req: Request, offset: nat, descMax: nat) returns (p: nat, descCnt: nat, dataCnt: nat)
      requires conf.Valid() && !conf.st && desc.Length == conf.rngsz && pidx < conf.rngsz
      requires WellFormed(req) && offset < req.count && 0 < descMax < conf.rngsz
      modifies desc
      ensures var ds := Cut(conf, req, offset, descMax);
        && descCnt == |ds| && p == Ring.Incr(pidx, |ds|, conf.rngsz)
        && offset + dataCnt == CutEnd(conf, req, offset, descMax)
        && desc[..] == StoreAll(conf, old(desc[..]), pidx, Mark(conf, ds))
    {
      hide Locate, TotalLen, Progress, Cut, CutEnd, Chunk, ChunkLen, StoreAll, EpByte;
      var aperture := if conf.apertureSize != 0 then conf.apertureSize else conf.blenMax;
      var keyhole := conf.apertureSize != 0;
      var ep: nat := FirstEp(conf, req, offset);
      var i, sgOffset := FindOffset(req, offset);
      p, descCnt, dataCnt := pidx, 0, 0;
      var end := p;
      ghost var ring := desc[..];
      ghost var ds: seq<Desc> := [];
      ProgressStart(conf, req, offset, descMax, pidx, ring);
      while i < |req.sgl| && descCnt < descMax
        invariant Progress(conf, req, offset, descMax, pidx, ring, desc[..], ds, offset + dataCnt, p)
        invariant |ds| == descCnt <= descMax && offset + dataCnt <= req.count
        invariant descCnt > 0 ==> end == Ring.Incr(pidx, descCnt - 1, conf.rngsz)
        invariant descCnt < descMax ==> At(req, offset + dataCnt, i, sgOffset) && EpTracks(conf, req, offset + dataCnt, ep)
        decreases |req.sgl| - i
      {
        assert offset + dataCnt < req.count;
        p, end, descCnt, dataCnt, ep, sgOffset, ds :=
          FillElement(req, offset, descMax, i, sgOffset, p, descCnt, dataCnt, ep, ring, ds);
        i := i + 1;
      }
      ProgressEnd(conf, req, offset, descMax, pidx, ring, desc[..], ds, offset + dataCnt, p);
      CutFull(conf, req, offset, descMax);
      StoreMark(conf, ring, pidx, ds);
      desc[end] := desc[end].(eop := true);
      desc[pidx] := desc[pidx].(sop := true);
    }

    /** One element of the scatter list of a streaming request. */
    method FillStElement(req: Request, offset: nat, descMax: nat, pktsz: nat, i: nat, sgOffset0: nat,
                         p0: nat, descCnt0: nat, dataCnt0: nat, ghost ring: seq<Desc>, ghost ds0: seq<Desc>)
      returns (p: nat, descCnt: nat, dataCnt: nat, sgOffset: nat, ghost ds: seq<Desc>)
      requires conf.Valid() && WellFormed(req) && conf.st && descCnt0 == |ds0| < descMax && i < |req.sgl|
      requires offset + dataCnt0 < req.count && pidx < conf.rngsz && descMax < conf.rngsz && pktsz == conf.MaxLen(req)
      requires Progress(conf, req, offset, descMax, pidx, ring, desc[..], ds0, offset + dataCnt0, p0)
      requires At(req, offset + dataCnt0, i, sgOffset0)
      modifies desc
      ensures Progress(conf, req, offset, descMax, pidx, ring, desc[..], ds, offset + dataCnt, p)
      ensures 0 < descCnt == |ds| <= descMax && offset + dataCnt <= req.count
      ensures descCnt < descMax ==> At(req, offset + dataCnt, i + 1, sgOffset)
    {
      hide Locate, Cut, CutEnd, Chunk, ChunkLen, StoreAll, EpByte, Progress;
      p, descCnt, dataCnt, ds := p0, descCnt0, dataCnt0, ds0;
      var tlen: nat := req.sgl[i].len - sgOffset0;
      var src: nat := req.sgl[i].addr + sgOffset0;
      sgOffset := 0;
      while tlen > 0 && descCnt < descMax
        invariant Progress(conf, req, offset, descMax, pidx, ring, desc[..], ds, offset + dataCnt, p)
        invariant descCnt0 <= |ds| == descCnt <= descMax && offset + dataCnt <= req.count
        invariant descCnt == descCnt0 ==> tlen > 0
        invariant ElementAt(req, offset + dataCnt, i, tlen)
        invariant src + tlen == req.sgl[i].addr + req.sgl[i].len
        decreases descMax - descCnt
      {
        ghost var off := offset + dataCnt;
        var len: nat := Min(tlen, pktsz);
        StreamLen(conf, req, off, i, tlen);
        sgOffset := sgOffset + len;
        p := PutSt(p, src, len, req, offset, descMax, ring, ds, off, i);
        ElementStep(req, off, i, tlen, len);
        ds := ds + [Chunk(conf, req, off)];
        dataCnt := dataCnt + len;
        src := src + len;
        tlen := tlen - len;
        descCnt := descCnt + 1;
      }
      if tlen == 0 {
        sgOffset := 0;
      }
    }

    /** Write one streaming descriptor and clear the flag of the slot that follows. */
    method PutSt(p0: nat, src: nat, len: nat, ghost req: Request, ghost start: nat, ghost max: nat,
                 ghost ring: seq<Desc>, ghost ds: seq<Desc>, ghost off: nat, ghost i: nat) returns (p: nat)
      requires Progress(conf, req, start, max, pidx, ring, desc[..], ds, off, p0)
      requires conf.st && off < req.count && |ds| < max && i < |req.sgl|
      requires Locate(req.sgl, off).0 == i && src == req.sgl[i].addr + Locate(req.sgl, off).1
      requires len == ChunkLen(conf, req, off)
      modifies desc
      ensures Progress(conf, req, start, max, pidx, ring, desc[..], ds + [Chunk(conf, req, off)], off + len, p)
    {
      hide TotalLen, Locate, Cut, CutEnd, ChunkLen, StoreAll;
      ProgressStep(conf, req, start, max, pidx, ring, desc[..], ds, off, p0);
      ghost var put := desc[..][p0 := Chunk(conf, req, off)];
      desc[p0] := Desc(src, 0, len, false, false, true);
      assert desc[..] == put;
      if p0 + 1 == conf.rngsz {
        p := 0;
      } else {
        p := p0 + 1;
        desc[p] := desc[p].(valid := false);
        assert desc[..] == put[p := put[p].(valid := false)];
      }
    }

    /** The scatter loop of `descq_proc_st_h2c_request`. */
    method FillSt(req: Request, offset: nat, descMax: nat) returns (p: nat, descCnt: nat, dataCnt: nat)
      requires conf.Valid() && conf.st && desc.Length == conf.rngsz && pidx < conf.rngsz
      requires WellFormed(req) && offset < req.count && 0 < descMax < conf.rngsz
      modifies desc
      ensures var ds := Cut(conf, req, offset, descMax);
        && descCnt == |ds| && p == Ring.Incr(pidx, |ds|, conf.rngsz)
        && offset + dataCnt == CutEnd(conf, req, offset, descMax)
        && desc[..] == StoreAll(conf, old(desc[..]), pidx, Mark(conf, ds))
    {
      hide Locate, TotalLen, Progress, Cut, CutEnd, Chunk, ChunkLen, StoreAll, EpByte;
      var pktsz := if req.epAddr != 0 then Min(req.epAddr % Ring.U32, PAGE_SIZE) else PAGE_SIZE;
      var i, sgOffset := FindOffset(req, offset);
      p, descCnt, dataCnt := pidx, 0, 0;
      ghost var ring := desc[..];
      ghost var ds: seq<Desc> := [];
      desc[pidx] := desc[pidx].(valid := false);
      assert desc[..] == ring[pidx := ring[pidx].(valid := false)];
      ProgressStart(conf, req, offset, descMax, pidx, ring);
      while i < |req.sgl| && descCnt < descMax
        invariant Progress(conf, req, offset, descMax, pidx, ring, desc[..], ds, offset + dataCnt, p)
        invariant |ds| == descCnt <= descMax && offset + dataCnt <= req.count
        invariant descCnt < descMax ==> At(req, offset + dataCnt, i, sgOffset)
        decreases |req.sgl| - i
      {
        assert offset + dataCnt < req.count;
        p, descCnt, dataCnt, sgOffset, ds :=
          FillStElement(req, offset, descMax, pktsz, i, sgOffset, p, descCnt, dataCnt, ring, ds);
        i := i + 1;
      }
      ProgressEnd(conf, req, offset, descMax, pidx, ring, desc[..], ds, offset + dataCnt, p);
    }

    /** `qdma_update_request` for the first waiting request. */
    method UpdateRequest(numDesc: nat, dataCnt: nat)
      requires workList != []
      modifies this`workList, this`pendList, this`workReqPend
      ensures var e := old(workList[0]);
        var e' := Entry(e.req, e.offset + dataCnt, e.descNr + numDesc);
        if e'.offset >= e.req.count then
          workList == old(workList[1..]) && pendList == old(pendList) + [e'] && workReqPend == Decr32(old(workReqPend), 1)
        else
          workList == [e'] + old(workList[1..]) && pendList == old(pendList) && workReqPend == old(workReqPend)
    {
      var cb := workList[0];
      cb := cb.(descNr := cb.descNr + numDesc, offset := cb.offset + dataCnt);
      if cb.offset >= cb.req.count {
        workList := workList[1..];
        workReqPend := Decr32(workReqPend, 1);
        pendList := pendList + [cb];
      } else {
        workList := [cb] + workList[1..];
      }
    }

    /** The body of `PostPass`. */
    method PostFirst() returns (written: nat)
      requires CanPass(View())
      modifies this`pidx, this`avail, this`workList, this`pendList, this`workReqPend, this`h, desc
      ensures var t := Pass(old(View()));
        && desc[..] == t.ring && pidx == t.pidx && avail == t.avail && workList == t.work && pendList == t.pend
        && workReqPend == t.workReqPend && h == t.h
      ensures |h.log| == |old(h).log| + written
    {
      hide Cut, CutEnd, StoreAll, Mark, Locate, TotalLen, Positive;
      var cb := workList[0];
      var p, descCnt, dataCnt;
      if conf.st {
        p, descCnt, dataCnt := FillSt(cb.req, cb.offset, avail);
      } else {
        p, descCnt, dataCnt := FillMm(cb.req, cb.offset, avail);
      }
      UpdateRequest(descCnt, dataCnt);
      pidx := p;
      h := h.(log := h.log + Cut(conf, cb.req, cb.offset, avail));
      avail := avail - descCnt;
      written := descCnt;
    }

    /** One turn of the request loop: post what fits of the first waiting request. */
    method PostPass() returns (written: nat)
      requires Inv(View()) && online && !stopWait && workList != [] && avail > 0
      modifies this`pidx, this`avail, this`workList, this`pendList, this`workReqPend, this`h, desc
      ensures Enabled(old(View()), PassStep) && View() == Apply(old(View()), PassStep)
      ensures Inv(View()) && written > 0 && conf == old(conf)
      ensures |h.log| == |old(h).log| + written && h.published == old(h).published
    {
      hide Inv, Cut, CutEnd, StoreAll, Mark;
      PassReady(View());
      written := PostFirst();
    }

    /** `descq_mm_n_h2c_cmpl_status`: the whole completion path is one `Complete` step. */
    method CmplStatus()
      requires Shape(View())
      modifies this`cidx, this`avail, this`credit, this`pendList, this`callbacks, this`pendListEmpty,
               this`doorbell, this`descPend, this`h
      ensures View() == Complete(old(View()))
      ensures descPend == old(descPend) || descPend == 0
    {
      TakeCredits();
    }

    /** `descq_poll_mm_n_h2c_cmpl_status`: look at the hardware, in the polling modes only. */
    method Poll() returns (ghost steps: seq<Step>)
      requires online && Inv(View())
      modifies this`cidx, this`avail, this`credit, this`pendList, this`callbacks, this`pendListEmpty,
               this`doorbell, this`descPend, this`h, this`statusCidx, this`procReqRunning
      ensures CanRun(old(View()), steps) && View() == Run(old(View()), steps) && Inv(View())
      ensures Polls(steps) && (if pollMode then |steps| == 2 && steps[1] == PollStep else |steps| == 1)
      ensures h.log == old(h.log) && h.published == old(h.published)
      ensures descPend == old(descPend) || descPend == 0
    {
      hide Inv, Running, CallsOk, Complete, HwMove;
      ghost var s := View();
      ghost var k := HardwareStep();
      steps := [HwStep(k)];
      assert steps[1..] == [];
      RunKeepsInv(s, steps);
      if pollMode {
        procReqRunning := true;
        OnlineShape(View());
        ghost var t := View();
        CmplStatus();
        RunSnoc(s, steps, PollStep);
        steps := steps + [PollStep];
        RunKeepsInv(s, steps);
      }
      PollsKeepLog(s, steps);
    }

    /** Look at the hardware once more when the ring is full. */
    method MakeRoom() returns (ghost steps: seq<Step>)
      requires online && Inv(View())
      modifies this`cidx, this`avail, this`credit, this`pendList, this`callbacks, this`pendListEmpty,
               this`doorbell, this`descPend, this`h, this`statusCidx, this`procReqRunning
      ensures CanRun(old(View()), steps) && View() == Run(old(View()), steps) && Inv(View()) && Polls(steps)
      ensures descPend == old(descPend) || descPend == 0
      ensures h.log == old(h.log) && h.published == old(h.published)
      ensures if old(avail) > 0 then steps == [] && avail == old(avail) else pollMode ==> LooksLast(steps)
    {
      hide Inv;
      steps := [];
      if avail == 0 {
        steps := Poll();
      }
    }

    /** One turn of the request loop, or the finding that the ring stays full. */
    method Turn() returns (full: bool, written: nat, ghost steps: seq<Step>)
      requires online && !stopWait && Inv(View()) && descPend == 0 && workList != []
      modifies this`pidx, this`cidx, this`avail, this`credit, this`workList, this`pendList, this`callbacks,
               this`pendListEmpty, this`workReqPend, this`doorbell, this`descPend, this`h, this`statusCidx,
               this`procReqRunning, desc
      ensures CanRun(old(View()), steps) && View() == Run(old(View()), steps) && PollsAndPasses(steps)
      ensures Inv(View()) && descPend == 0
      ensures |h.log| == |old(h).log| + written && h.published == old(h).published
      ensures full ==> avail == 0 && (pollMode ==> LooksLast(steps))
      ensures !full ==> written > 0
    {
      hide Inv, Run, CanRun, Apply, Enabled;
      ghost var s := View();
      steps := MakeRoom();
      PollsKeepLog(s, steps);
      full, written := avail == 0, 0;
      if !full {
        written := PostPass();
        RunSnoc(s, steps, PassStep);
        steps := steps + [PassStep];
      }
    }

    /** Nothing is posted further than a ring beyond what was published. */
    lemma LogRoom()
      requires Inv(View()) && online
      ensures |h.log| < h.published + conf.rngsz
    {
    }

    /** The request loop of `descq_mm_proc_request` and `descq_proc_st_h2c_request`. It stops
        only when nothing waits or the ring stays full after another look at the hardware. */
    method PostLoop() returns (written: nat, ghost steps: seq<Step>)
      requires online && !stopWait && Inv(View()) && descPend == 0
      modifies this`pidx, this`cidx, this`avail, this`credit, this`workList, this`pendList, this`callbacks,
               this`pendListEmpty, this`workReqPend, this`doorbell, this`descPend, this`h, this`statusCidx,
               this`procReqRunning, desc
      ensures CanRun(old(View()), steps) && View() == Run(old(View()), steps) && PollsAndPasses(steps)
      ensures Inv(View()) && descPend == 0 && (workList == [] || avail == 0)
      ensures pollMode ==> |steps| >= 2 && steps[1] == PollStep && (workList != [] ==> LooksLast(steps))
      ensures |h.log| == |old(h).log| + written && h.published == old(h).published
    {
      hide Inv, Run, CanRun, View;
      ghost var s := View();
      steps := Poll();
      var full := false;
      written := 0;
      LogRoom();
      while workList != [] && !full
        invariant Inv(View()) && descPend == 0 && (full ==> avail == 0)
        invariant pollMode ==> |steps| >= 2 && steps[1] == PollStep && (full ==> LooksLast(steps))
        invariant CanRun(s, steps) && View() == Run(s, steps) && PollsAndPasses(steps)
        invariant |h.log| == |old(h).log| + written && h.published == old(h).published
        invariant |h.log| < h.published + conf.rngsz
        decreases !full, h.published + conf.rngsz - |h.log|
      {
        ghost var more;
        var cnt;
        full, cnt, more := Turn();
        LogRoom();
        written := written + cnt;
        RunConcat(s, steps, more);
        steps := steps + more;
      }
    }

    /** Tell the device about everything posted so far. */
    method PidxUpdate()
      modifies this`pendListEmpty, this`pidxInfo, this`doorbell, this`h
      ensures View() == Publish(old(View()))
    {
      pendListEmpty := false;
      pidxInfo := pidx;
      doorbell := pidxInfo;
      h := h.(published := |h.log|);
    }

    /** While a stop waits, only completions are served. */
    method StopPoll() returns (ghost steps: seq<Step>)
      requires online && Inv(View())
      modifies this`cidx, this`avail, this`credit, this`pendList, this`callbacks, this`pendListEmpty,
               this`doorbell, this`descPend, this`h, this`statusCidx
      ensures CanRun(old(View()), steps) && View() == Run(old(View()), steps) && Inv(View())
      ensures Polls(steps) && steps != [] && steps[|steps| - 1] == PollStep
      ensures h.log == old(h.log) && h.published == old(h.published)
      ensures descPend == old(descPend) || descPend == 0
    {
      hide Inv, Complete, HwMove;
      ghost var s := View();
      ghost var k := HardwareStep();
      steps := [HwStep(k)];
      assert steps[1..] == [];
      RunKeepsInv(s, steps);
      OnlineShape(View());
      CmplStatus();
      RunSnoc(s, steps, PollStep);
      steps := steps + [PollStep];
      RunKeepsInv(s, steps);
      PollsKeepLog(s, steps);
    }

    /** Doorbell, then one look at the hardware. */
    method Finish() returns (ghost steps: seq<Step>)
      requires online && !stopWait && Inv(View()) && descPend == 0 && !Quiet(View())
      modifies this`cidx, this`avail, this`credit, this`pendList, this`callbacks, this`pendListEmpty, this`pidxInfo,
               this`doorbell, this`descPend, this`h, this`statusCidx, this`procReqRunning
      ensures CanRun(old(View()), steps) && View() == Run(old(View()), steps) && Inv(View()) && Quiet(View())
      ensures steps != [] && steps[0] == PublishStep && Polls(steps[1..]) && descPend == 0
      ensures pollMode ==> LooksLast(steps)
    {
      hide Inv, Run, CanRun;
      ghost var s := View();
      ApplyKeepsInv(s, PublishStep);
      PidxUpdate();
      RunNone(s);
      RunSnoc(s, [], PublishStep);
      assert [] + [PublishStep] == [PublishStep];
      ghost var more := Poll();
      RunConcat(s, [PublishStep], more);
      steps := [PublishStep] + more;
    }

    /** `descq_mm_proc_request` and `descq_proc_st_h2c_request`. `body` is what the loop did,
        `tail` the doorbell and the look at the hardware that follows it. */
    method ProcRequest() returns (ghost body: seq<Step>, ghost tail: seq<Step>)
      requires Core()
      modifies this, desc
      ensures Core() && conf == old(conf) && desc == old(desc)
      ensures CanRun(old(View()), body) && CanRun(Run(old(View()), body), tail)
      ensures View() == Run(Run(old(View()), body), tail)
      ensures old(stopWait) ==> Polls(body) && body != [] && body[|body| - 1] == PollStep && tail == []
      ensures !old(stopWait) && (!old(online) || old(procReqRunning)) ==> body == [] && tail == []
      ensures !old(stopWait) && old(online) && !old(procReqRunning) ==> Serviced(pollMode, old(View()), body, tail)
      ensures !old(procReqRunning) ==> !procReqRunning
    {
      hide Run, CanRun, Running, CallsOk, Complete, HwMove;
      body, tail := [], [];
      RunNone(View());
      if stopWait {
        body := StopPoll();
        RunNone(View());
      } else if online && !procReqRunning {
        body, tail := Serve();
      }
    }

    /** The rest of the request path, with the queue online and no stop waiting. */
    method Serve() returns (ghost body: seq<Step>, ghost tail: seq<Step>)
      requires Core() && online && !stopWait
      modifies this`pidx, this`cidx, this`avail, this`credit, this`workList, this`pendList, this`callbacks,
               this`pendListEmpty, this`workReqPend, this`pidxInfo, this`doorbell, this`descPend, this`h,
               this`statusCidx, this`procReqRunning, desc
      ensures Core() && !procReqRunning
      ensures CanRun(old(View()), body) && CanRun(Run(old(View()), body), tail)
      ensures View() == Run(Run(old(View()), body), tail)
      ensures Serviced(pollMode, old(View()), body, tail)
    {
      hide Run, CanRun, Inv;
      tail := [];
      var written;
      written, body := PostLoop();
      RunNone(View());
      if written != 0 {
        tail := Finish();
      }
      procReqRunning := false;
    }

    /** `qdma_request_submit`, for a request with a completion callback. `write` is its direction
        and `mapped` the outcome of mapping its pages. */
    method Submit(req: Request, write: bool, mapped: int) returns (rv: int, ghost body: seq<Step>, ghost tail: seq<Step>)
      requires Valid() && WellFormed(req)
      modifies this, desc
      ensures Valid()
      ensures rv == if write == old(conf).c2h then -EINVAL else if mapped < 0 then mapped else if old(online) then 0 else -EINVAL
      ensures rv != 0 ==> View() == old(View())
      ensures rv == 0 ==>
        var s := Accept(old(View()), req);
        && CanRun(s, body) && CanRun(Run(s, body), tail) && View() == Run(Run(s, body), tail)
        && (!old(stopWait) ==> Serviced(pollMode, s, body, tail))
    {
      hide Run, CanRun, Running, CallsOk;
      RunNone(View());
      if (write && conf.c2h) || (!write && !conf.c2h) {
        return -EINVAL, [], [];
      }
      if mapped < 0 {
        return mapped, [], [];
      }
      if !online {
        return -EINVAL, [], [];
      }
      AcceptKeepsInv(View(), req);
      workList := workList + [Entry(req, 0, 0)];
      workReqPend := (workReqPend + 1) % Ring.U32;
      h := h.(accepted := h.accepted + [req]);
      rv := 0;
      body, tail := ProcRequest();
    }

    /** `qdma_batch_request_submit`: the requests are listed without counting them. Direction and
        callback are looked at in the first request only. */
    method SubmitBatch(reqs: seq<Request>, write: bool, callback: bool)
        returns (rv: int, ghost body: seq<Step>, ghost tail: seq<Step>)
      requires Valid() && AllWellFormed(reqs)
      modifies this, desc
      ensures Valid()
      ensures rv == if write != old(conf).c2h && callback && old(online) then 0 else -EINVAL
      ensures rv != 0 ==> View() == old(View())
      ensures rv == 0 ==>
        var s := AcceptBatch(old(View()), reqs);
        && CanRun(s, body) && CanRun(Run(s, body), tail) && View() == Run(Run(s, body), tail)
        && (!old(stopWait) ==> Serviced(pollMode, s, body, tail))
    {
      hide Run, CanRun, Running, CallsOk;
      RunNone(View());
      if (write && conf.c2h) || (!write && !conf.c2h) || !callback {
        return -EINVAL, [], [];
      }
      if !online {
        return -EINVAL, [], [];
      }
      AcceptBatchKeepsInv(View(), reqs);
      var added := seq(|reqs|, i requires 0 <= i < |reqs| => Entry(reqs[i], 0, 0));
      assert added == Fresh(reqs);
      workList := workList + added;
      h := h.(accepted := h.accepted + reqs, batched := h.batched + |reqs|);
      rv := 0;
      body, tail := ProcRequest();
    }

    /** `qdma_descq_service_cmpl_update`. In the polling modes it is one more call of the request
        path. In the interrupt modes completions come first, and more posting follows only when
        the queue length counter or the doorbell backlog is not zero. */
    method ServiceCompletion() returns (resumed: bool, ghost polls: seq<Step>, ghost body: seq<Step>, ghost tail: seq<Step>)
      requires Valid() && (online || pollMode)
      modifies this, desc
      ensures Valid()
      ensures CanRun(old(View()), polls) && Polls(polls)
      ensures if pollMode then polls == [] else polls != [] && polls[|polls| - 1] == PollStep
      ensures var s := Run(old(View()), polls);
        && CanRun(s, body) && CanRun(Run(s, body), tail) && View() == Run(Run(s, body), tail)
        && resumed == (pollMode || s.workReqPend != 0)
        && (!resumed ==> body == [] && tail == [])
        && (resumed && s.online && !s.stopWait ==> Serviced(pollMode, s, body, tail))
    {
      hide Run, CanRun, Running, CallsOk, Complete, HwMove;
      ghost var s := View();
      polls := [];
      RunNone(s);
      if pollMode {
        resumed := true;
        if !procReqRunning {
          body, tail := ProcRequest();
        }
        return;
      }
      polls := StopPoll();
      OnlineStays(s, polls);
      RunNone(View());
      body, tail := [], [];
      resumed := workReqPend != 0 || descPend != 0;
      if resumed {
        body, tail := ProcRequest();
      }
    }

    /** First half of `qdma_queue_stop`: no more posting; tell the caller whether to wait. */
    method StopRequest() returns (rv: int, drained: bool)
      requires Valid()
      modifies this`stopWait
      ensures Valid() && rv == (if online then 0 else -EINVAL)
      ensures View() == if online then Apply(old(View()), StopStep) else old(View())
      ensures online ==> Enabled(old(View()), StopStep) && drained == pendListEmpty
    {
      hide Running, CallsOk;
      if !online {
        return -EINVAL, false;
      }
      StopKeepsInv(View());
      stopWait := true;
      rv, drained := 0, pendListEmpty;
    }

    /** Second half of `qdma_queue_stop`, after the wait is over or has timed out. */
    method StopFinish()
      requires Valid() && online && stopWait
      modifies this`online, this`stopWait, this`pendList, this`workList, this`callbacks, this`workReqPend
      ensures Valid() && !online
      ensures Enabled(old(View()), FlushStep) && View() == Apply(old(View()), FlushStep)
    {
      hide Running;
      FlushKeepsInv(View());
      online := false;
      stopWait := false;
      AbortAll();
    }

    /** Call back every listed request with -ENXIO, the pending ones first. */
    method AbortAll()
      requires workReqPend < Ring.U32
      modifies this`pendList, this`workList, this`callbacks, this`workReqPend
      ensures pendList == [] && workList == []
      ensures callbacks == old(callbacks) + Aborted(old(pendList)) + Aborted(old(workList))
      ensures workReqPend == Decr32(old(workReqPend), |old(workList)|)
    {
      ghost var n := 0;
      while pendList != []
        invariant n <= |old(pendList)| && pendList == old(pendList)[n..]
        invariant workList == old(workList) && workReqPend == old(workReqPend)
        invariant callbacks == old(callbacks) + Aborted(old(pendList)[..n])
        decreases |pendList|
      {
        callbacks := callbacks + [Callback(pendList[0].req, 0, -ENXIO)];
        pendList := pendList[1..];
        assert old(pendList)[..n + 1] == old(pendList)[..n] + [old(pendList)[n]];
        n := n + 1;
      }
      assert old(pendList)[..n] == old(pendList);
      ghost var m := 0;
      while workList != []
        invariant m <= |old(workList)| && workList == old(workList)[m..] && pendList == []
        invariant callbacks == old(callbacks) + Aborted(old(pendList)) + Aborted(old(workList)[..m])
        invariant m == 0 ==> workReqPend == old(workReqPend)
        invariant m > 0 ==> workReqPend == Decr32(old(workReqPend), m)
        decreases |workList|
      {
        callbacks := callbacks + [Callback(workList[0].req, 0, -ENXIO)];
        workList := workList[1..];
        workReqPend := Decr32(workReqPend, 1);
        assert old(workList)[..m + 1] == old(workList)[..m] + [old(workList)[m]];
        CounterStep(old(workReqPend) - m, -1);
        m := m + 1;
      }
      assert old(workList)[..m] == old(workList);
    }

    /** The test of the aperture at start. */
    method ApertureOk(size: nat) returns (ok: bool)
      ensures ok <==> size == 0 || Bits.IsPow2(size)
    {
      hide Bits.And;
      if size == 0 {
        return true;
      }
      Bits.PowerOfTwoTest(size);
      ok := Bits.And(size, size - 1) == 0;
    }

    /** `qdma_queue_start`: engine mode and aperture are checked, all indices reset, the ring
        allocated. `engine` says that the descriptor engine allows the queue, `setup` is the
        outcome of the allocation and of programming the contexts; when it is an error the queue
        stays offline. */
    method Start(c: Conf, engine: bool, setup: int) returns (rv: int)
      requires Valid() && c.blenMax > 0 && c.rngsz > 0 && (c.st ==> !c.c2h) && setup <= 0
      modifies this
      ensures Valid()
      ensures rv == if old(online) || !engine then -EINVAL
                    else if c.apertureSize != 0 && !Bits.IsPow2(c.apertureSize) then -ERANGE
                    else setup
      ensures var refused := old(online) || !engine || (c.apertureSize != 0 && !Bits.IsPow2(c.apertureSize));
        if refused then View() == old(View())
        else Enabled(old(View()), StartStep(c, setup == 0)) && View() == Apply(old(View()), StartStep(c, setup == 0))
    {
      hide Inv, Bits.IsPow2;
      if online {
        return -EINVAL;
      }
      if !engine {
        return -EINVAL;
      }
      var accepted := ApertureOk(c.apertureSize);
      if !accepted {
        return -ERANGE;
      }
      RestartKeepsInv(View(), c);
      Reinitialise(c, setup == 0);
      rv := setup;
    }

    /** The part of a start that changes the queue. */
    method Reinitialise(c: Conf, ok: bool)
      requires c.Valid() && !online
      modifies this
      ensures View() == Apply(old(View()), StartStep(c, ok))
      ensures procReqRunning == old(procReqRunning) && descPend == old(descPend)
    {
      hide Inv, Bits.IsPow2;
      Reset(c);
      online := ok;
    }

    /** `qdma_descq_config_complete` and the allocation of a zeroed ring. */
    method Reset(c: Conf)
      requires c.rngsz > 0
      modifies this`conf, this`desc, this`pidx, this`cidx, this`avail, this`credit, this`pendListEmpty,
               this`workReqPend, this`doorbell, this`statusCidx, this`h
      ensures conf == c && fresh(desc) && desc[..] == seq(c.rngsz, _ => NO_DESC)
      ensures pidx == cidx == credit == workReqPend == doorbell == statusCidx == 0
      ensures avail == c.rngsz - 1 && pendListEmpty
      ensures h == History([], 0, 0, 0, [], old(h).accepted, |callbacks|, 0)
    {
      conf := c;
      ResetIndices();
      desc := new Desc[c.rngsz](_ => NO_DESC);
      h := History([], 0, 0, 0, [], h.accepted, |callbacks|, 0);
    }

    method ResetIndices()
      requires conf.rngsz > 0
      modifies this`pidx, this`cidx, this`avail, this`credit, this`pendListEmpty, this`workReqPend,
               this`doorbell, this`statusCidx
      ensures pidx == cidx == credit == workReqPend == doorbell == statusCidx == 0
      ensures avail == conf.rngsz - 1 && pendListEmpty
    {
      avail := conf.rngsz - 1;
      pendListEmpty := true;
      pidx, cidx, credit, workReqPend := 0, 0, 0, 0;
      doorbell, statusCidx := 0, 0;
    }
  }
}
