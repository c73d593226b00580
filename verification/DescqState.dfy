/** The descriptor queue as a state machine: its state, its atomic steps and their invariant.

    The fields of a state are the driver's own, up to `callbacks`; `h` is history that only
    the invariant needs. */
module DescqState {
  import opened Transfer
  import opened Errno
  import Ring


  /** A request on one of the two lists: bytes posted so far, descriptors not yet credited. */
  datatype Entry = Entry(req: Request, offset: nat, descNr: nat)

  /** One call of `fp_done`. */
  datatype Callback = Callback(req: Request, bytes: nat, status: int)

  /** History since the queue was last started, except `accepted`, which covers all time:
      every descriptor posted; how many of them the software has seen consumed, the doorbell
      has published and the device has processed; the requests completed; where in the list
      of callbacks this run began; and how many requests came in batches. */
  datatype History = History(
    log: seq<Desc>,
    consumed: nat,
    published: nat,
    hwDone: nat,
    finished: seq<Request>,
    accepted: seq<Request>,
    epoch: nat,
    batched: nat)

  datatype St = St(
    conf: Conf,
    online: bool,
    stopWait: bool,
    ring: seq<Desc>,
    pidx: nat,
    cidx: nat,
    avail: nat,
    credit: nat,
    pendListEmpty: bool,
    workReqPend: nat,
    pidxInfo: nat,
    doorbell: nat,
    statusCidx: nat,
    work: seq<Entry>,
    pend: seq<Entry>,
    callbacks: seq<Callback>,
    h: History)

  const NO_DESC: Desc := Desc(0, 0, 0, false, false, false)

  /** A queue that was never started. */
  function Initial(): St
  {
    St(Conf(false, false, 0, 1, 1), false, false, [NO_DESC], 0, 0, 0, 0, false, 0, 0, 0, 0,
       [], [], [], History([], 0, 0, 0, [], [], 0, 0))
  }

  // ---------------------------------------------------------------- steps

  /** Entries retired by `credit` descriptors: how many, what stays, credit left over. */
  function Drain(pend: seq<Entry>, credit: nat): (r: (nat, seq<Entry>, nat))
    ensures r.0 <= |pend|
  {
    if pend == [] || credit == 0 then (0, pend, credit)
    else if credit >= pend[0].descNr then
      var (n, rest, left) := Drain(pend[1..], credit - pend[0].descNr);
      (n + 1, rest, left)
    else (0, [pend[0].(descNr := pend[0].descNr - credit)] + pend[1..], 0)
  }

  function DoneCall(e: Entry): Callback
  {
    Callback(e.req, e.offset, if e.offset != e.req.count then -EINVAL else 0)
  }

  function DoneCalls(es: seq<Entry>): (r: seq<Callback>)
    ensures |r| == |es|
  {
    seq(|es|, i requires 0 <= i < |es| => DoneCall(es[i]))
  }

  function Reqs(es: seq<Entry>): (r: seq<Request>)
    ensures |r| == |es|
  {
    seq(|es|, i requires 0 <= i < |es| => es[i].req)
  }

  predicate Shape(s: St)
  {
    s.conf.Valid() && |s.ring| == s.conf.rngsz
    && s.pidx < s.conf.rngsz && s.cidx < s.conf.rngsz && s.statusCidx < s.conf.rngsz
  }

  /** Read the hardware's consumer index, turn it into credits, retire requests in order. */
  function Complete(s: St): St
    requires Shape(s)
  {
    if s.pidx == s.cidx || s.statusCidx == s.cidx then s
    else
      var cr := Ring.Delta(s.cidx, s.statusCidx, s.conf.rngsz);
      var avail := s.avail + cr;
      var (n, rest, left) := Drain(s.pend, s.credit + cr);
      s.(cidx := s.statusCidx, avail := avail, credit := left, pend := rest,
         callbacks := s.callbacks + DoneCalls(s.pend[..n]),
         pendListEmpty := if n > 0 then avail == s.conf.rngsz - 1 else s.pendListEmpty,
         doorbell := s.pidxInfo,
         h := s.h.(consumed := s.h.consumed + cr, finished := s.h.finished + Reqs(s.pend[..n])))
  }

  /** Set the packet flags on the first and the last descriptor of a pass. */
  function Mark(conf: Conf, ds: seq<Desc>): (r: seq<Desc>)
    ensures |r| == |ds|
  {
    if conf.st || ds == [] then ds
    else
      var e := ds[|ds| - 1 := ds[|ds| - 1].(eop := true)];
      e[0 := e[0].(sop := true)]
  }

  /** The ring after storing `ds` from slot `p` on. A streaming queue clears the flag of its
      first slot, and after each descriptor that of the next slot, unless that is number 0. */
  function StoreAll(conf: Conf, ring: seq<Desc>, p: nat, ds: seq<Desc>): (r: seq<Desc>)
    requires p < |ring|
    ensures |r| == |ring|
  {
    seq(|ring|, j requires 0 <= j < |ring| =>
      var k := Ring.Delta(p, j, |ring|);
      if k < |ds| then ds[k]
      else if conf.st && k == |ds| && (j != 0 || ds == []) then ring[j].(valid := false)
      else ring[j])
  }

  predicate CanPass(s: St)
  {
    Shape(s) && s.work != [] && 0 < s.avail < s.conf.rngsz
    && WellFormed(s.work[0].req) && s.work[0].offset < s.work[0].req.count
  }

  function Decr32(x: nat, k: nat): nat
  {
    (x - k) % Ring.U32
  }

  /** Post as much of the first waiting request as the ring has room for. */
  function Pass(s: St): St
    requires CanPass(s)
  {
    var e := s.work[0];
    var ds := Cut(s.conf, e.req, e.offset, s.avail);
    var e' := Entry(e.req, CutEnd(s.conf, e.req, e.offset, s.avail), e.descNr + |ds|);
    var full := e'.offset >= e.req.count;
    s.(ring := StoreAll(s.conf, s.ring, s.pidx, Mark(s.conf, ds)),
       pidx := Ring.Incr(s.pidx, |ds|, s.conf.rngsz),
       avail := s.avail - |ds|,
       h := s.h.(log := s.h.log + ds),
       work := if full then s.work[1..] else [e'] + s.work[1..],
       pend := if full then s.pend + [e'] else s.pend,
       workReqPend := if full then Decr32(s.workReqPend, 1) else s.workReqPend)
  }

  /** Write the producer index to the hardware. */
  function Publish(s: St): St
  {
    s.(pendListEmpty := false, pidxInfo := s.pidx, doorbell := s.pidx,
       h := s.h.(published := |s.h.log|))
  }

  function HwMove(s: St, k: nat): St
    requires Shape(s) && k <= s.conf.rngsz
  {
    s.(h := s.h.(hwDone := s.h.hwDone + k), statusCidx := Ring.Incr(s.statusCidx, k, s.conf.rngsz))
  }

  function Fresh(rs: seq<Request>): (r: seq<Entry>)
    ensures |r| == |rs|
  {
    seq(|rs|, i requires 0 <= i < |rs| => Entry(rs[i], 0, 0))
  }

  /** Accept one request; the queue length counter moves with the list. */
  function Accept(s: St, req: Request): St
  {
    if !s.online then s
    else s.(work := s.work + [Entry(req, 0, 0)], workReqPend := (s.workReqPend + 1) % Ring.U32,
            h := s.h.(accepted := s.h.accepted + [req]))
  }

  /** Accept a batch; the queue length counter is left alone. */
  function AcceptBatch(s: St, rs: seq<Request>): St
  {
    if !s.online then s
    else s.(work := s.work + Fresh(rs),
            h := s.h.(accepted := s.h.accepted + rs, batched := s.h.batched + |rs|))
  }

  function Aborted(es: seq<Entry>): (r: seq<Callback>)
    ensures |r| == |es|
  {
    seq(|es|, i requires 0 <= i < |es| => Callback(es[i].req, 0, -ENXIO))
  }

  /** Second half of a stop: every request still listed is called back with an error. */
  function Flush(s: St): St
  {
    s.(online := false, stopWait := false, pend := [], work := [],
       callbacks := s.callbacks + Aborted(s.pend) + Aborted(s.work),
       workReqPend := Decr32(s.workReqPend, |s.work|))
  }

  /** A start resets ring, indices and counters, but not the index last published. */
  function Restart(s: St, conf: Conf): St
    requires conf.Valid()
  {
    St(conf, true, s.stopWait, seq(conf.rngsz, _ => NO_DESC), 0, 0, conf.rngsz - 1, 0, true, 0, s.pidxInfo, 0, 0,
       s.work, s.pend, s.callbacks, History([], 0, 0, 0, [], s.h.accepted, |s.callbacks|, 0))
  }

  datatype Step =
    | HwStep(moved: nat)
    | PollStep
    | PassStep
    | PublishStep
    | SubmitStep(req: Request)
    | BatchStep(reqs: seq<Request>)
    | StopStep
    | FlushStep
    | StartStep(conf: Conf, ok: bool)

  /** No descriptor waits for its doorbell. */
  predicate Quiet(s: St)
  {
    s.h.published == |s.h.log|
  }

  predicate Enabled(s: St, step: Step)
  {
    match step
    case HwStep(k) => s.online && Shape(s) && k <= s.conf.rngsz && s.h.hwDone + k <= s.h.published
    case PollStep => s.online && Shape(s)
    case PassStep => s.online && !s.stopWait && CanPass(s)
    case PublishStep => s.online && !s.stopWait && !Quiet(s)
    case SubmitStep(r) => WellFormed(r)
    case BatchStep(rs) => forall i :: 0 <= i < |rs| ==> WellFormed(rs[i])
    case StopStep => s.online && Quiet(s)
    case FlushStep => s.online && s.stopWait && Quiet(s)
    case StartStep(conf, _) => !s.online && conf.Valid()
  }

  function Apply(s: St, step: Step): St
    requires Enabled(s, step)
  {
    match step
    case HwStep(k) => HwMove(s, k)
    case PollStep => Complete(s)
    case PassStep => Pass(s)
    case PublishStep => Publish(s)
    case SubmitStep(r) => Accept(s, r)
    case BatchStep(rs) => AcceptBatch(s, rs)
    case StopStep => s.(stopWait := true)
    case FlushStep => Flush(s)
    case StartStep(conf, ok) => if ok then Restart(s, conf) else Restart(s, conf).(online := false)
  }

  // ---------------------------------------------------------------- invariant

  /** Full plans of a list of requests, one after the other. */
  function Plans(conf: Conf, rs: seq<Request>): seq<Desc>
    requires conf.Valid() && forall i :: 0 <= i < |rs| ==> WellFormed(rs[i])
  {
    if rs == [] then [] else Plans(conf, rs[..|rs| - 1]) + Plan(conf, rs[|rs| - 1], 0)
  }

  predicate AllWellFormed(rs: seq<Request>)
  {
    forall i :: 0 <= i < |rs| ==> WellFormed(rs[i])
  }

  /** Positions: nothing is overwritten, `avail` is exact, indices are positions modulo the ring. */
  predicate Counters(s: St)
  {
    Shape(s)
    && s.h.consumed <= s.h.hwDone <= s.h.published <= |s.h.log| < s.h.consumed + s.conf.rngsz
    && s.avail == s.conf.rngsz - 1 - (|s.h.log| - s.h.consumed)
    && s.pidx == |s.h.log| % s.conf.rngsz
    && s.cidx == s.h.consumed % s.conf.rngsz
    && s.statusCidx == s.h.hwDone % s.conf.rngsz
    && s.doorbell == s.h.published % s.conf.rngsz
    && (s.h.published > 0 ==> s.pidxInfo == s.doorbell)
  }

  function Strip(d: Desc): Desc
  {
    d.(sop := false, eop := false)
  }

  /** Every descriptor not yet consumed is still in its slot. */
  predicate Window(s: St)
    requires Shape(s)
  {
    forall k :: s.h.consumed <= k < |s.h.log| ==> Strip(s.ring[k % s.conf.rngsz]) == s.h.log[k]
  }

  predicate PendOk(conf: Conf, pend: seq<Entry>)
    requires conf.Valid()
  {
    forall i :: 0 <= i < |pend| ==>
      && WellFormed(pend[i].req)
      && pend[i].offset == pend[i].req.count
      && 0 < pend[i].descNr <= |Plan(conf, pend[i].req, 0)|
      && (i > 0 ==> pend[i].descNr == |Plan(conf, pend[i].req, 0)|)
  }

  predicate WorkOk(work: seq<Entry>)
  {
    forall i :: 0 <= i < |work| ==>
      && WellFormed(work[i].req)
      && work[i].offset < work[i].req.count
      && (i > 0 ==> work[i].offset == 0 && work[i].descNr == 0)
  }

  /** The log is the plans of the finished and pending requests, in order, followed by
      the part of the first waiting request that is posted. */
  predicate LogOk(s: St)
    requires s.conf.Valid() && AllWellFormed(s.h.finished) && PendOk(s.conf, s.pend) && WorkOk(s.work)
  {
    var full := Plans(s.conf, s.h.finished + Reqs(s.pend));
    if s.work == [] then s.h.log == full
    else
      var e := s.work[0];
      var part := Cut(s.conf, e.req, 0, e.descNr);
      |part| == e.descNr && e.offset == CutEnd(s.conf, e.req, 0, e.descNr) && s.h.log == full + part
  }

  /** Descriptors accounted for by finished requests, by the first pending one and by credit. */
  function Position(conf: Conf, done: int, pend: seq<Entry>, credit: nat): int
    requires conf.Valid() && PendOk(conf, pend)
  {
    done + credit + if pend == [] then 0 else |Plan(conf, pend[0].req, 0)| - pend[0].descNr
  }

  predicate CreditOk(s: St)
    requires s.conf.Valid() && AllWellFormed(s.h.finished) && PendOk(s.conf, s.pend)
  {
    && s.h.consumed == Position(s.conf, |Plans(s.conf, s.h.finished)|, s.pend, s.credit)
    && (s.pend != [] ==> s.credit < s.pend[0].descNr)
  }

  predicate DrainOk(s: St)
  {
    Quiet(s) ==>
      && (s.pendListEmpty ==> s.h.consumed == |s.h.log| && s.pend == [])
      && (s.h.consumed == |s.h.log| ==> s.pendListEmpty || s.credit > 0)
  }

  predicate Served(c: Callback)
  {
    (c.bytes == c.req.count && c.status == 0) || (c.bytes == 0 && c.status == -ENXIO)
  }

  function Called(cs: seq<Callback>): (r: seq<Request>)
    ensures |r| == |cs|
  {
    seq(|cs|, i requires 0 <= i < |cs| => cs[i].req)
  }

  function Successes(rs: seq<Request>): (r: seq<Callback>)
    ensures |r| == |rs|
  {
    seq(|rs|, i requires 0 <= i < |rs| => Callback(rs[i], rs[i].count, 0))
  }

  /** Every accepted request is called back once, or waits on exactly one list, in order. */
  predicate CallsOk(s: St)
  {
    && s.h.accepted == Called(s.callbacks) + Reqs(s.pend) + Reqs(s.work)
    && (forall i :: 0 <= i < |s.callbacks| ==> Served(s.callbacks[i]))
    && s.workReqPend == (|s.work| - s.h.batched) % Ring.U32
    && s.h.epoch <= |s.callbacks|
  }

  predicate Running(s: St)
  {
    && Counters(s)
    && Window(s)
    && AllWellFormed(s.h.finished) && PendOk(s.conf, s.pend) && WorkOk(s.work)
    && LogOk(s)
    && (forall i :: 0 <= i < |s.h.finished| ==> s.conf.Moves(s.h.finished[i]))
    && CreditOk(s)
    && DrainOk(s)
    && s.h.epoch <= |s.callbacks|
    && s.callbacks[s.h.epoch..] == Successes(s.h.finished)
    && (s.stopWait ==> Quiet(s))
  }

  predicate Inv(s: St)
  {
    && CallsOk(s)
    && if s.online then Running(s) else s.work == [] && s.pend == [] && !s.stopWait
  }
}
