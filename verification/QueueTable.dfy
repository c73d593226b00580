/** The life cycle of the queues of one function and the hardware contexts they program.

    A queue is named by its type and index. Software, hardware and credit contexts are keyed
    by type and hardware queue id; prefetch and completion contexts by the id alone, so two
    queues at one index could meet there. */
module QueueTable {
  import opened Errno
  import Bits
  import opened Lists


  datatype Option<T> = None | Some(value: T)

  datatype QType = H2C | C2H | CMPT

  datatype State = Disabled | Enabled | Online

  datatype Slot = Slot(state: State, st: bool, aperture: nat)

  datatype Queue = Queue(ty: QType, idx: nat)

  datatype CtxKey = Sw(ty: QType, qid: nat) | Hw(ty: QType, qid: nat) | Credit(ty: QType, qid: nat)
                  | Prefetch(qid: nat) | Completion(qid: nat)

  /** What the hardware holds under a key: absent when cleared. */
  datatype Ctx = Ctx(valid: bool, writer: Queue)

  datatype Counters = Counters(h2c: nat, c2h: nat, cmpt: nat)

  datatype Caps = Caps(st: bool, mm: bool, mmCmpt: bool)

  datatype Table = Table(qbase: nat, qmax: nat, caps: Caps, h2c: seq<Slot>, c2h: seq<Slot>, cmpt: seq<Slot>,
                         ctx: map<CtxKey, Ctx>, active: Counters)
  {
    function Slots(ty: QType): seq<Slot>
    {
      match ty case H2C => h2c case C2H => c2h case CMPT => cmpt
    }

    function With(q: Queue, s: Slot): Table
      requires q.idx < |Slots(q.ty)|
    {
      match q.ty
      case H2C => this.(h2c := h2c[q.idx := s])
      case C2H => this.(c2h := c2h[q.idx := s])
      case CMPT => this.(cmpt := cmpt[q.idx := s])
    }

    predicate Sized()
    {
      |h2c| == |c2h| == |cmpt| == qmax
    }

    function At(q: Queue): Slot
      requires Sized() && q.idx < qmax
    {
      Slots(q.ty)[q.idx]
    }

    predicate Present(q: Queue)
      requires Sized()
    {
      q.idx < qmax && At(q).state != Disabled
    }

    function Owned(q: Queue): set<CtxKey>
      requires Sized() && q.idx < qmax
    {
      Cleared(q.ty, qbase + q.idx, At(q).st)
    }

    function Programmed(q: Queue): set<CtxKey>
      requires Sized() && q.idx < qmax
    {
      Written(q.ty, qbase + q.idx, At(q).st)
    }

    /** Queues present at one index agree on the mode; a completion queue is in MM mode. */
    ghost predicate Agree()
      requires Sized()
    {
      && (forall p: Queue, q: Queue | Present(p) && Present(q) && p.idx == q.idx :: At(p).st == At(q).st)
      && (forall p: Queue | Present(p) && p.ty == CMPT :: !At(p).st)
    }

    /** The counters are the numbers of queues in use; a stream C2H queue uses a completion
        ring as well. */
    ghost predicate Counted()
      requires Sized()
    {
      && active.h2c == InUse(h2c, false) && active.c2h == InUse(c2h, false)
      && active.cmpt == InUse(cmpt, false) + InUse(c2h, true)
    }

    /** Every context an online queue has programmed is valid and its own. */
    ghost predicate Contexts()
      requires Sized()
    {
      forall q: Queue, k | q.idx < qmax && At(q).state == Online && k in Programmed(q) ::
        k in ctx && ctx[k] == Ctx(true, q)
    }

    /** A valid context whose writer is not online, or no longer programs it. */
    predicate Orphan(k: CtxKey)
      requires Sized()
    {
      k in ctx && ctx[k].valid &&
      var w := ctx[k].writer;
      !(w.idx < qmax && At(w).state == Online && k in Programmed(w))
    }

    ghost predicate NoOrphans()
      requires Sized()
    {
      forall k :: !Orphan(k)
    }

    ghost predicate Inv()
    {
      Sized() && Agree() && Counted() && Contexts()
    }
  }

  /** The keys cleared or invalidated for a queue, in the order of the accesses. */
  function AccessOrder(ty: QType, qid: nat, st: bool): (r: seq<CtxKey>)
    ensures |r| <= 5
  {
    (if ty != CMPT then [Sw(ty, qid), Hw(ty, qid), Credit(ty, qid)] else [])
    + (if st && ty == C2H then [Prefetch(qid)] else [])
    + (if (st && ty == C2H) || (!st && ty == CMPT) then [Completion(qid)] else [])
  }

  function Keys(ks: seq<CtxKey>): set<CtxKey>
  {
    set k | k in ks
  }

  function Cleared(ty: QType, qid: nat, st: bool): set<CtxKey>
  {
    Keys(AccessOrder(ty, qid, st))
  }

  function Prefix(ks: seq<CtxKey>, n: nat): seq<CtxKey>
  {
    if n < |ks| then ks[..n] else ks
  }

  /** The accesses made when the one numbered `failAt` fails. */
  function Reached(ks: seq<CtxKey>, failAt: Option<nat>): seq<CtxKey>
  {
    match failAt case None => ks case Some(f) => Prefix(ks, f)
  }

  /** The keys written for a queue, in order. */
  function WriteOrder(ty: QType, qid: nat, st: bool): (r: seq<CtxKey>)
    ensures |r| <= 3
  {
    (if ty != CMPT then [Sw(ty, qid)] else [])
    + (if st && ty == C2H then [Prefetch(qid)] else [])
    + (if (st && ty == C2H) || (!st && ty == CMPT) then [Completion(qid)] else [])
  }

  function Written(ty: QType, qid: nat, st: bool): set<CtxKey>
  {
    Keys(WriteOrder(ty, qid, st))
  }

  function InUse(slots: seq<Slot>, onlyStream: bool): (r: nat)
    ensures r <= |slots|
  {
    if slots == [] then 0
    else InUse(slots[1..], onlyStream) + (if Counts(slots[0], onlyStream) then 1 else 0)
  }

  predicate Counts(s: Slot, onlyStream: bool)
  {
    s.state != Disabled && (onlyStream ==> s.st)
  }

  lemma {:induction false} InUseUpdate(slots: seq<Slot>, i: nat, s: Slot, only: bool)
    requires i < |slots|
    ensures InUse(slots[i := s], only) + (if Counts(slots[i], only) then 1 else 0)
         == InUse(slots, only) + (if Counts(s, only) then 1 else 0)
  {
    if i > 0 {
      InUseUpdate(slots[1..], i - 1, s, only);
      assert slots[i := s][1..] == slots[1..][i - 1 := s];
    } else {
      assert slots[0 := s][1..] == slots[1..];
    }
  }

  /** Two tables that never count at the same index stay within one table's size, and below it
      when some index counts in neither. */
  lemma {:induction false} InUseShared(a: seq<Slot>, onlyA: bool, b: seq<Slot>, onlyB: bool)
    requires |a| == |b|
    requires forall i | 0 <= i < |a| :: !(Counts(a[i], onlyA) && Counts(b[i], onlyB))
    ensures InUse(a, onlyA) + InUse(b, onlyB) <= |a|
    ensures (exists i :: 0 <= i < |a| && !Counts(a[i], onlyA) && !Counts(b[i], onlyB)) ==>
              InUse(a, onlyA) + InUse(b, onlyB) < |a|
  {
    if a != [] {
      InUseShared(a[1..], onlyA, b[1..], onlyB);
      if i :| 0 < i < |a| && !Counts(a[i], onlyA) && !Counts(b[i], onlyB) {
        assert a[1..][i - 1] == a[i] && b[1..][i - 1] == b[i];
      }
    }
  }

  lemma {:induction false} InUseFree(a: seq<Slot>, i: nat)
    requires i < |a| && !Counts(a[i], false)
    ensures InUse(a, false) < |a|
  {
    if i > 0 {
      InUseFree(a[1..], i - 1);
    }
  }

  lemma {:induction false} InUseSome(a: seq<Slot>, only: bool, i: nat)
    requires i < |a| && Counts(a[i], only)
    ensures InUse(a, only) > 0
  {
    if i > 0 {
      InUseSome(a[1..], only, i - 1);
    }
  }

  // ---- admission ----

  function Bit(ty: QType): bv8
  {
    match ty case H2C => 1 case C2H => 2 case CMPT => 4
  }

  const MODE_BIT: bv8 := 8

  /** The mask of what is in use at one index. */
  function RefMask(h: Slot, c: Slot, m: Slot): bv8
  {
    (if h.state != Disabled then Bit(H2C) | (if h.st then MODE_BIT else 0) else 0)
    | (if c.state != Disabled then Bit(C2H) | (if c.st then MODE_BIT else 0) else 0)
    | (if m.state != Disabled then Bit(CMPT) else 0)
  }

  /** `is_usable_queue`, on its masks. */
  function Usable(h: Slot, c: Slot, m: Slot, ty: QType, st: bool): bool
  {
    var ref := RefMask(h, c, m);
    if ty == CMPT then
      ref & (Bit(CMPT) | MODE_BIT) == 0
    else
      var other := if ty == H2C then Bit(C2H) else Bit(H2C);
      var check := other | MODE_BIT;
      if st && ref & Bit(CMPT) != 0 then false
      else if st && ref & other != 0 && ref & check == other then false
      else if !st && ref & other != 0 && ref & check == check then false
      else ref & Bit(ty) == 0
  }

  /** The masks admit a queue exactly when its own slot is free and everything present at the
      index has its mode. */
  lemma Admission(t: Table, q: Queue, st: bool)
    requires t.Sized() && t.Agree() && q.idx < t.qmax && (q.ty == CMPT ==> !st)
    ensures Usable(t.h2c[q.idx], t.c2h[q.idx], t.cmpt[q.idx], q.ty, st) <==>
            t.At(q).state == Disabled && (forall p | t.Present(p) && p.idx == q.idx :: t.At(p).st == st)
  {
    var h, c, m := t.h2c[q.idx], t.c2h[q.idx], t.cmpt[q.idx];
    MaskMeaning(h, c, m, q.ty, st);
    assert t.At(Queue(H2C, q.idx)) == h && t.At(Queue(C2H, q.idx)) == c && t.At(Queue(CMPT, q.idx)) == m;
    assert forall p | t.Present(p) && p.idx == q.idx ::
        p == Queue(H2C, q.idx) || p == Queue(C2H, q.idx) || p == Queue(CMPT, q.idx);
    assert m.state != Disabled ==> !m.st;
  }

  lemma MaskMeaning(h: Slot, c: Slot, m: Slot, ty: QType, st: bool)
    requires ty == CMPT ==> !st
    ensures Usable(h, c, m, ty, st) <==>
      match ty
      case H2C => h.state == Disabled && (m.state != Disabled ==> !st) && (c.state != Disabled ==> c.st == st)
      case C2H => c.state == Disabled && (m.state != Disabled ==> !st) && (h.state != Disabled ==> h.st == st)
      case CMPT => m.state == Disabled && (h.state != Disabled ==> !h.st) && (c.state != Disabled ==> !c.st)
  {
  }

  /** Without that check, a stream C2H queue and an MM completion queue at one index would
      write the same completion context. */
  lemma CompletionIsShared(qid: nat)
    ensures Written(C2H, qid, true) * Written(CMPT, qid, false) == {Completion(qid)}
  {
  }

  /** The keys of two different queues in use never meet. */
  lemma OwnedDisjoint(t: Table, p: Queue, q: Queue)
    requires t.Sized() && t.Agree() && t.Present(p) && t.Present(q) && p != q
    ensures t.Owned(p) !! t.Owned(q)
  {
  }

  // ---- handles ----

  /** The handle given to the user of a queue. */
  function Handle(q: Queue, qmax: nat): nat
  {
    match q.ty case H2C => q.idx case C2H => q.idx + qmax case CMPT => q.idx + 2 * qmax
  }

  /** `qdma_device_get_descq_by_id`: the slot a handle stands for. */
  function FromHandle(id: nat, qmax: nat): Option<Queue>
  {
    if id < qmax then Some(Queue(H2C, id))
    else if id - qmax < qmax then Some(Queue(C2H, id - qmax))
    else if id - qmax - qmax < qmax then Some(Queue(CMPT, id - qmax - qmax))
    else None
  }

  lemma HandleRoundTrip(id: nat, qmax: nat, q: Queue)
    ensures FromHandle(id, qmax) == Some(q) <==> q.idx < qmax && Handle(q, qmax) == id
    ensures Handle(Queue(H2C, id), qmax) == id && Handle(Queue(C2H, id), qmax) == id + qmax && Handle(Queue(CMPT, id), qmax) == id + 2 * qmax
  {
  }

  // ---- operations ----

  /** How a start goes: refused for the mode of the descriptor engine, failed before the hardware
      is reached, or failed there after `cleared` accesses of the clearing and `written` writes,
      the clean-up after it reaching `cleaned` accesses. */
  datatype Fault = NoFault | Refused | SetupFault(err: nat)
                 | ProgramFault(err: nat, cleared: nat, written: nat, cleaned: nat)

  /** `valid` says that the configuration passes validation, `legacy` that the legacy interrupt,
      if it is used, takes the queue. `failAt` is the context access that fails, if one does. */
  datatype Op = AddOp(q: Queue, st: bool, aperture: nat, valid: bool, legacy: bool)
              | ConfigOp(id: nat, aperture: nat, valid: bool)
              | StartOp(id: nat, fault: Fault) | StopOp(id: nat, failAt: Option<nat>) | RemoveOp(id: nat)

  datatype Outcome = Outcome(table: Table, rc: int)

  function Active(a: Counters, ty: QType): nat
  {
    match ty case H2C => a.h2c case C2H => a.c2h case CMPT => a.cmpt
  }

  /** The checks of `qdma_queue_add`, in its order; 0 admits the queue. */
  function AddError(t: Table, q: Queue, st: bool, valid: bool, legacy: bool): int
    requires t.Sized()
  {
    if st && q.ty == CMPT then -EINVAL
    else if q.ty == CMPT && !t.caps.mmCmpt then -EINVAL
    else if (st && !t.caps.st) || (!st && !t.caps.mm) then -EINVAL
    else if !valid then -EINVAL
    else if q.idx >= t.qmax then -EINVAL
    else if Active(t.active, q.ty) >= t.qmax then -EIO
    else if !Usable(t.h2c[q.idx], t.c2h[q.idx], t.cmpt[q.idx], q.ty, st) then -EPERM
    else if !legacy then -EINVAL
    else 0
  }

  function Increment(a: Counters, ty: QType): Counters
  {
    match ty
    case H2C => a.(h2c := a.h2c + 1)
    case C2H => a.(c2h := a.c2h + 1)
    case CMPT => a.(cmpt := a.cmpt + 1)
  }

  function Decrement(a: Counters, ty: QType): Counters
  {
    match ty
    case H2C => a.(h2c := if a.h2c > 0 then a.h2c - 1 else 0)
    case C2H => a.(c2h := if a.c2h > 0 then a.c2h - 1 else 0)
    case CMPT => a.(cmpt := if a.cmpt > 0 then a.cmpt - 1 else 0)
  }

  function Add(t: Table, q: Queue, st: bool, aperture: nat): Table
    requires t.Sized() && q.idx < t.qmax
  {
    var one := Increment(t.active, q.ty);
    t.With(q, Slot(Enabled, st, aperture)).(active := if st && q.ty == C2H then Increment(one, CMPT) else one)
  }

  function Remove(t: Table, q: Queue): Table
    requires t.Sized() && q.idx < t.qmax
  {
    var s := t.At(q);
    var one := Decrement(t.active, q.ty);
    t.With(q, s.(state := Disabled)).(active := if s.st && q.ty == C2H then Decrement(one, CMPT) else one)
  }

  function Invalidate(ctx: map<CtxKey, Ctx>, keys: set<CtxKey>): map<CtxKey, Ctx>
  {
    map k | k in ctx :: if k in keys then ctx[k].(valid := false) else ctx[k]
  }

  function Program(ctx: map<CtxKey, Ctx>, clear: set<CtxKey>, write: set<CtxKey>, q: Queue): map<CtxKey, Ctx>
  {
    map k | k in (ctx.Keys - clear) + write :: if k in write then Ctx(true, q) else ctx[k]
  }

  /** The writes made by a start: none before everything is cleared. */
  function Made(order: seq<CtxKey>, writes: seq<CtxKey>, cleared: nat, written: nat): seq<CtxKey>
  {
    if cleared < |order| then [] else Prefix(writes, written)
  }

  /** A start: online on success; after a failure the clean-up clears as far as it gets. */
  function Start(t: Table, q: Queue, fault: Fault): Outcome
    requires t.Sized() && q.idx < t.qmax
  {
    var order, writes := Order(t, q), Writes(t, q);
    match fault
    case Refused => Outcome(t, -EINVAL)
    case SetupFault(err) => Outcome(t, -1 - (err as int))
    case ProgramFault(err, cleared, written, cleaned) =>
      var made := Keys(Made(order, writes, cleared, written));
      Outcome(t.(ctx := Program(t.ctx, Keys(Prefix(order, cleared)), made, q) - Keys(Prefix(order, cleaned))), -1 - (err as int))
    case NoFault =>
      Outcome(t.With(q, t.At(q).(state := Online)).(ctx := Program(t.ctx, t.Owned(q), t.Programmed(q), q)), 0)
  }

  function Order(t: Table, q: Queue): seq<CtxKey>
    requires t.Sized() && q.idx < t.qmax
  {
    AccessOrder(q.ty, t.qbase + q.idx, t.At(q).st)
  }

  function Writes(t: Table, q: Queue): seq<CtxKey>
    requires t.Sized() && q.idx < t.qmax
  {
    WriteOrder(q.ty, t.qbase + q.idx, t.At(q).st)
  }

  /** A stop invalidates contexts as far as it gets; the queue is enabled in any case. */
  function Stop(t: Table, q: Queue, failAt: Option<nat>): Table
    requires t.Sized() && q.idx < t.qmax
  {
    var order := AccessOrder(q.ty, t.qbase + q.idx, t.At(q).st);
    t.With(q, t.At(q).(state := Enabled)).(ctx := Invalidate(t.ctx, Keys(Reached(order, failAt))))
  }

  predicate PowerOfTwo(a: nat)
  {
    a != 0 ==> Bits.And(a, a - 1) == 0
  }

  /** The queue an operation works on, when its handle is good. */
  function Target(t: Table, op: Op): Option<Queue>
  {
    if op.AddOp? then (if op.q.idx < t.qmax then Some(op.q) else None) else FromHandle(op.id, t.qmax)
  }

  function Apply(t: Table, op: Op): Outcome
    requires t.Sized()
  {
    if op.AddOp? then
      var e := AddError(t, op.q, op.st, op.valid, op.legacy);
      if e != 0 then Outcome(t, e) else Outcome(Add(t, op.q, op.st, op.aperture), 0)
    else
      match FromHandle(op.id, t.qmax)
      case None => Outcome(t, -EINVAL)
      case Some(q) =>
        var s := t.At(q);
        match op
        case ConfigOp(_, aperture, valid) =>
          if s.state != Enabled || !valid then Outcome(t, -EINVAL) else Outcome(t.With(q, s.(aperture := aperture)), 0)
        case StartOp(_, fault) =>
          if s.state != Enabled then Outcome(t, -EINVAL)
          else if fault.Refused? then Outcome(t, -EINVAL)
          else if !PowerOfTwo(s.aperture) then Outcome(t, -ERANGE)
          else Start(t, q, fault)
        case StopOp(_, failAt) =>
          if s.state != Online then Outcome(t, -EINVAL) else Outcome(Stop(t, q, failAt), 0)
        case _ =>
          if s.state != Enabled then Outcome(t, -EINVAL) else Outcome(Remove(t, q), 0)
  }

  /** With the counters exact, a queue is added if and only if its mode is supported, its
      configuration and interrupt are accepted, its index is in range, its slot is free and
      everything at the index has its mode. The counter test never turns away a usable queue. */
  lemma AddSucceeds(t: Table, q: Queue, st: bool, valid: bool, legacy: bool)
    requires t.Inv()
    ensures AddError(t, q, st, valid, legacy) == 0 <==>
        && valid && legacy
        && (q.ty == CMPT ==> !st && t.caps.mmCmpt) && (if st then t.caps.st else t.caps.mm)
        && q.idx < t.qmax && t.At(q).state == Disabled
        && (forall p | t.Present(p) && p.idx == q.idx :: t.At(p).st == st)
  {
    if q.idx < t.qmax && !(q.ty == CMPT && st) {
      Admission(t, q, st);
      if Usable(t.h2c[q.idx], t.c2h[q.idx], t.cmpt[q.idx], q.ty, st) {
        RoomToCount(t, q, st);
      }
    }
  }

  /** An admitted queue always finds room in the counters it raises, so the increment that the
      source would not undo never fails. */
  lemma RoomToCount(t: Table, q: Queue, st: bool)
    requires t.Inv() && q.idx < t.qmax && (q.ty == CMPT ==> !st)
    requires Usable(t.h2c[q.idx], t.c2h[q.idx], t.cmpt[q.idx], q.ty, st)
    ensures Active(t.active, q.ty) + 1 <= t.qmax
    ensures st && q.ty == C2H ==> t.active.cmpt + 1 <= t.qmax
  {
    MaskMeaning(t.h2c[q.idx], t.c2h[q.idx], t.cmpt[q.idx], q.ty, st);
    if q.ty != CMPT {
      InUseFree(t.Slots(q.ty), q.idx);
    }
    if q.ty == CMPT || (q.ty == C2H && st) {
      CompletionRings(t);
      assert !Counts(t.cmpt[q.idx], false) && !Counts(t.c2h[q.idx], true);
      InUseShared(t.cmpt, false, t.c2h, true);
    }
  }

  lemma CompletionRings(t: Table)
    requires t.Sized() && t.Agree()
    ensures forall i | 0 <= i < t.qmax :: !(Counts(t.cmpt[i], false) && Counts(t.c2h[i], true))
  {
    forall i | 0 <= i < t.qmax && Counts(t.cmpt[i], false) && Counts(t.c2h[i], true) ensures false {
      assert t.Present(Queue(CMPT, i)) && t.Present(Queue(C2H, i));
    }
  }

  // ---- every operation keeps the invariant ----

  lemma Replaced(t: Table, q: Queue, s: Slot)
    requires t.Sized() && q.idx < t.qmax
    ensures t.With(q, s).Sized() && t.With(q, s).At(q) == s
    ensures forall p: Queue | p.idx < t.qmax && p != q :: t.With(q, s).At(p) == t.At(p)
  {
  }

  /** Agreement survives a step that brings in no queue of another mode. */
  lemma AgreeKept(t: Table, u: Table, q: Queue)
    requires t.Sized() && t.Agree() && u.Sized() && u.qmax == t.qmax && q.idx < t.qmax
    requires forall p: Queue | p.idx < t.qmax && p != q :: u.At(p) == t.At(p)
    requires u.Present(q) ==> q.ty == CMPT ==> !u.At(q).st
    requires u.Present(q) ==> forall p: Queue | t.Present(p) && p.idx == q.idx :: t.At(p).st == u.At(q).st
    ensures u.Agree()
  {
    assert forall p: Queue | u.Present(p) && p != q :: t.Present(p);
  }

  lemma CountedKept(t: Table, u: Table, q: Queue, s: Slot)
    requires t.Sized() && t.Counted() && q.idx < t.qmax && u.Sized()
    requires var v := t.With(q, s); u.h2c == v.h2c && u.c2h == v.c2h && u.cmpt == v.cmpt
    requires var was, now := t.At(q), s;
      var n := (if Counts(now, false) then 1 else 0) - (if Counts(was, false) then 1 else 0);
      var m := if q.ty == C2H then (if Counts(now, true) then 1 else 0) - (if Counts(was, true) then 1 else 0) else 0;
      && u.active.h2c == t.active.h2c + (if q.ty == H2C then n else 0)
      && u.active.c2h == t.active.c2h + (if q.ty == C2H then n else 0)
      && u.active.cmpt == t.active.cmpt + (if q.ty == CMPT then n else 0) + m
    ensures u.Counted()
  {
    InUseUpdate(t.Slots(q.ty), q.idx, s, false);
    InUseUpdate(t.Slots(q.ty), q.idx, s, true);
  }

  /** The contexts of online queues survive a step on a queue that is not online before and after. */
  lemma ContextsKept(t: Table, u: Table, q: Queue)
    requires t.Sized() && t.Contexts() && u.Sized() && q.idx < t.qmax
    requires u.qmax == t.qmax && u.qbase == t.qbase && u.ctx == t.ctx
    requires forall p: Queue | p.idx < t.qmax && p != q :: u.At(p) == t.At(p)
    requires t.At(q).state != Online && u.At(q).state != Online
    ensures u.Contexts()
  {
    hide Cleared, Written, Table.Owned;
  }

  lemma AddKeepsInv(t: Table, q: Queue, st: bool, aperture: nat)
    requires t.Inv() && AddError(t, q, st, true, true) == 0
    ensures Add(t, q, st, aperture).Inv()
  {
    hide Table.Agree, Table.Contexts, Table.Counted, Usable;
    AddSucceeds(t, q, st, true, true);
    var s := Slot(Enabled, st, aperture);
    var u := Add(t, q, st, aperture);
    Replaced(t, q, s);
    AgreeKept(t, u, q);
    CountedKept(t, u, q, s);
    ContextsKept(t, u, q);
  }

  lemma RemoveKeepsInv(t: Table, q: Queue)
    requires t.Inv() && q.idx < t.qmax && t.At(q).state == Enabled
    ensures Remove(t, q).Inv()
  {
    hide Table.Agree, Table.Contexts;
    var s := t.At(q).(state := Disabled);
    var u := Remove(t, q);
    InUseSome(t.Slots(q.ty), false, q.idx);
    if s.st && q.ty == C2H {
      InUseSome(t.c2h, true, q.idx);
    }
    Replaced(t, q, s);
    AgreeKept(t, u, q);
    CountedKept(t, u, q, s);
    ContextsKept(t, u, q);
  }

  lemma SameMode(t: Table, u: Table, q: Queue, s: Slot)
    requires t.Sized() && t.Agree() && t.Counted() && t.Present(q)
    requires s.state != Disabled && s.st == t.At(q).st
    requires u == t.With(q, s).(ctx := u.ctx)
    ensures u.Sized() && u.Agree() && u.Counted()
  {
    hide Table.Counted;
    Replaced(t, q, s);
    AgreeKept(t, u, q);
    CountedKept(t, u, q, s);
  }

  lemma StartKeepsInv(t: Table, q: Queue, fault: Fault)
    requires t.Inv() && q.idx < t.qmax && t.At(q).state == Enabled
    ensures Start(t, q, fault).table.Inv()
  {
    hide Table.Agree, Table.Counted, Table.Contexts, Table.Owned, Table.Programmed;
    var u := Start(t, q, fault).table;
    match fault
    case NoFault =>
      var s := t.At(q).(state := Online);
      Replaced(t, q, s);
      SameMode(t, u, q, s);
      ProgramKeepsContexts(t, u, q);
    case ProgramFault(_, cleared, written, cleaned) =>
      SameMode(t, u, q, t.At(q));
      TouchedOwned(t, q, cleared, written, cleaned);
      BrokenKeepsContexts(t, u, q);
    case _ =>
  }

  lemma ProgramKeepsContexts(t: Table, u: Table, q: Queue)
    requires t.Inv() && t.Present(q) && u.Sized() && u.qmax == t.qmax && u.qbase == t.qbase
    requires forall p: Queue | p.idx < t.qmax && p != q :: u.At(p) == t.At(p)
    requires u.At(q) == t.At(q).(state := Online) && u.ctx == Program(t.ctx, t.Owned(q), t.Programmed(q), q)
    ensures u.Contexts()
  {
    hide Table.Agree, Table.Counted, Cleared, Written, Table.Owned;
    NotMine(t, q);
    assert forall p: Queue | p.idx < t.qmax :: u.Programmed(p) == t.Programmed(p);
  }

  /** A start that fails touches no keys but its queue's. */
  lemma TouchedOwned(t: Table, q: Queue, cleared: nat, written: nat, cleaned: nat)
    requires t.Sized() && q.idx < t.qmax
    ensures var order := Order(t, q);
      && Keys(Prefix(order, cleared)) <= t.Owned(q) && Keys(Prefix(order, cleaned)) <= t.Owned(q)
      && Keys(Made(order, Writes(t, q), cleared, written)) <= t.Programmed(q) <= t.Owned(q)
  {
    hide AccessOrder, WriteOrder;
    ProgrammedOwned(t, q);
  }

  lemma BrokenKeepsContexts(t: Table, u: Table, q: Queue)
    requires t.Inv() && t.Present(q) && t.At(q).state != Online && u == t.(ctx := u.ctx)
    requires forall k | k !in t.Owned(q) && k in t.ctx :: k in u.ctx && u.ctx[k] == t.ctx[k]
    ensures u.Contexts()
  {
    hide Table.Agree, Table.Counted, Cleared, Written, Table.Owned;
    NotMine(t, q);
    assert forall p: Queue | p.idx < t.qmax :: u.Programmed(p) == t.Programmed(p) && u.At(p) == t.At(p);
  }

  lemma InvalidateKeepsContexts(t: Table, u: Table, q: Queue, keys: set<CtxKey>)
    requires t.Inv() && t.Present(q) && u.Sized() && u.qmax == t.qmax && u.qbase == t.qbase && keys <= t.Owned(q)
    requires forall p: Queue | p.idx < t.qmax && p != q :: u.At(p) == t.At(p)
    requires u.At(q) == t.At(q).(state := Enabled) && u.ctx == Invalidate(t.ctx, keys)
    ensures u.Contexts()
  {
    hide Table.Agree, Table.Counted, Cleared, Written, Table.Owned;
    NotMine(t, q);
    assert forall p: Queue | p.idx < t.qmax :: u.Programmed(p) == t.Programmed(p);
  }

  lemma StopKeepsInv(t: Table, q: Queue, failAt: Option<nat>)
    requires t.Inv() && q.idx < t.qmax && t.At(q).state == Online
    ensures Stop(t, q, failAt).Inv()
  {
    hide Table.Agree, Table.Counted, Table.Contexts, AccessOrder, Table.Programmed;
    var s := t.At(q).(state := Enabled);
    var u := Stop(t, q, failAt);
    Replaced(t, q, s);
    SameMode(t, u, q, s);
    InvalidateKeepsContexts(t, u, q, Keys(Reached(AccessOrder(q.ty, t.qbase + q.idx, t.At(q).st), failAt)));
  }

  /** The keys of a queue in use are programmed by no other online queue. */
  lemma NotMine(t: Table, q: Queue)
    requires t.Inv() && t.Present(q)
    ensures t.Programmed(q) <= t.Owned(q)
    ensures forall p: Queue | p.idx < t.qmax && p != q && t.At(p).state == Online :: t.Programmed(p) !! t.Owned(q)
  {
    forall p: Queue | p.idx < t.qmax && p != q && t.At(p).state == Online ensures t.Programmed(p) !! t.Owned(q) {
      OwnedDisjoint(t, p, q);
      assert t.Programmed(p) <= t.Owned(p);
    }
  }

  lemma ConfigKeepsInv(t: Table, q: Queue, aperture: nat)
    requires t.Inv() && q.idx < t.qmax && t.At(q).state == Enabled
    ensures t.With(q, t.At(q).(aperture := aperture)).Inv()
  {
    hide Table.Agree, Table.Counted, Table.Contexts;
    var s := t.At(q).(aperture := aperture);
    Replaced(t, q, s);
    SameMode(t, t.With(q, s), q, s);
    ContextsKept(t, t.With(q, s), q);
  }

  lemma AddsAsIfAccepted(t: Table, q: Queue, st: bool, valid: bool, legacy: bool)
    requires t.Sized() && AddError(t, q, st, valid, legacy) == 0
    ensures AddError(t, q, st, true, true) == 0
  {
  }

  lemma ApplyKeepsInv(t: Table, op: Op)
    requires t.Inv()
    ensures Apply(t, op).table.Inv()
  {
    hide Table.Agree, Table.Counted, Table.Contexts, Cleared, Written, AddError, Usable, Add, Start, Stop, Remove;
    if op.AddOp? {
      if AddError(t, op.q, op.st, op.valid, op.legacy) == 0 {
        AddsAsIfAccepted(t, op.q, op.st, op.valid, op.legacy);
        AddKeepsInv(t, op.q, op.st, op.aperture);
      }
    } else if FromHandle(op.id, t.qmax).Some? {
      var q := FromHandle(op.id, t.qmax).value;
      var s := t.At(q);
      match op
      case ConfigOp(_, aperture, valid) =>
        if s.state == Enabled {
          ConfigKeepsInv(t, q, aperture);
        }
      case StartOp(_, fault) =>
        if s.state == Enabled {
          StartKeepsInv(t, q, fault);
        }
      case StopOp(_, failAt) =>
        if s.state == Online {
          StopKeepsInv(t, q, failAt);
        }
      case _ =>
        if s.state == Enabled {
          RemoveKeepsInv(t, q);
        }
    }
  }

  // ---- what a call returns and leaves in its own slot ----

  /** Why a queue is turned away: with everything else in order, a full count comes before a slot
      that is taken or an index in another mode. */
  lemma AddRefusals(t: Table, q: Queue, st: bool, valid: bool, legacy: bool)
    requires t.Inv()
    ensures var e := AddError(t, q, st, valid, legacy);
      var asked := (q.ty == CMPT ==> !st && t.caps.mmCmpt) && (if st then t.caps.st else t.caps.mm) && valid && q.idx < t.qmax;
      var fits := asked && t.At(q).state == Disabled && (forall p | t.Present(p) && p.idx == q.idx :: t.At(p).st == st);
      && (e == -EIO <==> asked && Active(t.active, q.ty) == t.qmax)
      && (e == -EPERM <==> asked && Active(t.active, q.ty) < t.qmax && !fits)
      && (e == -EINVAL <==> !asked || (fits && !legacy))
      && (e == 0 <==> fits && legacy)
  {
    hide Table.Agree, Table.Contexts, RefMask;
    if q.idx < t.qmax && !(q.ty == CMPT && st) {
      Admission(t, q, st);
      ActiveBound(t, q.ty);
      if Usable(t.h2c[q.idx], t.c2h[q.idx], t.cmpt[q.idx], q.ty, st) {
        RoomToCount(t, q, st);
      }
    }
  }

  lemma ActiveBound(t: Table, ty: QType)
    requires t.Inv()
    ensures Active(t.active, ty) <= t.qmax
  {
    if ty == CMPT {
      CompletionRings(t);
      InUseShared(t.cmpt, false, t.c2h, true);
    }
  }

  /** What the other calls return. A start is refused for its aperture exactly when that is neither
      0 nor a power of two. */
  lemma CallReturns(t: Table, op: Op)
    requires t.Sized() && !op.AddOp?
    ensures var rc, target := Apply(t, op).rc, FromHandle(op.id, t.qmax);
      if target.None? then rc == -EINVAL
      else
        var s := t.At(target.value);
        match op
        case ConfigOp(_, _, valid) => rc == if s.state == Enabled && valid then 0 else -EINVAL
        case StartOp(_, fault) =>
          if s.state != Enabled || fault.Refused? then rc == -EINVAL
          else if s.aperture != 0 && !Bits.IsPow2(s.aperture) then rc == -ERANGE
          else rc == if fault.NoFault? then 0 else -1 - fault.err
        case StopOp(_, _) => rc == if s.state == Online then 0 else -EINVAL
        case RemoveOp(_) => rc == if s.state == Enabled then 0 else -EINVAL
  {
    hide Program, Invalidate, Prefix, Made, Bits.And, Bits.IsPow2;
    if FromHandle(op.id, t.qmax).Some? {
      var a := t.At(FromHandle(op.id, t.qmax).value).aperture;
      if a != 0 {
        Bits.PowerOfTwoTest(a);
      }
    }
  }

  /** What a call leaves in the slot of its own queue, field by field; a call that fails leaves it
      alone. */
  lemma OwnSlot(t: Table, op: Op, q: Queue)
    requires t.Inv() && Target(t, op) == Some(q)
    ensures Apply(t, op).table.Sized() && Apply(t, op).table.qmax == t.qmax
    ensures var was, now := t.At(q), Apply(t, op).table.At(q);
      if Apply(t, op).rc != 0 then now == was
      else
        match op
        case AddOp(_, st, aperture, _, _) => now.state == Enabled && now.st == st && now.aperture == aperture
        case ConfigOp(_, aperture, _) => now.state == Enabled && now.st == was.st && now.aperture == aperture
        case StartOp(_, _) => now.state == Online && now.st == was.st && now.aperture == was.aperture
        case StopOp(_, _) => now.state == Enabled && now.st == was.st && now.aperture == was.aperture
        case RemoveOp(_) => now.state == Disabled && now.st == was.st && now.aperture == was.aperture
  {
    hide Table.Agree, Table.Counted, Table.Contexts, Usable, Table.Owned, Table.Programmed, AccessOrder, WriteOrder, Invalidate, Program, Made, Prefix;
    if Apply(t, op).rc == 0 {
      var s := t.At(q);
      Replaced(t, q, match op
                     case AddOp(_, st, aperture, _, _) => Slot(Enabled, st, aperture)
                     case ConfigOp(_, aperture, _) => s.(aperture := aperture)
                     case StartOp(_, _) => s.(state := Online)
                     case StopOp(_, _) => s.(state := Enabled)
                     case RemoveOp(_) => s.(state := Disabled));
    }
  }

  /** The accesses that clear and write the contexts of a queue, one by one: three and one, for a
      streaming C2H queue five and three, for a completion queue one and one. */
  lemma Accesses(ty: QType, qid: nat, st: bool)
    requires ty == CMPT ==> !st
    ensures AccessOrder(ty, qid, st) ==
      if ty == CMPT then [Completion(qid)]
      else if ty == C2H && st then [Sw(C2H, qid), Hw(C2H, qid), Credit(C2H, qid), Prefetch(qid), Completion(qid)]
      else [Sw(ty, qid), Hw(ty, qid), Credit(ty, qid)]
    ensures WriteOrder(ty, qid, st) ==
      if ty == CMPT then [Completion(qid)]
      else if ty == C2H && st then [Sw(C2H, qid), Prefetch(qid), Completion(qid)]
      else [Sw(ty, qid)]
  {
  }

  /** After a successful start the software context is the queue's own and valid, with those for
      prefetch and completion where the queue has them, and what the hardware kept in its own and
      the credit context is gone. */
  lemma StartedContexts(t: Table, q: Queue)
    requires t.Inv() && q.idx < t.qmax && t.At(q).state == Enabled
    ensures var ctx, qid, st := Start(t, q, NoFault).table.ctx, t.qbase + q.idx, t.At(q).st;
      && (q.ty != CMPT ==> Sw(q.ty, qid) in ctx && ctx[Sw(q.ty, qid)] == Ctx(true, q))
      && (q.ty != CMPT ==> Hw(q.ty, qid) !in ctx && Credit(q.ty, qid) !in ctx)
      && (q.ty == C2H && st ==> Prefetch(qid) in ctx && ctx[Prefetch(qid)] == Ctx(true, q))
      && ((q.ty == C2H && st) || q.ty == CMPT ==> Completion(qid) in ctx && ctx[Completion(qid)] == Ctx(true, q))
  {
    hide Table.Agree, Table.Counted, Table.Contexts, AccessOrder, WriteOrder;
    OnlyMode(t, q);
    Accesses(q.ty, t.qbase + q.idx, t.At(q).st);
    OwnKeys(t, q);
  }

  /** After a stop in which no access fails none of them is valid. */
  lemma StoppedContexts(t: Table, q: Queue)
    requires t.Inv() && q.idx < t.qmax && t.At(q).state == Online
    ensures var ctx, qid, st := Stop(t, q, None).ctx, t.qbase + q.idx, t.At(q).st;
      && (forall k | q.ty != CMPT && k in ctx && (k == Sw(q.ty, qid) || k == Hw(q.ty, qid) || k == Credit(q.ty, qid)) :: !ctx[k].valid)
      && (q.ty == C2H && st && Prefetch(qid) in ctx ==> !ctx[Prefetch(qid)].valid)
      && ((q.ty == C2H && st) || q.ty == CMPT ==> Completion(qid) in ctx ==> !ctx[Completion(qid)].valid)
  {
    hide Table.Agree, Table.Counted, Table.Contexts, AccessOrder;
    OnlyMode(t, q);
    Accesses(q.ty, t.qbase + q.idx, t.At(q).st);
  }

  /** A device without queues, its contexts clear. */
  function Fresh(qbase: nat, qmax: nat, caps: Caps): Table
  {
    var empty := seq(qmax, i => Slot(Disabled, false, 0));
    Table(qbase, qmax, caps, empty, empty, empty, map[], Counters(0, 0, 0))
  }

  lemma {:induction false} NoneInUse(n: nat, only: bool)
    ensures InUse(seq(n, i => Slot(Disabled, false, 0)), only) == 0
  {
    if n > 0 {
      NoneInUse(n - 1, only);
      assert seq(n, i => Slot(Disabled, false, 0))[1..] == seq(n - 1, i => Slot(Disabled, false, 0));
    }
  }

  function Run(t: Table, ops: seq<Op>): (r: Table)
    requires t.Inv()
    ensures r.Inv()
    decreases |ops|
  {
    if ops == [] then t else (ApplyKeepsInv(t, ops[0]); Run(Apply(t, ops[0]).table, ops[1..]))
  }

  /** Over any sequence of calls on a fresh device. */
  lemma Reachable(qbase: nat, qmax: nat, caps: Caps, ops: seq<Op>)
    ensures Fresh(qbase, qmax, caps).Inv() && Run(Fresh(qbase, qmax, caps), ops).Inv()
  {
    NoneInUse(qmax, false);
    NoneInUse(qmax, true);
    assert Fresh(qbase, qmax, caps).Inv();
  }

  predicate SameKeys(a: map<CtxKey, Ctx>, b: map<CtxKey, Ctx>, keys: set<CtxKey>)
  {
    forall k | k in keys :: (k in a <==> k in b) && (k in a ==> a[k] == b[k])
  }

  /** No call on one queue, whatever its outcome, touches the slot of another queue or any
      context that a queue in use owns. */
  lemma Interference(t: Table, op: Op, p: Queue)
    requires t.Inv() && p.idx < t.qmax && Target(t, op) != Some(p)
    ensures var u := Apply(t, op).table;
      && u.Sized() && u.qmax == t.qmax && u.qbase == t.qbase && u.At(p) == t.At(p)
      && (t.Present(p) ==> SameKeys(t.ctx, u.ctx, t.Owned(p)))
  {
    hide Table.Agree, Table.Counted, Table.Contexts, Apply, Table.Owned;
    SlotsKept(t, op, p);
    var target := Target(t, op);
    if target.Some? && t.Present(p) {
      KeysKept(t, op, target.value, p);
    } else if target.None? {
      NoTarget(t, op);
    }
  }

  lemma NoTarget(t: Table, op: Op)
    requires t.Sized() && Target(t, op).None?
    ensures Apply(t, op).table == t
  {
    hide Usable;
  }

  lemma SlotsKept(t: Table, op: Op, p: Queue)
    requires t.Inv() && p.idx < t.qmax && Target(t, op) != Some(p)
    ensures SameSlot(t, Apply(t, op).table, p)
  {
    hide Table.Agree, Table.Counted, Table.Contexts, Usable, Add, Remove, Start, Stop, SameSlot;
    Unchanged(t, p);
    if Target(t, op).Some? {
      var q := Target(t, op).value;
      match op
      case AddOp(_, st, aperture, _, _) => AddFrame(t, q, st, aperture, p);
      case ConfigOp(_, aperture, _) => Framed(t, t.With(q, t.At(q).(aperture := aperture)), q, t.At(q).(aperture := aperture), p);
      case StartOp(_, fault) => StartFrame(t, q, fault, p);
      case StopOp(_, failAt) => StopFrame(t, q, failAt, p);
      case RemoveOp(_) => RemoveFrame(t, q, p);
    }
  }

  predicate SameSlot(t: Table, u: Table, p: Queue)
    requires t.Sized() && p.idx < t.qmax
  {
    u.Sized() && u.qmax == t.qmax && u.qbase == t.qbase && u.At(p) == t.At(p)
  }

  lemma Unchanged(t: Table, p: Queue)
    requires t.Sized() && p.idx < t.qmax
    ensures SameSlot(t, t, p)
  {
  }

  lemma Framed(t: Table, u: Table, q: Queue, s: Slot, p: Queue)
    requires t.Sized() && q.idx < t.qmax && p.idx < t.qmax && p != q && u == t.With(q, s).(ctx := u.ctx, active := u.active)
    ensures SameSlot(t, u, p)
  {
    Replaced(t, q, s);
  }

  lemma AddFrame(t: Table, q: Queue, st: bool, aperture: nat, p: Queue)
    requires t.Sized() && q.idx < t.qmax && p.idx < t.qmax && p != q
    ensures SameSlot(t, Add(t, q, st, aperture), p)
  {
    Framed(t, Add(t, q, st, aperture), q, Slot(Enabled, st, aperture), p);
  }

  lemma RemoveFrame(t: Table, q: Queue, p: Queue)
    requires t.Sized() && q.idx < t.qmax && p.idx < t.qmax && p != q
    ensures SameSlot(t, Remove(t, q), p)
  {
    Framed(t, Remove(t, q), q, t.At(q).(state := Disabled), p);
  }

  lemma StartFrame(t: Table, q: Queue, fault: Fault, p: Queue)
    requires t.Sized() && q.idx < t.qmax && p.idx < t.qmax && p != q
    ensures SameSlot(t, Start(t, q, fault).table, p)
  {
    hide Program, Prefix, Made, Table.Owned, Table.Programmed;
    if fault.NoFault? {
      Framed(t, Start(t, q, fault).table, q, t.At(q).(state := Online), p);
    }
  }

  lemma StopFrame(t: Table, q: Queue, failAt: Option<nat>, p: Queue)
    requires t.Sized() && q.idx < t.qmax && p.idx < t.qmax && p != q
    ensures SameSlot(t, Stop(t, q, failAt), p)
  {
    hide Invalidate;
    Framed(t, Stop(t, q, failAt), q, t.At(q).(state := Enabled), p);
  }

  lemma KeysKept(t: Table, op: Op, q: Queue, p: Queue)
    requires t.Inv() && t.Present(p) && Target(t, op) == Some(q) && p != q
    ensures SameKeys(t.ctx, Apply(t, op).table.ctx, t.Owned(p))
  {
    hide Table.Agree, Table.Counted, Table.Contexts, Cleared, Written, AddError, Table.Owned, Table.Programmed;
    if t.Present(q) {
      OwnedDisjoint(t, p, q);
      if op.StopOp? {
        ReachedOwned(t, q, op.failAt);
      } else if op.StartOp? && op.fault.ProgramFault? {
        TouchedOwned(t, q, op.fault.cleared, op.fault.written, op.fault.cleaned);
      }
      assert t.Programmed(q) <= t.Owned(q) by { WrittenAreCleared(q.ty, t.qbase + q.idx, t.At(q).st); OwnKeys(t, q); }
    }
  }

  lemma ReachedOwned(t: Table, q: Queue, failAt: Option<nat>)
    requires t.Sized() && q.idx < t.qmax
    ensures Keys(Reached(AccessOrder(q.ty, t.qbase + q.idx, t.At(q).st), failAt)) <= t.Owned(q)
  {
  }

  lemma WrittenAreCleared(ty: QType, qid: nat, st: bool)
    ensures Written(ty, qid, st) <= Cleared(ty, qid, st)
  {
  }

  lemma OwnKeys(t: Table, q: Queue)
    requires t.Sized() && q.idx < t.qmax
    ensures t.Owned(q) == Cleared(q.ty, t.qbase + q.idx, t.At(q).st)
    ensures t.Programmed(q) == Written(q.ty, t.qbase + q.idx, t.At(q).st)
  {
  }

  /** A context key has at most one owner in use; where it is one that the driver programs, it
      is valid exactly when that owner is online, unless a stop that failed has left it behind. */
  lemma SingleOwner(t: Table, q: Queue, k: CtxKey)
    requires t.Inv() && t.Present(q) && k in t.Programmed(q)
    ensures k in t.ctx && t.ctx[k].valid <==> t.At(q).state == Online || t.Orphan(k)
    ensures t.At(q).state == Online ==> t.ctx[k].writer == q && !t.Orphan(k)
    ensures forall p | t.Present(p) && k in t.Owned(p) :: p == q
  {
    hide Table.Agree, Table.Counted, Cleared, Written, Table.Owned, Table.Programmed;
    assert t.Programmed(q) <= t.Owned(q) by { ProgrammedOwned(t, q); }
    forall p | t.Present(p) && k in t.Owned(p) ensures p == q {
      if p != q {
        OwnedDisjoint(t, p, q);
      }
    }
    if k in t.ctx && t.ctx[k].valid && !t.Orphan(k) {
      ProgrammedOwned(t, t.ctx[k].writer);
    }
  }

  lemma ProgrammedOwned(t: Table, q: Queue)
    requires t.Sized() && q.idx < t.qmax
    ensures t.Programmed(q) <= t.Owned(q)
  {
    WrittenAreCleared(q.ty, t.qbase + q.idx, t.At(q).st);
    OwnKeys(t, q);
  }

  // ---- contexts left behind ----

  /** A start that succeeds ends those among the keys of its queue. One that fails leaves behind
      what it has written and what it found and did not clear, as far as the clean-up does not
      get to it. */
  lemma StartEndsOrphans(t: Table, q: Queue, fault: Fault, k: CtxKey)
    requires t.Inv() && q.idx < t.qmax && t.At(q).state == Enabled
    ensures Start(t, q, fault).table.Sized()
    ensures Start(t, q, fault).table.Orphan(k) <==>
      match fault
      case NoFault => t.Orphan(k) && k !in t.Owned(q)
      case ProgramFault(_, cleared, written, cleaned) =>
        && k !in Prefix(Order(t, q), cleaned)
        && (k in Made(Order(t, q), Writes(t, q), cleared, written) || (t.Orphan(k) && k !in Prefix(Order(t, q), cleared)))
      case _ => t.Orphan(k)
  {
    hide Table.Agree, Table.Counted, Table.Contexts, Table.Owned, Table.Programmed, Table.Orphan, AccessOrder, WriteOrder, Made, Prefix;
    ProgrammedOwned(t, q);
    var u := Start(t, q, fault).table;
    match fault
    case ProgramFault(_, cleared, written, cleaned) =>
      BrokenOrphan(t, u, q, k, Prefix(Order(t, q), cleared), Made(Order(t, q), Writes(t, q), cleared, written), Prefix(Order(t, q), cleaned));
    case NoFault =>
      Replaced(t, q, t.At(q).(state := Online));
      StartedOrphan(t, u, q, k);
    case _ =>
  }

  lemma BrokenOrphan(t: Table, u: Table, q: Queue, k: CtxKey, cleared: seq<CtxKey>, made: seq<CtxKey>, cleaned: seq<CtxKey>)
    requires t.Sized() && q.idx < t.qmax && t.At(q).state == Enabled
    requires u == t.(ctx := Program(t.ctx, Keys(cleared), Keys(made), q) - Keys(cleaned))
    ensures u.Orphan(k) <==> k !in cleaned && (k in made || (t.Orphan(k) && k !in cleared))
  {
    hide Cleared, Written, Table.Owned;
    assert forall p: Queue | p.idx < t.qmax :: u.Programmed(p) == t.Programmed(p) && u.At(p) == t.At(p);
  }

  lemma StartedOrphan(t: Table, u: Table, q: Queue, k: CtxKey)
    requires t.Sized() && u.Sized() && q.idx < t.qmax && u.qmax == t.qmax && u.qbase == t.qbase
    requires t.At(q).state == Enabled && t.Programmed(q) <= t.Owned(q)
    requires forall p: Queue | p.idx < t.qmax && p != q :: u.At(p) == t.At(p)
    requires u.At(q) == t.At(q).(state := Online) && u.ctx == Program(t.ctx, t.Owned(q), t.Programmed(q), q)
    ensures u.Orphan(k) <==> t.Orphan(k) && k !in t.Owned(q)
  {
    hide Cleared, Written, Table.Owned;
    assert forall p: Queue | p.idx < t.qmax :: u.Programmed(p) == t.Programmed(p);
  }

  /** A stop adds the programmed ones it did not get to. */
  lemma StopLeavesOrphans(t: Table, q: Queue, failAt: Option<nat>, k: CtxKey)
    requires t.Inv() && q.idx < t.qmax && t.At(q).state == Online
    ensures Stop(t, q, failAt).Sized()
    ensures Stop(t, q, failAt).Orphan(k) <==>
      (t.Orphan(k) || k in t.Programmed(q)) && k !in Reached(AccessOrder(q.ty, t.qbase + q.idx, t.At(q).st), failAt)
  {
    hide Table.Agree, Table.Counted, Cleared, Written, AccessOrder, Reached;
    var s := t.At(q).(state := Enabled);
    var u := Stop(t, q, failAt);
    Replaced(t, q, s);
    assert forall p: Queue | p.idx < t.qmax :: u.Programmed(p) == t.Programmed(p);
    if k in t.ctx && t.ctx[k].valid && k in t.Programmed(q) {
      assert t.ctx[k].writer == q;
    }
  }

  /** Nothing else changes them. */
  lemma OthersKeepOrphans(t: Table, op: Op, k: CtxKey)
    requires t.Inv() && !op.StartOp? && !op.StopOp?
    ensures Apply(t, op).table.Sized() && (Apply(t, op).table.Orphan(k) <==> t.Orphan(k))
  {
    hide Table.Agree, Table.Counted, Table.Contexts, Cleared, Written, Usable, Table.Orphan;
    var target := Target(t, op);
    if target.Some? && Apply(t, op).rc == 0 {
      var q, u := target.value, Apply(t, op).table;
      if op.AddOp? {
        assert t.At(q).state == Disabled by { AddSucceeds(t, q, op.st, op.valid, op.legacy); }
      }
      Replaced(t, q, u.At(q));
      OrphanSame(t, u, q, k);
    }
  }

  lemma OrphanSame(t: Table, u: Table, q: Queue, k: CtxKey)
    requires t.Sized() && u.Sized() && q.idx < t.qmax && u.qmax == t.qmax && u.qbase == t.qbase && u.ctx == t.ctx
    requires forall p: Queue | p.idx < t.qmax && p != q :: u.At(p) == t.At(p)
    requires t.At(q).state != Online && u.At(q).state != Online
    ensures u.Orphan(k) <==> t.Orphan(k)
  {
    hide Cleared, Written, Table.Owned;
  }

  /** A stop leaves no context behind if and only if no access fails, or one fails that is not the
      first, and the queue is not a streaming C2H queue. */
  lemma CleanStop(t: Table, q: Queue, failAt: Option<nat>)
    requires t.Inv() && t.NoOrphans() && q.idx < t.qmax && t.At(q).state == Online
    ensures Stop(t, q, failAt).Sized()
    ensures Stop(t, q, failAt).NoOrphans() <==>
      var n := |AccessOrder(q.ty, t.qbase + q.idx, t.At(q).st)|;
      failAt.Some? && failAt.value < n ==> failAt.value > 0 && !(q.ty == C2H && t.At(q).st)
  {
    hide Table.Agree, Table.Counted, Table.Contexts, Stop;
    var st, qid := t.At(q).st, t.qbase + q.idx;
    var order := AccessOrder(q.ty, qid, st);
    StopKeepsInv(t, q, failAt);
    forall k ensures (Stop(t, q, failAt).Orphan(k) <==> k in t.Programmed(q) && k !in Reached(order, failAt)) {
      StopLeavesOrphans(t, q, failAt, k);
    }
    OwnKeys(t, q);
    OnlyMode(t, q);
    hide Table.Orphan;
    if failAt.Some? && failAt.value < |order| {
      var u, f := Stop(t, q, failAt), failAt.value;
      if q.ty == C2H && st {
        assert order[4] == Completion(qid) && Completion(qid) !in order[..f];
        assert u.Orphan(Completion(qid));
      } else if f == 0 {
        assert u.Orphan(if q.ty == CMPT then Completion(qid) else Sw(q.ty, qid));
      } else {
        assert Sw(q.ty, qid) == order[0] && order[0] in order[..f];
      }
    } else {
      WrittenAreCleared(q.ty, qid, st);
    }
  }

  /** How many accesses the clean-up must reach after `made` writes. */
  function CleanUpNeeded(ty: QType, st: bool, made: nat): nat
  {
    if made == 0 then 0
    else if !(ty == C2H && st) || made == 1 then 1
    else if made == 2 then 4
    else 5
  }

  /** A failed start leaves no context behind if and only if its clean-up gets far enough. */
  lemma CleanStart(t: Table, q: Queue, err: nat, cleared: nat, written: nat, cleaned: nat)
    requires t.Inv() && t.NoOrphans() && q.idx < t.qmax && t.At(q).state == Enabled
    ensures var fault := ProgramFault(err, cleared, written, cleaned);
      && Start(t, q, fault).table.Sized()
      && (Start(t, q, fault).table.NoOrphans() <==>
            CleanUpNeeded(q.ty, t.At(q).st, |Made(Order(t, q), Writes(t, q), cleared, written)|) <= cleaned)
  {
    hide Table.Agree, Table.Counted, Table.Contexts, Start, Table.Orphan;
    var fault := ProgramFault(err, cleared, written, cleaned);
    StartKeepsInv(t, q, fault);
    var u := Start(t, q, fault).table;
    var made, order := Made(Order(t, q), Writes(t, q), cleared, written), Order(t, q);
    forall k ensures u.Orphan(k) <==> k in made && k !in Prefix(order, cleaned) {
      StartEndsOrphans(t, q, fault, k);
    }
    OnlyMode(t, q);
    CleanUpEnough(q.ty, t.qbase + q.idx, t.At(q).st, |made|, cleaned);
    assert made == Writes(t, q)[..|made|];
    if CleanUpNeeded(q.ty, t.At(q).st, |made|) > cleaned {
      var k :| k in made && k !in Prefix(order, cleaned);
      assert u.Orphan(k);
    }
  }

  lemma CleanUpEnough(ty: QType, qid: nat, st: bool, made: nat, cleaned: nat)
    requires made <= |WriteOrder(ty, qid, st)| && (ty == CMPT ==> !st)
    ensures CleanUpNeeded(ty, st, made) <= cleaned <==>
      forall k | k in WriteOrder(ty, qid, st)[..made] :: k in Prefix(AccessOrder(ty, qid, st), cleaned)
  {
    var writes, order := WriteOrder(ty, qid, st), AccessOrder(ty, qid, st);
    forall i | 0 <= i < |order| ensures order[i] in Prefix(order, cleaned) <==> i < cleaned {
      InPrefix(order, i, cleaned);
    }
    if made > 0 {
      assert writes[0] == order[0] && writes[..made][0] == writes[0];
      if ty == C2H && st {
        assert writes[1] == order[3] && writes[2] == order[4];
        assert made > 1 ==> writes[..made][1] == writes[1];
        assert made > 2 ==> writes[..made][2] == writes[2];
      }
    }
  }

  lemma InPrefix(ks: seq<CtxKey>, i: nat, n: nat)
    requires i < |ks| && NoDup(ks)
    ensures ks[i] in Prefix(ks, n) <==> i < n
  {
    if i < n < |ks| {
      assert ks[..n][i] == ks[i];
    }
  }

  lemma OnlyMode(t: Table, q: Queue)
    requires t.Inv() && t.Present(q)
    ensures q.ty == CMPT ==> !t.At(q).st
  {
  }

  /** No stop meets a failing access, and no clean-up of a failed start meets another one. */
  predicate Tidy(op: Op)
  {
    && (op.StopOp? ==> op.failAt.None?)
    && (op.StartOp? && op.fault.ProgramFault? ==> op.fault.cleaned >= 5)
  }

  /** Over any run of such calls no context is ever left behind. */
  lemma {:induction false} CleanRun(t: Table, ops: seq<Op>)
    requires t.Inv() && t.NoOrphans() && forall i | 0 <= i < |ops| :: Tidy(ops[i])
    ensures Run(t, ops).NoOrphans()
    decreases |ops|
  {
    hide Table.Agree, Table.Counted, Table.Contexts, Apply, Table.Orphan;
    if ops != [] {
      ApplyKeepsInv(t, ops[0]);
      CleanStep(t, ops[0]);
      CleanRun(Apply(t, ops[0]).table, ops[1..]);
    }
  }

  lemma CleanStep(t: Table, op: Op)
    requires t.Inv() && t.NoOrphans() && Tidy(op)
    ensures Apply(t, op).table.Sized() && Apply(t, op).table.NoOrphans()
  {
    hide Table.Agree, Table.Counted, Table.Contexts, Table.Orphan, Start, Stop, Table.Owned;
    var target := Target(t, op);
    match op
    case StartOp(_, fault) =>
      if target.Some? && t.At(target.value).state == Enabled {
        StartKeepsInv(t, target.value, fault);
        if fault.ProgramFault? {
          CleanStart(t, target.value, fault.err, fault.cleared, fault.written, fault.cleaned);
        } else {
          forall k ensures !Start(t, target.value, fault).table.Orphan(k) {
            StartEndsOrphans(t, target.value, fault, k);
          }
        }
      }
    case StopOp(_, failAt) =>
      if target.Some? && t.At(target.value).state == Online {
        CleanStop(t, target.value, failAt);
      }
    case _ =>
      ApplyKeepsInv(t, op);
      forall k ensures !Apply(t, op).table.Orphan(k) {
        OthersKeepOrphans(t, op, k);
      }
  }

  lemma RunStep(t: Table, ops: seq<Op>, op: Op)
    requires t.Inv()
    ensures Run(t, ops + [op]) == Apply(Run(t, ops), op).table
    decreases |ops|
  {
    hide Table.Agree, Table.Counted, Table.Contexts, Apply;
    ApplyKeepsInv(Run(t, ops), op);
    if ops == [] {
      assert [op][1..] == [] && ops + [op] == [op];
    } else {
      ApplyKeepsInv(t, ops[0]);
      RunStep(Apply(t, ops[0]).table, ops[1..], op);
      assert (ops + [op])[0] == ops[0] && (ops + [op])[1..] == ops[1..] + [op];
    }
  }

  /** The only queue of a fresh device, a streaming C2H queue. */
  lemma OneAdded(qbase: nat, qmax: nat) returns (ops: seq<Op>)
    requires qmax > 0
    ensures var t := Fresh(qbase, qmax, Caps(true, true, true));
      t.Inv() && var u := Run(t, ops);
      && u.qmax == qmax && u.qbase == qbase && u.At(Queue(C2H, 0)) == Slot(Enabled, true, 0)
      && (forall ty | ty != C2H :: !u.Present(Queue(ty, 0)))
  {
    hide Table.Agree, Table.Counted, Table.Contexts, AccessOrder, Cleared, Written, Usable;
    var q := Queue(C2H, 0);
    var t0 := Fresh(qbase, qmax, Caps(true, true, true));
    Reachable(qbase, qmax, Caps(true, true, true), []);
    assert Usable(t0.h2c[0], t0.c2h[0], t0.cmpt[0], C2H, true) by { MaskMeaning(t0.h2c[0], t0.c2h[0], t0.cmpt[0], C2H, true); }
    NoneInUse(qmax, false);
    var add := AddOp(q, true, 0, true, true);
    RunStep(t0, [], add);
    assert Run(t0, []) == t0 && Run(t0, [] + [add]) == Add(t0, q, true, 0);
    ops := [] + [add];
  }

  /** It fails to start when the third write and the clean-up after it fail: two of its contexts
      are valid although it is not online. */
  lemma ContextLeftByStart(qbase: nat, qmax: nat) returns (ops: seq<Op>)
    requires qmax > 0
    ensures var t := Fresh(qbase, qmax, Caps(true, true, true));
      && t.Inv() && var u := Run(t, ops);
      && u.qmax == qmax && u.At(Queue(C2H, 0)).state == Enabled && u.Orphan(Sw(C2H, qbase)) && u.Orphan(Prefetch(qbase))
  {
    hide Table.Agree, Table.Counted, Table.Contexts, AccessOrder, Cleared, Table.Orphan, Usable, Fresh, Run;
    var q, fault := Queue(C2H, 0), ProgramFault(0, 5, 2, 0);
    var t0 := Fresh(qbase, qmax, Caps(true, true, true));
    var added := OneAdded(qbase, qmax);
    var t1 := Run(t0, added);
    RunStep(t0, added, StartOp(qmax, fault));
    assert WriteOrder(C2H, qbase, true)[..2] == [Sw(C2H, qbase), Prefetch(qbase)];
    assert |AccessOrder(C2H, qbase, true)| <= 5;
    StartEndsOrphans(t1, q, fault, Sw(C2H, qbase));
    StartEndsOrphans(t1, q, fault, Prefetch(qbase));
    ops := added + [StartOp(qmax, fault)];
  }

  lemma OneOnline(qbase: nat, qmax: nat) returns (ops: seq<Op>)
    requires qmax > 0
    ensures var t := Fresh(qbase, qmax, Caps(true, true, true));
      t.Inv() && var u := Run(t, ops);
      && u.qmax == qmax && u.qbase == qbase && u.At(Queue(C2H, 0)) == Slot(Online, true, 0)
      && (forall ty | ty != C2H :: !u.Present(Queue(ty, 0)))
  {
    hide Table.Agree, Table.Counted, Table.Contexts, AccessOrder, Cleared, Written, Usable, Fresh, Run;
    var added := OneAdded(qbase, qmax);
    RunStep(Fresh(qbase, qmax, Caps(true, true, true)), added, StartOp(qmax, NoFault));
    ops := added + [StartOp(qmax, NoFault)];
  }

  /** A streaming C2H queue is added, started, stopped with any one of its five accesses failing,
      and removed: its completion context is still valid, and belongs to nobody. */
  lemma ContextLeftBehind(qbase: nat, qmax: nat, f: nat) returns (ops: seq<Op>)
    requires qmax > 0 && f < 5
    ensures var t := Fresh(qbase, qmax, Caps(true, true, true));
      && t.Inv() && Run(t, ops).Orphan(Completion(qbase))
      && (forall ty :: !Run(t, ops).Present(Queue(ty, 0)))
  {
    hide Table.Agree, Table.Counted, Table.Contexts, AccessOrder, Cleared, Table.Orphan, Usable, Fresh, Run;
    var q := Queue(C2H, 0);
    var t0 := Fresh(qbase, qmax, Caps(true, true, true));
    var stop, remove := StopOp(qmax, Some(f)), RemoveOp(qmax);
    var online := OneOnline(qbase, qmax);
    var t2 := Run(t0, online);
    RunStep(t0, online, stop);
    FiveAccesses(qbase, f);
    StopLeavesOrphans(t2, q, Some(f), Completion(qbase));
    RunStep(t0, online + [stop], remove);
    OthersKeepOrphans(Run(t0, online + [stop]), remove, Completion(qbase));
    ops := online + [stop] + [remove];
  }

  lemma FiveAccesses(qid: nat, f: nat)
    requires f < 5
    ensures Completion(qid) !in Reached(AccessOrder(C2H, qid, true), Some(f)) && Completion(qid) in Written(C2H, qid, true)
  {
    var order := AccessOrder(C2H, qid, true);
    assert order[4] == Completion(qid);
    assert forall i | 0 <= i < f :: order[..f][i] == order[i];
  }
}
