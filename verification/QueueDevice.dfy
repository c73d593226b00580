/** The calls on queues as the driver makes them, against the table of QueueTable. */
module QueueDevice {
  import opened Errno
  import Bits
  import opened QueueTable

  datatype Access = Clear | Invalidating | Write

  /** The contexts after one kind of access to a set of keys. */
  function Touched(access: Access, ctx: map<CtxKey, Ctx>, keys: set<CtxKey>, q: Queue): (r: map<CtxKey, Ctx>)
    ensures access.Clear? ==> r == ctx - keys
    ensures access.Invalidating? ==> r == Invalidate(ctx, keys)
  {
    match access
    case Clear => ctx - keys
    case Invalidating => Invalidate(ctx, keys)
    case Write => map k | k in ctx.Keys + keys :: if k in keys then Ctx(true, q) else ctx[k]
  }

  lemma TouchNone(access: Access, ctx: map<CtxKey, Ctx>, q: Queue)
    ensures Touched(access, ctx, Keys([]), q) == ctx
  {
  }

  /** One more access after those made so far. */
  lemma Joined(access: Access, ctx: map<CtxKey, Ctx>, q: Queue, done: seq<CtxKey>, k: CtxKey)
    ensures Touched(access, Touched(access, ctx, Keys(done), q), {k}, q) == Touched(access, ctx, Keys(done + [k]), q)
  {
  }

  lemma ClearedThenWritten(ctx: map<CtxKey, Ctx>, clear: set<CtxKey>, write: set<CtxKey>, q: Queue)
    ensures Touched(Write, ctx - clear, write, q) == Program(ctx, clear, write, q)
  {
  }

  /** Nothing is written: only cleared. */
  lemma OnlyCleared(ctx: map<CtxKey, Ctx>, clear: set<CtxKey>, q: Queue)
    ensures Program(ctx, clear, Keys([]), q) == ctx - clear
  {
  }

  // ---- when the hardware fails ----

  /** How many accesses succeed before the next failure, and between the later ones; empty when
      none fails any more. */
  type Failures = seq<nat>

  /** What is left of them after `n` accesses that succeeded. */
  function Used(fs: Failures, n: nat): Failures
    requires fs != [] ==> n <= fs[0]
  {
    if fs == [] then [] else [fs[0] - n] + fs[1..]
  }

  /** How far a row of `n` accesses gets. */
  function Gets(fs: Failures, n: nat): nat
  {
    if fs != [] && fs[0] < n then fs[0] else n
  }

  /** What is left of the failures after a row of `n` accesses, however far it got. */
  function Rest(fs: Failures, n: nat): Failures
  {
    if Gets(fs, n) == n then Used(fs, n) else fs[1..]
  }

  /** How many of `m` writes are made after `n` accesses to clear. */
  function PutIn(fs: Failures, n: nat, m: nat): nat
  {
    if Gets(fs, n) < n then 0 else Gets(Used(fs, n), m)
  }

  /** The fault that a start runs into, with `n` accesses to clear and `m` to write. */
  function Faced(fs: Failures, n: nat, m: nat, hwError: int, indices: int): (f: Fault)
    requires hwError < 0 && indices <= 0
    ensures f.ProgramFault? || f.NoFault?
  {
    var ok := Gets(fs, n + m) == n + m;
    if ok && indices == 0 then NoFault
    else ProgramFault(-1 - (if ok then indices else hwError), Gets(fs, n), PutIn(fs, n, m), Gets(Rest(fs, n + m), n))
  }

  lemma GetsAtMost(fs: Failures, n: nat)
    ensures Gets(fs, n) <= n
    ensures if Gets(fs, n) == n then (fs != [] ==> n <= fs[0]) && Rest(fs, n) == Used(fs, n) else fs != [] && Rest(fs, n) == fs[1..]
  {
  }

  lemma WholeRow(fs: Failures, n: nat, m: nat)
    ensures Gets(fs, n + m) == n + m <==> Gets(fs, n) == n && PutIn(fs, n, m) == m
    ensures Gets(fs, n) == n ==> Rest(Used(fs, n), m) == Rest(fs, n + m)
    ensures Gets(fs, n) < n ==> fs[1..] == Rest(fs, n + m)
  {
  }

  class Device {
    const qbase: nat
    const qmax: nat
    const caps: Caps
    const h2c: array<Slot>
    const c2h: array<Slot>
    const cmpt: array<Slot>
    var ctx: map<CtxKey, Ctx>
    var active: Counters
    var failures: Failures

    ghost predicate Valid()
      reads this, h2c, c2h, cmpt
    {
      h2c != c2h && c2h != cmpt && h2c != cmpt && h2c.Length == c2h.Length == cmpt.Length == qmax && View().Inv()
    }

    ghost function View(): Table
      reads this, h2c, c2h, cmpt
    {
      Table(qbase, qmax, caps, h2c[..], c2h[..], cmpt[..], ctx, active)
    }

    constructor (qbase: nat, qmax: nat, caps: Caps)
      ensures Valid() && View() == Fresh(qbase, qmax, caps) && failures == []
    {
      this.qbase, this.qmax, this.caps := qbase, qmax, caps;
      h2c := new Slot[qmax](i => Slot(Disabled, false, 0));
      c2h := new Slot[qmax](i => Slot(Disabled, false, 0));
      cmpt := new Slot[qmax](i => Slot(Disabled, false, 0));
      ctx, active, failures := map[], Counters(0, 0, 0), [];
      new;
      Reachable(qbase, qmax, caps, []);
      assert View() == Fresh(qbase, qmax, caps);
    }

    function Ring(ty: QType): array<Slot>
    {
      match ty case H2C => h2c case C2H => c2h case CMPT => cmpt
    }

    /** The number of the access that will fail, if one will. */
    function FailAt(): Option<nat>
      reads this`failures
    {
      if failures == [] then None else Some(failures[0])
    }

    /** One access to a context in the hardware. */
    method HwAccess(access: Access, k: CtxKey, q: Queue) returns (ok: bool)
      modifies this`ctx, this`failures
      ensures ok <==> old(failures) == [] || old(failures)[0] != 0
      ensures failures == if ok then Used(old(failures), 1) else old(failures)[1..]
      ensures ctx == if ok then Touched(access, old(ctx), {k}, q) else old(ctx)
    {
      if failures != [] && failures[0] == 0 {
        failures := failures[1..];
        return false;
      }
      failures := Used(failures, 1);
      match access {
        case Clear => ctx := ctx - {k};
        case Invalidating => ctx := Invalidate(ctx, {k});
        case Write => ctx := ctx[k := Ctx(true, q)];
      }
      return true;
    }

    /** The accesses `done` of a row have been made, and the next is to `k`. */
    ghost predicate Midway(access: Access, q: Queue, row: seq<CtxKey>, done: seq<CtxKey>, before: map<CtxKey, Ctx>, fs: Failures)
      reads this`ctx, this`failures
    {
      && |done| <= |row| && row[..|done|] == done
      && (fs != [] ==> |done| <= fs[0]) && failures == Used(fs, |done|)
      && ctx == Touched(access, before, Keys(done), q)
    }

    /** The next access of a row, and where it leaves the row. */
    method NextAccess(access: Access, k: CtxKey, q: Queue, ghost row: seq<CtxKey>, ghost done: seq<CtxKey>,
                      ghost before: map<CtxKey, Ctx>, ghost fs: Failures) returns (ok: bool, ghost now: seq<CtxKey>)
      requires Midway(access, q, row, done, before, fs) && |done| < |row| && row[|done|] == k
      modifies this`ctx, this`failures
      ensures if ok then now == done + [k] && Midway(access, q, row, now, before, fs)
              else Gets(fs, |row|) == |done| < |row| && failures == fs[1..] && ctx == Touched(access, before, Keys(Prefix(row, |done|)), q)
    {
      hide Touched, Keys;
      Joined(access, before, q, done, k);
      ok := HwAccess(access, k, q);
      now := if ok then done + [k] else done;
      assert ok ==> row[..|now|] == now;
    }

    /** `qdma_descq_context_clear`: clear or invalidate what a queue of this type and mode owns,
        in order. A failing access ends it. */
    method ContextClear(q: Queue, st: bool, clr: bool) returns (ok: bool)
      modifies this`ctx, this`failures
      ensures var order := AccessOrder(q.ty, qbase + q.idx, st);
        var reached := Prefix(order, Gets(old(failures), |order|));
        && (ok <==> Gets(old(failures), |order|) == |order|)
        && failures == Rest(old(failures), |order|)
        && ctx == if clr then old(ctx) - Keys(reached) else Invalidate(old(ctx), Keys(reached))
    {
      hide Touched, Invalidate, Keys;
      var access := if clr then Clear else Invalidating;
      var qid := qbase + q.idx;
      ghost var order := AccessOrder(q.ty, qid, st);
      ghost var before, done, fs := ctx, [], failures;
      TouchNone(access, before, q);
      if q.ty != CMPT {
        ok, done := NextAccess(access, Sw(q.ty, qid), q, order, done, before, fs);
        if !ok { return; }
        ok, done := NextAccess(access, Hw(q.ty, qid), q, order, done, before, fs);
        if !ok { return; }
        ok, done := NextAccess(access, Credit(q.ty, qid), q, order, done, before, fs);
        if !ok { return; }
        if st && q.ty == C2H {
          ok, done := NextAccess(access, Prefetch(qid), q, order, done, before, fs);
          if !ok { return; }
        }
      }
      if (st && q.ty == C2H) || (!st && q.ty == CMPT) {
        ok, done := NextAccess(access, Completion(qid), q, order, done, before, fs);
        if !ok { return; }
      }
      ok := true;
      assert done == order;
    }

    /** The writes of `qdma_descq_context_program`, in order. */
    method ContextWrite(q: Queue, st: bool) returns (ok: bool)
      modifies this`ctx, this`failures
      ensures var writes := WriteOrder(q.ty, qbase + q.idx, st);
        && (ok <==> Gets(old(failures), |writes|) == |writes|)
        && failures == Rest(old(failures), |writes|)
        && ctx == Touched(Write, old(ctx), Keys(Prefix(writes, Gets(old(failures), |writes|))), q)
    {
      hide Touched, Keys;
      var qid := qbase + q.idx;
      ghost var writes := WriteOrder(q.ty, qid, st);
      ghost var before, done, fs := ctx, [], failures;
      TouchNone(Write, before, q);
      if q.ty != CMPT {
        ok, done := NextAccess(Write, Sw(q.ty, qid), q, writes, done, before, fs);
        if !ok { return; }
        if st && q.ty == C2H {
          ok, done := NextAccess(Write, Prefetch(qid), q, writes, done, before, fs);
          if !ok { return; }
        }
      }
      if (st && q.ty == C2H) || (!st && q.ty == CMPT) {
        ok, done := NextAccess(Write, Completion(qid), q, writes, done, before, fs);
        if !ok { return; }
      }
      ok := true;
      assert done == writes;
    }

    /** `qdma_descq_context_program`: clear, then write. A failing access ends it. */
    method ContextProgram(q: Queue, st: bool) returns (ok: bool)
      modifies this`ctx, this`failures
      ensures var order, writes := AccessOrder(q.ty, qbase + q.idx, st), WriteOrder(q.ty, qbase + q.idx, st);
        var n, m, fs := |order|, |writes|, old(failures);
        && (ok <==> Gets(fs, n + m) == n + m)
        && failures == Rest(fs, n + m)
        && ctx == Program(old(ctx), Keys(Prefix(order, Gets(fs, n))), Keys(Made(order, writes, Gets(fs, n), PutIn(fs, n, m))), q)
    {
      hide Touched, Program, Keys, AccessOrder, WriteOrder, Prefix, Rest, Gets;
      ghost var order, writes := AccessOrder(q.ty, qbase + q.idx, st), WriteOrder(q.ty, qbase + q.idx, st);
      ghost var fs := failures;
      WholeRow(fs, |order|, |writes|);
      GetsAtMost(fs, |order|);
      ok := ContextClear(q, st, true);
      if !ok {
        OnlyCleared(old(ctx), Keys(Prefix(order, Gets(fs, |order|))), q);
        assert failures == fs[1..] by { GetsAtMost(fs, |order|); }
        return;
      }
      ok := ContextWrite(q, st);
      ClearedThenWritten(old(ctx), Keys(Prefix(order, Gets(fs, |order|))), Keys(Prefix(writes, Gets(Used(fs, |order|), |writes|))), q);
    }

    /** `qdma_dev_increment_active_queue` for one type. */
    method IncrementActive(ty: QType) returns (ok: bool)
      modifies this`active
      ensures ok <==> Active(old(active), ty) + 1 <= qmax
      ensures active == if ok then Increment(old(active), ty) else old(active)
    {
      ok := qmax >= Active(active, ty) + 1;
      if ok {
        active := Increment(active, ty);
      }
    }

    method SetSlot(q: Queue, s: Slot)
      requires Valid() && q.idx < qmax
      modifies Ring(q.ty)
      ensures View() == old(View()).With(q, s)
    {
      hide Table.Agree, Table.Contexts, Table.Counted;
      Ring(q.ty)[q.idx] := s;
    }

    /** `qdma_queue_add` with an explicit index. `valid` and `legacy` are the outcomes of
        validating the configuration and of taking the legacy interrupt. */
    method QueueAdd(q: Queue, st: bool, aperture: nat, valid: bool, legacy: bool) returns (rc: int)
      requires Valid()
      modifies this`active, Ring(q.ty)
      ensures Valid() && Outcome(View(), rc) == Apply(old(View()), AddOp(q, st, aperture, valid, legacy))
    {
      if st && q.ty == CMPT { return -EINVAL; }
      if q.ty == CMPT && !caps.mmCmpt { return -EINVAL; }
      if (st && !caps.st) || (!st && !caps.mm) { return -EINVAL; }
      if !valid { return -EINVAL; }
      if q.idx >= qmax { return -EINVAL; }
      if Active(active, q.ty) >= qmax { return -EIO; }
      if !Usable(h2c[q.idx], c2h[q.idx], cmpt[q.idx], q.ty, st) { return -EPERM; }
      if !legacy { return -EINVAL; }
      AddKeepsInv(View(), q, st, aperture);
      RoomToCount(View(), q, st);
      SetSlot(q, Slot(Enabled, st, aperture));
      var ok := IncrementActive(q.ty);
      assert ok;
      if st && q.ty == C2H {
        ok := IncrementActive(CMPT);
        assert ok;
      }
      rc := 0;
    }

    /** `qdma_queue_config`. */
    method QueueConfig(id: nat, aperture: nat, valid: bool) returns (rc: int)
      requires Valid()
      modifies h2c, c2h, cmpt
      ensures Valid() && Outcome(View(), rc) == Apply(old(View()), ConfigOp(id, aperture, valid))
    {
      ApplyKeepsInv(View(), ConfigOp(id, aperture, valid));
      var target := FromHandle(id, qmax);
      if target.None? { return -EINVAL; }
      var q := target.value;
      var s := Ring(q.ty)[q.idx];
      if s.state != Enabled { return -EINVAL; }
      if !valid { return -EINVAL; }
      SetSlot(q, s.(aperture := aperture));
      rc := 0;
    }

    /** `qdma_queue_start`. `engine` says that the descriptor engine allows the queue, `setup` is
        the outcome of completing the configuration and allocating the ring, `hwError` the code a
        failing context access is reported with, and `indices` the outcome of writing the initial
        indices to the device. */
    method QueueStart(id: nat, engine: bool, setup: int, hwError: int, indices: int) returns (rc: int, ghost fault: Fault)
      requires Valid() && setup <= 0 && hwError < 0 && indices <= 0
      modifies this`ctx, this`failures, h2c, c2h, cmpt
      ensures Valid() && Outcome(View(), rc) == Apply(old(View()), StartOp(id, fault))
      ensures FromHandle(id, qmax).Some? ==>
        var t, q := old(View()), FromHandle(id, qmax).value;
        fault == if !engine then Refused else if setup < 0 then SetupFault(-1 - setup)
                 else Faced(old(failures), |Order(t, q)|, |Writes(t, q)|, hwError, indices)
    {
      hide Table.Agree, Table.Counted, Table.Contexts, AccessOrder, WriteOrder, Program, Faced;
      rc, fault := 0, NoFault;
      var target := FromHandle(id, qmax);
      if target.None? { return -EINVAL, fault; }
      var q := target.value;
      fault := if !engine then Refused else if setup < 0 then SetupFault(-1 - setup)
               else Faced(failures, |Order(View(), q)|, |Writes(View(), q)|, hwError, indices);
      var s := Ring(q.ty)[q.idx];
      if s.state != Enabled { return -EINVAL, fault; }
      if !engine { return -EINVAL, fault; }
      if s.aperture != 0 && Bits.And(s.aperture, s.aperture - 1) != 0 { return -ERANGE, fault; }
      if setup < 0 { return setup, fault; }
      rc, fault := BringOnline(q, hwError, indices);
    }

    /** The part of a start that reaches the hardware. What the clean-up after a failure achieves
        is not looked at. */
    method BringOnline(q: Queue, hwError: int, indices: int) returns (rc: int, ghost fault: Fault)
      requires Valid() && q.idx < qmax && View().At(q).state == Enabled && hwError < 0 && indices <= 0
      modifies this`ctx, this`failures, Ring(q.ty)
      ensures Valid() && Outcome(View(), rc) == Start(old(View()), q, fault)
      ensures var t := old(View()); fault == Faced(old(failures), |Order(t, q)|, |Writes(t, q)|, hwError, indices)
    {
      hide Table.Agree, Table.Counted, Table.Contexts, AccessOrder, WriteOrder, Program, Keys, Gets, Rest, PutIn;
      ghost var t := View();
      fault := Faced(failures, |Order(t, q)|, |Writes(t, q)|, hwError, indices);
      StartKeepsInv(t, q, fault);
      WholeRow(failures, |Order(t, q)|, |Writes(t, q)|);
      var s := Ring(q.ty)[q.idx];
      var ok := ContextProgram(q, s.st);
      if !ok || indices < 0 {
        rc := if ok then indices else hwError;
        ok := ContextClear(q, s.st, true);
        return;
      }
      rc := 0;
      Ring(q.ty)[q.idx] := s.(state := Online);
    }

    /** `qdma_queue_stop`; its requests are the business of the descriptor queue. The outcome of
        the invalidation is ignored: when an access fails, the queue is enabled all the same. */
    method QueueStop(id: nat) returns (rc: int)
      requires Valid()
      modifies this`ctx, this`failures, h2c, c2h, cmpt
      ensures Valid() && Outcome(View(), rc) == Apply(old(View()), StopOp(id, old(FailAt())))
    {
      hide Table.Agree, Table.Counted, Table.Contexts, AccessOrder, Invalidate, Keys;
      ApplyKeepsInv(View(), StopOp(id, FailAt()));
      var target := FromHandle(id, qmax);
      if target.None? { return -EINVAL; }
      var q := target.value;
      var s := Ring(q.ty)[q.idx];
      if s.state != Online { return -EINVAL; }
      SetSlot(q, s.(state := Enabled));
      var ok := ContextClear(q, s.st, false);
      rc := 0;
    }

    /** `qdma_queue_remove`. */
    method QueueRemove(id: nat) returns (rc: int)
      requires Valid()
      modifies this`active, h2c, c2h, cmpt
      ensures Valid() && Outcome(View(), rc) == Apply(old(View()), RemoveOp(id))
    {
      ApplyKeepsInv(View(), RemoveOp(id));
      var target := FromHandle(id, qmax);
      if target.None? { return -EINVAL; }
      var q := target.value;
      var s := Ring(q.ty)[q.idx];
      if s.state != Enabled { return -EINVAL; }
      active := Decrement(active, q.ty);
      if s.st && q.ty == C2H {
        active := Decrement(active, CMPT);
      }
      Ring(q.ty)[q.idx] := s.(state := Disabled);
      rc := 0;
    }
  }
}
