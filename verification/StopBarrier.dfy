/** The barrier through which the worker processes of the performance tool stop their queues:
    every worker raises a flag, the worker in control of a queue waits for the flags of all its
    workers, stops it and announces that, and nobody releases memory before. */
module StopBarrier {
  import opened Lists
  import opened ThreadTable

  datatype Pc = Running | Scanning(i: nat, found: nat) | Verdict(found: nat) | Sweeping(i: nat)
              | Stopping | Announcing | Awaiting | Freed

  /** `stream` selects the second wait, for the flags of all workers. `stops` logs the queues in
      the order they are stopped. */
  datatype State = State(stream: bool, wait: seq<bool>, pcs: seq<Pc>, stops: seq<Queue>, announced: set<int>)

  function AfterScan(c: Config, stream: bool, ctrl: bool): Pc
  {
    if stream && !c.mode.OnlyH2C? then Sweeping(0) else AfterSweep(ctrl)
  }

  function AfterSweep(ctrl: bool): Pc
  {
    if ctrl then Stopping else Awaiting
  }

  predicate Sized(c: Config, s: State)
  {
    |s.wait| == |s.pcs| == |Table(c)|
  }

  /** One step of worker `t`; each touches one shared flag at most. */
  function Step(c: Config, s: State, t: nat): (r: State)
    requires Sized(c, s) && t < |s.pcs|
    ensures Sized(c, r) && r.stream == s.stream
  {
    var ts := Table(c);
    var me := ts[t];
    match s.pcs[t]
    case Running =>
      s.(wait := s.wait[t := true],
         pcs := s.pcs[t := if me.ctrl then Scanning(0, 0) else AfterScan(c, s.stream, false)])
    case Scanning(i, found) =>
      var next :=
        if i >= |ts| then Verdict(found)
        else if ts[i].queue != me.queue then Scanning(i + 1, found)
        else if s.wait[i] then Scanning(i + 1, found + 1)
        else Verdict(found);
      s.(pcs := s.pcs[t := next])
    case Verdict(found) =>
      s.(pcs := s.pcs[t := if found != c.perQ then Scanning(0, 0) else AfterScan(c, s.stream, true)])
    case Sweeping(i) =>
      var next := if i >= |ts| then AfterSweep(me.ctrl) else if s.wait[i] then Sweeping(i + 1) else Sweeping(0);
      s.(pcs := s.pcs[t := next])
    case Stopping => s.(stops := s.stops + [me.queue], pcs := s.pcs[t := Announcing])
    case Announcing => s.(announced := s.announced + {StopSlot(c, me.queue)}, pcs := s.pcs[t := Awaiting])
    case Awaiting => if StopSlot(c, me.queue) in s.announced then s.(pcs := s.pcs[t := Freed]) else s
    case Freed => s
  }

  // ---- invariant ----

  ghost predicate MatesWait(c: Config, s: State, q: Queue, bound: nat)
    requires Sized(c, s)
  {
    forall u | 0 <= u < bound && u < |s.wait| && Table(c)[u].queue == q :: s.wait[u]
  }

  ghost predicate AllWait(s: State, bound: nat)
  {
    forall u | 0 <= u < bound && u < |s.wait| :: s.wait[u]
  }

  predicate Sweeps(c: Config, s: State)
  {
    s.stream && !c.mode.OnlyH2C?
  }

  ghost predicate PcOk(c: Config, s: State, t: nat)
    requires Sized(c, s) && t < |s.pcs|
  {
    var ts, me := Table(c), Table(c)[t];
    var n := |ts|;
    match s.pcs[t]
    case Running => true
    case Scanning(i, found) => me.ctrl && i <= n && found == Count(ts[..i], me.queue, false) && MatesWait(c, s, me.queue, i)
    case Verdict(found) => me.ctrl && (found == c.perQ ==> MatesWait(c, s, me.queue, n))
    case Sweeping(i) => i <= n && AllWait(s, i) && (me.ctrl ==> MatesWait(c, s, me.queue, n))
    case Stopping => me.ctrl && MatesWait(c, s, me.queue, n) && (Sweeps(c, s) ==> AllWait(s, n))
    case Announcing => me.ctrl
    case Awaiting => true
    case Freed => me.queue in s.stops
  }

  ghost predicate Inv(c: Config, s: State)
  {
    && c.Valid() && Sized(c, s)
    && (forall t | 0 <= t < |s.pcs| :: s.wait[t] <==> !s.pcs[t].Running?)
    && (forall t: nat | t < |s.pcs| :: PcOk(c, s, t))
    && Logged(c, s)
  }

  /** What the log and the announcements say about the workers in control. */
  ghost predicate Logged(c: Config, s: State)
    requires Sized(c, s)
  {
    && NoDup(s.stops)
    && (forall q | q in s.stops :: Justified(c, s, q))
    && (forall t: nat | t < |s.pcs| && Table(c)[t].ctrl :: CtrlLogged(c, s, t))
    && (forall t: nat | t < |s.pcs| :: SlotLogged(c, s, t))
  }

  /** A stopped queue has all its workers waiting, and where that is asked for all workers. */
  ghost predicate Justified(c: Config, s: State, q: Queue)
    requires Sized(c, s)
  {
    MatesWait(c, s, q, |s.wait|) && (Sweeps(c, s) ==> AllWait(s, |s.wait|))
  }

  predicate CtrlLogged(c: Config, s: State, t: nat)
    requires Sized(c, s) && t < |s.pcs|
  {
    && (Table(c)[t].queue in s.stops <==> s.pcs[t].Announcing? || s.pcs[t].Awaiting? || s.pcs[t].Freed?)
    && (s.pcs[t].Awaiting? || s.pcs[t].Freed? ==> StopSlot(c, Table(c)[t].queue) in s.announced)
  }

  predicate SlotLogged(c: Config, s: State, t: nat)
    requires Sized(c, s) && t < |s.pcs|
  {
    StopSlot(c, Table(c)[t].queue) in s.announced ==> Table(c)[t].queue in s.stops
  }

  lemma CountBefore(ts: seq<Thread>, i: nat, q: Queue)
    requires i < |ts|
    ensures Count(ts[..i + 1], q, false) == Count(ts[..i], q, false) + (if ts[i].queue == q then 1 else 0)
    ensures ts[i].queue == q ==> Count(ts[..i], q, false) < Count(ts, q, false)
  {
    assert ts[..i + 1][..i] == ts[..i];
    assert ts == ts[..i + 1] + ts[i + 1..];
    CountConcat(ts[..i + 1], ts[i + 1..], q, false);
  }

  /** Flags and announcements only go up. */
  ghost predicate Later(c: Config, s: State, r: State)
    requires Sized(c, s) && Sized(c, r)
  {
    && r.stream == s.stream && (forall u | 0 <= u < |s.wait| :: s.wait[u] ==> r.wait[u])
    && (forall q | q in s.stops :: q in r.stops) && s.announced <= r.announced
  }

  lemma PcStays(c: Config, s: State, r: State, u: nat)
    requires Sized(c, s) && Sized(c, r) && Later(c, s, r) && u < |s.pcs| && s.pcs[u] == r.pcs[u] && PcOk(c, s, u)
    ensures PcOk(c, r, u)
  {
  }

  lemma StepOwnPc(c: Config, s: State, t: nat)
    requires Inv(c, s) && t < |s.pcs|
    ensures PcOk(c, Step(c, s, t), t)
  {
    hide Logged, Config.Valid, Config.Has, StopSlot, Table, Count;
    var ts := Table(c);
    var me := ts[t];
    assert PcOk(c, s, t);
    match s.pcs[t]
    case Scanning(i, found) =>
      TableServes(c, me.queue);
      CountSome(ts, me.queue, true, t);
      if i < |ts| {
        CountBefore(ts, i, me.queue);
      } else {
        assert ts[..i] == ts;
      }
    case Awaiting => assert SlotLogged(c, s, t) by { LogOf(c, s, t); }
    case _ =>
  }

  lemma LogOf(c: Config, s: State, t: nat)
    requires Sized(c, s) && Logged(c, s) && t < |s.pcs|
    ensures SlotLogged(c, s, t) && (Table(c)[t].ctrl ==> CtrlLogged(c, s, t))
  {
  }

  lemma StepLog(c: Config, s: State, t: nat)
    requires Inv(c, s) && t < |s.pcs|
    ensures Logged(c, Step(c, s, t))
  {
    hide PcOk, StopSlot, MatesWait, AllWait, Table, Config.Has, Config.Valid, Justified, CtrlLogged, SlotLogged;
    var r := Step(c, s, t);
    LogOf(c, s, t);
    if s.pcs[t].Stopping? {
      StoppingIsNew(c, s, t);
    }
    forall q | q in r.stops ensures Justified(c, r, q) {
      StepJustified(c, s, t, q);
    }
    forall v: nat | v < |r.pcs| && Table(c)[v].ctrl ensures CtrlLogged(c, r, v) {
      StepCtrl(c, s, t, v);
    }
    forall v: nat | v < |r.pcs| ensures SlotLogged(c, r, v) {
      StepSlot(c, s, t, v);
    }
  }

  lemma StoppingIsNew(c: Config, s: State, t: nat)
    requires Inv(c, s) && t < |s.pcs| && s.pcs[t].Stopping?
    ensures Table(c)[t].queue !in s.stops
  {
    assert PcOk(c, s, t);
    LogOf(c, s, t);
  }

  lemma StepJustified(c: Config, s: State, t: nat, q: Queue)
    requires Inv(c, s) && t < |s.pcs| && q in Step(c, s, t).stops
    ensures Justified(c, Step(c, s, t), q)
  {
    hide StopSlot, MatesWait, AllWait, Table, Config.Valid, CtrlLogged, SlotLogged;
    assert PcOk(c, s, t);
    assert Justified(c, s, q);
    FlagsKept(c, s, Step(c, s, t), q);
  }

  lemma StepCtrl(c: Config, s: State, t: nat, v: nat)
    requires Inv(c, s) && t < |s.pcs| && v < |s.pcs| && Table(c)[v].ctrl
    ensures CtrlLogged(c, Step(c, s, t), v)
  {
    hide StopSlot, MatesWait, AllWait, Table, Config.Has, Config.Valid, Justified, SlotLogged;
    LogOf(c, s, v);
    assert PcOk(c, s, t);
    if v != t && Table(c)[t].ctrl {
      var u := OneController(c, t);
      assert Table(c)[v].queue != Table(c)[t].queue;
    }
  }

  lemma StepSlot(c: Config, s: State, t: nat, v: nat)
    requires Inv(c, s) && t < |s.pcs| && v < |s.pcs|
    ensures SlotLogged(c, Step(c, s, t), v)
  {
    hide StopSlot, MatesWait, AllWait, Table, Config.Has, Config.Valid, Justified;
    LogOf(c, s, v);
    LogOf(c, s, t);
    assert PcOk(c, s, t);
    var u := OneController(c, t);
    var w := OneController(c, v);
    SlotsDistinct(c, Table(c)[v].queue, Table(c)[t].queue);
  }

  lemma FlagsKept(c: Config, s: State, r: State, q: Queue)
    requires Sized(c, s) && Sized(c, r) && Later(c, s, r)
    ensures Justified(c, s, q) ==> Justified(c, r, q)
  {
  }

  lemma StepKeepsInv(c: Config, s: State, t: nat)
    requires Inv(c, s) && t < |s.pcs|
    ensures Inv(c, Step(c, s, t))
  {
    hide PcOk, Logged, Table, StopSlot;
    var r := Step(c, s, t);
    StepOwnPc(c, s, t);
    StepLog(c, s, t);
    forall u: nat | u < |s.pcs| ensures PcOk(c, r, u) {
      if u != t {
        PcStays(c, s, r, u);
      }
    }
  }

  // ---- safety over every interleaving ----

  function Run(c: Config, s: State, schedule: seq<nat>): (r: State)
    requires Sized(c, s)
    ensures Sized(c, r)
    decreases |schedule|
  {
    if schedule == [] then s
    else Run(c, if schedule[0] < |s.pcs| then Step(c, s, schedule[0]) else s, schedule[1..])
  }

  function Initial(c: Config, stream: bool): State
  {
    var n := |Table(c)|;
    State(stream, seq(n, _ => false), seq(n, _ => Running), [], {})
  }

  lemma {:induction false} RunKeepsInv(c: Config, s: State, schedule: seq<nat>)
    requires Inv(c, s)
    ensures Inv(c, Run(c, s, schedule)) && Run(c, s, schedule).stream == s.stream
    decreases |schedule|
  {
    hide PcOk, Logged, Step;
    if schedule != [] {
      if schedule[0] < |s.pcs| {
        StepKeepsInv(c, s, schedule[0]);
        RunKeepsInv(c, Step(c, s, schedule[0]), schedule[1..]);
      } else {
        RunKeepsInv(c, s, schedule[1..]);
      }
    }
  }

  lemma InitialInv(c: Config, stream: bool)
    requires c.Valid()
    ensures Inv(c, Initial(c, stream))
  {
    hide Table, StopSlot;
    var s := Initial(c, stream);
    assert forall t: nat | t < |s.pcs| :: PcOk(c, s, t) && CtrlLogged(c, s, t) && SlotLogged(c, s, t);
  }

  /** Whatever the interleaving: no queue is stopped twice; a stopped queue has all its workers
      waiting (all workers of the tool, where that is asked for); and a worker that has released
      its memory has had its queue stopped. */
  lemma BarrierSafe(c: Config, stream: bool, schedule: seq<nat>)
    requires c.Valid()
    ensures var s := Run(c, Initial(c, stream), schedule);
      && NoDup(s.stops)
      && (forall q, t | q in s.stops && 0 <= t < |s.wait| && Table(c)[t].queue == q :: s.wait[t])
      && (stream && !c.mode.OnlyH2C? ==> forall q, t | q in s.stops && 0 <= t < |s.wait| :: s.wait[t])
      && (forall t | 0 <= t < |s.pcs| && s.pcs[t].Freed? :: Table(c)[t].queue in s.stops)
  {
    hide Table, StopSlot;
    var s := Initial(c, stream);
    InitialInv(c, stream);
    RunKeepsInv(c, s, schedule);
    var r := Run(c, s, schedule);
    forall t | 0 <= t < |r.pcs| && r.pcs[t].Freed? ensures Table(c)[t].queue in r.stops {
      assert PcOk(c, r, t);
    }
    forall q, t | q in r.stops && 0 <= t < |r.wait| ensures Table(c)[t].queue == q ==> r.wait[t] {
      assert Justified(c, r, q);
    }
  }

  // ---- no more waiting than that ----

  predicate NoneSweeps(s: State)
  {
    forall t | 0 <= t < |s.pcs| :: !s.pcs[t].Sweeping?
  }

  lemma StepSweepsNot(c: Config, s: State, t: nat)
    requires Sized(c, s) && !Sweeps(c, s) && t < |s.pcs| && NoneSweeps(s)
    ensures NoneSweeps(Step(c, s, t))
  {
    hide Table, StopSlot;
  }

  /** Where the second wait is not asked for, no worker ever enters it. */
  lemma {:induction false} NeverSweeping(c: Config, s: State, schedule: seq<nat>)
    requires Sized(c, s) && !Sweeps(c, s) && NoneSweeps(s)
    ensures NoneSweeps(Run(c, s, schedule))
    decreases |schedule|
  {
    hide Step, Table, NoneSweeps;
    if schedule != [] {
      var t := schedule[0];
      if t < |s.pcs| {
        StepSweepsNot(c, s, t);
        NeverSweeping(c, Step(c, s, t), schedule[1..]);
      } else {
        NeverSweeping(c, s, schedule[1..]);
      }
    }
  }

  /** From the start of the tool on. */
  lemma NoSecondWait(c: Config, stream: bool, schedule: seq<nat>)
    requires !stream || c.mode.OnlyH2C?
    ensures NoneSweeps(Run(c, Initial(c, stream), schedule))
  {
    hide Table, Run;
    NeverSweeping(c, Initial(c, stream), schedule);
  }

  /** How many steps of its own the controller of a queue is from stopping it, when the flags of
      its workers are up and no other flags are asked for. */
  function ToStop(c: Config, pc: Pc): nat
  {
    var n := |Table(c)|;
    match pc
    case Stopping => 1
    case Verdict(found) => if found == c.perQ then 2 else n + 4 + n
    case Scanning(i, _) => if i <= n then 3 + (n - i) else 3
    case _ => 0
  }

  lemma OwnStep(c: Config, s: State, t: nat)
    requires Inv(c, s) && !Sweeps(c, s) && t < |s.pcs| && Table(c)[t].ctrl && !s.pcs[t].Running? && !s.pcs[t].Sweeping?
    requires MatesWait(c, s, Table(c)[t].queue, |s.wait|)
    ensures var r := Step(c, s, t);
      && !r.pcs[t].Running? && !r.pcs[t].Sweeping? && MatesWait(c, r, Table(c)[t].queue, |r.wait|)
      && (ToStop(c, s.pcs[t]) > 0 ==> ToStop(c, r.pcs[t]) < ToStop(c, s.pcs[t]))
      && (ToStop(c, s.pcs[t]) == 0 ==> ToStop(c, r.pcs[t]) == 0)
  {
    hide Table, StopSlot, Logged, Count, Config.Has, Config.Valid;
    assert PcOk(c, s, t);
    match s.pcs[t]
    case Scanning(i, found) =>
      if i == |Table(c)| {
        TableServes(c, Table(c)[t].queue);
        var o := OneController(c, t);
        assert Table(c)[..i] == Table(c);
      } else {
        assert Table(c)[i].queue == Table(c)[t].queue ==> s.wait[i];
      }
    case _ =>
  }

  function Alone(t: nat, k: nat): (r: seq<nat>)
    ensures |r| == k
  {
    seq(k, _ => t)
  }

  /** Outside the streaming modes with C2H, once all workers of a queue wait, its controller stops
      it by its own steps alone, whatever all the other workers do or do not. */
  lemma {:induction false} StopsAlone(c: Config, s: State, t: nat, k: nat)
    requires Inv(c, s) && !Sweeps(c, s) && t < |s.pcs| && Table(c)[t].ctrl && !s.pcs[t].Running? && !s.pcs[t].Sweeping?
    requires MatesWait(c, s, Table(c)[t].queue, |s.wait|) && k >= ToStop(c, s.pcs[t])
    ensures Table(c)[t].queue in Run(c, s, Alone(t, k)).stops
    decreases k
  {
    hide Table, StopSlot, MatesWait, PcOk, Step;
    if k == 0 {
      StoppedBy(c, s, t);
    } else {
      assert Alone(t, k)[1..] == Alone(t, k - 1);
      OwnStep(c, s, t);
      StepKeepsInv(c, s, t);
      StopsAlone(c, Step(c, s, t), t, k - 1);
    }
  }

  lemma StoppedBy(c: Config, s: State, t: nat)
    requires Inv(c, s) && t < |s.pcs| && Table(c)[t].ctrl && !s.pcs[t].Running? && !s.pcs[t].Sweeping?
    requires ToStop(c, s.pcs[t]) == 0
    ensures Table(c)[t].queue in s.stops
  {
    hide Table, StopSlot, PcOk;
    LogOf(c, s, t);
  }

  // ---- progress ----

  /** Every worker has entered the clean-up. */
  predicate Entered(s: State)
  {
    forall t | 0 <= t < |s.pcs| :: !s.pcs[t].Running?
  }

  predicate Finished(s: State)
  {
    forall t | 0 <= t < |s.pcs| :: s.pcs[t].Freed?
  }

  /** How far a worker still has to go when all flags are up. */
  function Left(c: Config, pc: Pc): nat
  {
    var n := |Table(c)|;
    match pc
    case Freed => 0
    case Awaiting => 1
    case Announcing => 2
    case Stopping => 3
    case Sweeping(i) => if i <= n then 4 + (n - i) else 4
    case Verdict(found) => if found == c.perQ then n + 5 else 2 * n + 7
    case Scanning(i, _) => if i <= n then n + 6 + (n - i) else n + 6
    case Running => 2 * n + 8
  }

  function Total(c: Config, pcs: seq<Pc>): nat
  {
    if pcs == [] then 0 else Left(c, pcs[0]) + Total(c, pcs[1..])
  }

  lemma {:induction false} TotalUpdate(c: Config, pcs: seq<Pc>, t: nat, pc: Pc)
    requires t < |pcs|
    ensures Total(c, pcs[t := pc]) == Total(c, pcs) - Left(c, pcs[t]) + Left(c, pc)
  {
    if t == 0 {
      assert pcs[0 := pc][1..] == pcs[1..];
    } else {
      TotalUpdate(c, pcs[1..], t - 1, pc);
      assert pcs[t := pc][1..] == pcs[1..][t - 1 := pc];
    }
  }

  lemma {:induction false} NothingLeft(c: Config, pcs: seq<Pc>)
    requires Total(c, pcs) == 0
    ensures forall t | 0 <= t < |pcs| :: pcs[t].Freed?
  {
    if pcs != [] {
      NothingLeft(c, pcs[1..]);
    }
  }

  /** The worker is not merely spinning on an announcement that has not been made. */
  predicate Moves(c: Config, s: State, t: nat)
    requires Sized(c, s)
  {
    && t < |s.pcs| && !s.pcs[t].Freed?
    && (s.pcs[t].Awaiting? ==> StopSlot(c, Table(c)[t].queue) in s.announced)
  }

  /** With all flags up, a worker that moves comes closer to its end, and any other stays. */
  lemma PcProgress(c: Config, s: State, t: nat)
    requires Inv(c, s) && Entered(s) && t < |s.pcs|
    ensures var r := Step(c, s, t); r.pcs == s.pcs[t := r.pcs[t]] && !r.pcs[t].Running?
    ensures if Moves(c, s, t) then Left(c, Step(c, s, t).pcs[t]) < Left(c, s.pcs[t]) else Step(c, s, t) == s
  {
    hide Table, StopSlot, Logged, MatesWait, AllWait, Count, Config.Has, Config.Valid;
    assert PcOk(c, s, t);
    assert s.wait[t];
    match s.pcs[t]
    case Scanning(i, found) =>
      if i == |Table(c)| {
        var o := OneController(c, t);
        TableServes(c, Table(c)[t].queue);
        assert Table(c)[..i] == Table(c);
      } else {
        assert s.wait[i];
      }
    case Sweeping(i) =>
      if i < |Table(c)| {
        assert s.wait[i];
      }
    case _ =>
  }

  lemma StepProgress(c: Config, s: State, t: nat)
    requires Inv(c, s) && Entered(s) && t < |s.pcs|
    ensures Entered(Step(c, s, t)) && Sized(c, Step(c, s, t))
    ensures if Moves(c, s, t) then Total(c, Step(c, s, t).pcs) < Total(c, s.pcs) else Step(c, s, t) == s
    ensures forall u | u != t && Moves(c, s, u) :: Moves(c, Step(c, s, t), u)
  {
    hide Table, StopSlot, Logged, PcOk, Left;
    var r := Step(c, s, t);
    PcProgress(c, s, t);
    TotalUpdate(c, s.pcs, t, r.pcs[t]);
  }

  /** Some worker moves as long as one has not finished: if all others only wait for an
      announcement, the worker in control of that queue has made it. */
  lemma SomeoneMoves(c: Config, s: State) returns (t: nat)
    requires Inv(c, s) && Entered(s) && !Finished(s)
    ensures Moves(c, s, t)
  {
    hide Table, StopSlot, PcOk;
    t :| t < |s.pcs| && !s.pcs[t].Freed?;
    if !Moves(c, s, t) {
      var u := OneController(c, t);
      LogOf(c, s, u);
      t := u;
    }
  }

  /** A worker that moves keeps being able to until it is scheduled, so a stretch of schedule in
      which it occurs brings the tool closer to its end. */
  lemma {:induction false} StretchProgress(c: Config, s: State, schedule: seq<nat>, t: nat)
    requires Inv(c, s) && Entered(s)
    ensures var r := Run(c, s, schedule); Inv(c, r) && Entered(r) && Total(c, r.pcs) <= Total(c, s.pcs)
    ensures Moves(c, s, t) && t in schedule ==> Total(c, Run(c, s, schedule).pcs) < Total(c, s.pcs)
    decreases |schedule|
  {
    hide PcOk, Logged, Step, Moves, Total;
    if schedule != [] {
      var r := s;
      if schedule[0] < |s.pcs| {
        StepKeepsInv(c, s, schedule[0]);
        StepProgress(c, s, schedule[0]);
        r := Step(c, s, schedule[0]);
      }
      if t == schedule[0] && Moves(c, s, t) {
        MovesInRange(c, s, t);
      }
      StretchProgress(c, r, schedule[1..], t);
    }
  }

  lemma MovesInRange(c: Config, s: State, t: nat)
    requires Sized(c, s) && Moves(c, s, t)
    ensures t < |s.pcs|
  {
  }

  function Joined(rounds: seq<seq<nat>>): seq<nat>
  {
    if rounds == [] then [] else rounds[0] + Joined(rounds[1..])
  }

  lemma {:induction false} RunJoin(c: Config, s: State, a: seq<nat>, b: seq<nat>)
    requires Sized(c, s)
    ensures Run(c, s, a + b) == Run(c, Run(c, s, a), b)
    decreases |a|
  {
    hide Step;
    if a == [] {
      assert a + b == b;
    } else {
      RunJoin(c, if a[0] < |s.pcs| then Step(c, s, a[0]) else s, a[1..], b);
      assert (a + b)[0] == a[0] && (a + b)[1..] == a[1..] + b;
    }
  }

  /** Once all workers have entered, any schedule made of enough rounds, each giving every worker
      at least one step in any order and with any repetition, ends with all of them finished. */
  lemma {:induction false} BarrierFinishes(c: Config, s: State, rounds: seq<seq<nat>>)
    requires Inv(c, s) && Entered(s) && |rounds| >= Total(c, s.pcs)
    requires forall i, t | 0 <= i < |rounds| && 0 <= t < |s.pcs| :: t in rounds[i]
    ensures Finished(Run(c, s, Joined(rounds)))
    decreases |rounds|
  {
    hide PcOk, Logged, Step, Moves, Run;
    if rounds == [] {
      NothingLeft(c, s.pcs);
      RunJoin(c, s, [], []);
      assert Run(c, s, []) == s by { RunNone(c, s); }
    } else {
      var r := Run(c, s, rounds[0]);
      RunJoin(c, s, rounds[0], Joined(rounds[1..]));
      if Finished(s) {
        StretchProgress(c, s, Joined(rounds), 0);
        AllFreed(c, s);
        NothingLeft(c, Run(c, s, Joined(rounds)).pcs);
      } else {
        var t := SomeoneMoves(c, s);
        MovesInRange(c, s, t);
        StretchProgress(c, s, rounds[0], t);
        BarrierFinishes(c, r, rounds[1..]);
      }
    }
  }

  lemma RunNone(c: Config, s: State)
    requires Sized(c, s)
    ensures Run(c, s, []) == s
  {
  }

  lemma AllFreed(c: Config, s: State)
    requires Finished(s)
    ensures Total(c, s.pcs) == 0
  {
    NoneLeft(c, s.pcs);
  }

  lemma {:induction false} NoneLeft(c: Config, pcs: seq<Pc>)
    requires forall t | 0 <= t < |pcs| :: pcs[t].Freed?
    ensures Total(c, pcs) == 0
  {
    if pcs != [] {
      NoneLeft(c, pcs[1..]);
    }
  }

  /** And then every queue the tool serves has been stopped, exactly once. */
  lemma AllStopped(c: Config, s: State, q: Queue)
    requires Inv(c, s) && Finished(s) && c.Has(q) && c.perQ > 0
    ensures multiset(s.stops)[q] == 1
  {
    TableServes(c, q);
    var t := Witness(Table(c), q, false);
    assert PcOk(c, s, t);
    Once(s.stops, q);
  }

  lemma {:induction false} Once(q: seq<Queue>, x: Queue)
    requires x in q && NoDup(q)
    ensures multiset(q)[x] == 1
  {
    assert q == [q[0]] + q[1..];
    if q[0] == x {
      assert x !in q[1..];
    } else {
      Once(q[1..], x);
    }
  }
}
