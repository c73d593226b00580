/** The two threads of one queue in the streaming tool: one submits requests behind a gate on
    the number outstanding, the other takes completions and gives the blocks back. Both work on
    a pool of control blocks and a pool of data blocks. */
module FlowControl {
  import Ring
  import opened BlockPool
  import opened Lists

  /** One pool and who holds its blocks: the submitter, requests in flight (oldest first), and
      the completion being taken, before and after the length of its block is zeroed. */
  datatype Side = Side(pool: Pool, zeroing: seq<nat>, done: seq<nat>, flight: seq<nat>, held: seq<nat>)
  {
    function Owned(): seq<nat>
    {
      zeroing + (done + flight + held)
    }

    /** No block has two owners, and the blocks marked as used are exactly the owned ones. */
    ghost predicate Inv()
    {
      && NoDup(Owned())
      && (forall k | 0 <= k < |pool.info| && pool.info[k].used :: k in Owned())
      && (forall k | k in zeroing :: k < |pool.info| && pool.info[k] == Entry(true, 0))
      && (forall k | k in done + flight + held :: k < |pool.info| && pool.info[k] == Entry(true, 1))
    }

    /** The owned blocks are the used ones, and follow each other round the pool up to the
        rover; `base` is how many blocks have been given back. */
    ghost predicate Circular(base: nat)
    {
      var total := |pool.info|;
      && 0 < total && pool.rover <= total && |Owned()| <= total
      && (forall k | 0 <= k < total :: pool.info[k].used <==> k in Owned())
      && (forall k | 0 <= k < |Owned()| :: Owned()[k] == Ring.Slot(base + k, total))
      && (if pool.rover == total then 0 else pool.rover) == Ring.Slot(base + |Owned()|, total)
    }
  }

  // ---- moves of a block between owners ----

  predicate CanGrab(x: Side)
  {
    Fits(x.pool.info, Start(x.pool, 1), 1)
  }

  function Grab(x: Side): Side
    requires CanGrab(x)
  {
    var t := Start(x.pool, 1);
    x.(pool := Take(x.pool, t, 1), held := x.held + [t])
  }

  function Launch(x: Side): Side
  {
    x.(flight := x.flight + x.held, held := [])
  }

  /** The submitter gives its block back. */
  function Drop(x: Side): Side
  {
    if x.held == [] then x
    else x.(pool := x.pool.(info := FreeStep(FreeStep(x.pool.info, x.held[0]), x.held[0])), held := x.held[1..])
  }

  function Finish(x: Side, k: nat): Side
    requires k < |x.flight| && x.done == []
  {
    x.(done := [x.flight[k]], flight := x.flight[..k] + x.flight[k + 1..])
  }

  function Zero(x: Side): Side
    requires |x.done| == 1 && x.zeroing == []
  {
    x.(pool := x.pool.(info := FreeStep(x.pool.info, x.done[0])), zeroing := x.done, done := [])
  }

  function Clear(x: Side): Side
    requires |x.zeroing| == 1
  {
    x.(pool := x.pool.(info := FreeStep(x.pool.info, x.zeroing[0])), zeroing := [])
  }

  /** A block handed out has no owner. */
  lemma GrabKeepsInv(x: Side)
    requires x.Inv() && CanGrab(x) && x.held == []
    ensures Grab(x).Inv() && Start(x.pool, 1) !in x.Owned()
  {
    var t, y := Start(x.pool, 1), Grab(x);
    assert !x.pool.info[t].used;
    assert t !in x.zeroing && t !in x.done + x.flight + x.held;
    assert y.Owned() == x.Owned() + [t];
    Parts(x.Owned(), [t]);
    assert y.done + y.flight + y.held == (x.done + x.flight + x.held) + [t];
  }

  lemma LaunchKeepsInv(x: Side)
    requires x.Inv()
    ensures Launch(x).Inv() && Launch(x).Owned() == x.Owned()
  {
    assert x.done + (x.flight + x.held) + [] == x.done + x.flight + x.held;
  }

  lemma DropKeepsInv(x: Side)
    requires x.Inv() && |x.held| <= 1
    ensures Drop(x).Inv()
  {
    hide NoDup;
    if x.held != [] {
      var y := Drop(x);
      assert x.Owned() == y.Owned() + x.held;
      Parts(y.Owned(), x.held);
      assert y.Owned() == x.zeroing + (x.done + x.flight);
      assert y.done + y.flight + y.held == x.done + x.flight;
      assert forall j | j in x.done + x.flight :: j in x.done + x.flight + x.held && j in y.Owned();
    }
  }

  lemma FinishKeepsInv(x: Side, k: nat)
    requires x.Inv() && k < |x.flight| && x.done == [] && x.zeroing == []
    ensures Finish(x, k).Inv()
  {
    var y := Finish(x, k);
    var left, b, right := x.flight[..k], [x.flight[k]], x.flight[k + 1..] + x.held;
    assert x.Owned() == left + (b + right) && y.Owned() == b + (left + right);
    Parts(left, b + right);
    Parts(b, right);
    Parts(b, left + right);
    Parts(left, right);
    assert x.done + x.flight + x.held == x.Owned() && y.done + y.flight + y.held == y.Owned();
  }

  lemma ZeroKeepsInv(x: Side)
    requires x.Inv() && |x.done| == 1 && x.zeroing == []
    ensures Zero(x).Inv()
  {
    hide NoDup;
    var rest := x.flight + x.held;
    assert x.Owned() == x.done + rest && Zero(x).Owned() == x.done + rest;
    Parts(x.done, rest);
    assert forall j | j in rest :: j in x.done + rest;
    assert Zero(x).done + Zero(x).flight + Zero(x).held == rest && x.done + x.flight + x.held == x.done + rest;
  }

  lemma ClearKeepsInv(x: Side)
    requires x.Inv() && |x.zeroing| == 1
    ensures Clear(x).Inv()
  {
    hide NoDup;
    var rest := x.done + x.flight + x.held;
    Parts(x.zeroing, rest);
    assert Clear(x).Owned() == rest;
  }

  // ---- oldest first: the owned blocks stay consecutive ----

  /** Behind the rover everything is owned in order, so a block can be had exactly when the pool
      is not wholly owned. */
  lemma {:induction false} GrabIffRoom(x: Side, base: nat)
    requires x.Circular(base)
    ensures CanGrab(x) <==> |x.Owned()| < |x.pool.info|
  {
    var total, n := |x.pool.info|, |x.Owned()|;
    var t := Start(x.pool, 1);
    assert t == Ring.Slot(base + n, total);
    if n == total {
      Ring.ModStep(base, total, total);
      assert x.Owned()[0] == Ring.Slot(base, total);
      assert x.Owned()[0] in x.Owned();
    } else if x.pool.info[t].used {
      var k :| 0 <= k < n && x.Owned()[k] == t;
      Ring.ModDistinct(base + k, base + n, total);
    }
  }

  lemma GrabKeepsCircular(x: Side, base: nat)
    requires x.Circular(base) && CanGrab(x)
    ensures Grab(x).Circular(base)
  {
    GrabIffRoom(x, base);
    var y := Grab(x);
    var total, n, t := |x.pool.info|, |x.Owned()|, Start(x.pool, 1);
    assert y.Owned() == x.Owned() + [t];
    Ring.ModStep(base + n, 1, total);
    assert forall k | 0 <= k < n :: y.Owned()[k] == x.Owned()[k];
    forall k | 0 <= k < total ensures y.pool.info[k].used <==> k in y.Owned() {
      assert k in y.Owned() <==> k in x.Owned() || k == t;
    }
  }

  lemma SameOwners(x: Side, y: Side, base: nat)
    requires x.Circular(base) && y.Owned() == x.Owned() && y.pool.rover == x.pool.rover
    requires |y.pool.info| == |x.pool.info|
    requires forall k | 0 <= k < |x.pool.info| :: y.pool.info[k].used == x.pool.info[k].used
    ensures y.Circular(base)
  {
  }

  lemma FinishFirst(x: Side, base: nat)
    requires x.Circular(base) && x.flight != [] && x.done == [] && x.zeroing == []
    ensures Finish(x, 0).Circular(base)
  {
    assert [x.flight[0]] + (x.flight[..0] + x.flight[1..]) == x.flight;
    assert Finish(x, 0).Owned() == x.Owned();
    SameOwners(x, Finish(x, 0), base);
  }

  lemma ZeroKeepsCircular(x: Side, base: nat)
    requires x.Inv() && x.Circular(base) && |x.done| == 1 && x.zeroing == []
    ensures Zero(x).Circular(base)
  {
    assert Zero(x).Owned() == x.Owned();
    assert x.done[0] in x.done + x.flight + x.held;
    SameOwners(x, Zero(x), base);
  }

  lemma ClearKeepsCircular(x: Side, base: nat)
    requires x.Inv() && x.Circular(base) && |x.zeroing| == 1
    ensures Clear(x).Circular(base + 1)
  {
    hide Ring.Slot;
    var y := Clear(x);
    var z := x.zeroing[0];
    assert x.Owned() == [z] + y.Owned();
    Parts([z], y.Owned());
    assert forall k | 0 <= k < |y.Owned()| :: y.Owned()[k] == x.Owned()[k + 1];
    forall k | 0 <= k < |x.pool.info| ensures y.pool.info[k].used <==> k in y.Owned() {
      assert k in x.Owned() <==> k == z || k in y.Owned();
    }
    assert z in x.zeroing;
  }

  // ---- the two threads ----

  datatype Submitter = AtGate | Admitted | HasIocb | HasBoth | Launched

  datatype Completer = Waiting | Counted | DataZeroed | DataFreed | IocbZeroed

  /** `maxReqs` outstanding descriptors open the gate, a request takes `numDesc` of them. */
  datatype State = State(maxReqs: nat, numDesc: nat, submitted: nat, completed: nat,
                         sub: Submitter, cmp: Completer, iocbs: Side, datas: Side)
  {
    function Total(): nat { maxReqs + numDesc }

    function Flying(): nat { |iocbs.flight| }

    ghost predicate Inv()
    {
      && iocbs.Inv() && datas.Inv()
      && |iocbs.held| == (if sub.HasIocb? || sub.HasBoth? then 1 else 0)
      && |datas.held| == (if sub.HasBoth? then 1 else 0)
      && |iocbs.done| == (if cmp.Counted? || cmp.DataZeroed? || cmp.DataFreed? then 1 else 0)
      && |iocbs.zeroing| == (if cmp.IocbZeroed? then 1 else 0)
      && |datas.done| == (if cmp.Counted? then 1 else 0)
      && |datas.zeroing| == (if cmp.DataZeroed? then 1 else 0)
      && |datas.flight| == Flying()
      && submitted + (if sub.Launched? then 1 else 0) == completed + Flying()
      && Flying() * numDesc <= maxReqs + numDesc
      && (sub.Admitted? || sub.HasIocb? || sub.HasBoth? ==> Flying() * numDesc <= maxReqs)
    }

    function IocbsBack(): int { completed - (if cmp.Waiting? then 0 else 1) }

    function DatasBack(): int { completed - (if cmp.Counted? || cmp.DataZeroed? then 1 else 0) }

    /** Holds as well while completions come oldest first and no submission is refused. */
    ghost predicate InOrder()
    {
      && |iocbs.pool.info| == |datas.pool.info| == Total()
      && 0 <= IocbsBack() && 0 <= DatasBack()
      && iocbs.Circular(IocbsBack()) && datas.Circular(DatasBack())
    }
  }

  /** `GateStep`: read the counters. `TakeIocbStep`, `TakeDataStep`: allocate, or start again.
      `SubmitStep`: hand the request to the kernel, which may refuse it. `CountStep`: count it.
      `CompleteStep`: the kernel reports some request in flight, which is counted first.
      `FreeStoreStep`: the next of the four stores that release its blocks. */
  datatype Step = GateStep | TakeIocbStep | TakeDataStep | SubmitStep(ok: bool) | CountStep
                | CompleteStep(k: nat) | FreeStoreStep

  predicate Able(s: State, m: Step)
  {
    match m
    case GateStep => s.sub.AtGate?
    case TakeIocbStep => s.sub.Admitted?
    case TakeDataStep => s.sub.HasIocb?
    case SubmitStep(_) => s.sub.HasBoth?
    case CountStep => s.sub.Launched?
    case CompleteStep(k) => s.cmp.Waiting? && k < s.Flying()
    case FreeStoreStep => !s.cmp.Waiting?
  }

  function Next(s: State, m: Step): State
    requires s.Inv() && Able(s, m)
  {
    match m
    case GateStep =>
      if (s.submitted - s.completed) * s.numDesc > s.maxReqs then s else s.(sub := Admitted)
    case TakeIocbStep =>
      if CanGrab(s.iocbs) then s.(iocbs := Grab(s.iocbs), sub := HasIocb) else s.(sub := AtGate)
    case TakeDataStep =>
      if CanGrab(s.datas) then s.(datas := Grab(s.datas), sub := HasBoth)
      else s.(iocbs := Drop(s.iocbs), sub := AtGate)
    case SubmitStep(ok) =>
      if ok then s.(iocbs := Launch(s.iocbs), datas := Launch(s.datas), sub := Launched)
      else s.(iocbs := Drop(s.iocbs), datas := Drop(s.datas), sub := AtGate)
    case CountStep => s.(submitted := s.submitted + 1, sub := AtGate)
    case CompleteStep(k) =>
      s.(completed := s.completed + 1, iocbs := Finish(s.iocbs, k), datas := Finish(s.datas, k), cmp := Counted)
    case FreeStoreStep =>
      match s.cmp
      case Counted => s.(datas := Zero(s.datas), cmp := DataZeroed)
      case DataZeroed => s.(datas := Clear(s.datas), cmp := DataFreed)
      case DataFreed => s.(iocbs := Zero(s.iocbs), cmp := IocbZeroed)
      case IocbZeroed => s.(iocbs := Clear(s.iocbs), cmp := Waiting)
  }

  lemma NextKeepsInv(s: State, m: Step)
    requires s.Inv() && Able(s, m)
    ensures Next(s, m).Inv()
  {
    hide Side.Inv, CanGrab, Grab, FreeStep;
    match m
    case GateStep => assert s.submitted - s.completed == s.Flying();
    case TakeIocbStep => if CanGrab(s.iocbs) { GrabKeepsInv(s.iocbs); GrabShape(s.iocbs); }
    case TakeDataStep =>
      if CanGrab(s.datas) { GrabKeepsInv(s.datas); GrabShape(s.datas); } else { DropKeepsInv(s.iocbs); }
    case SubmitStep(ok) =>
      if ok {
        LaunchKeepsInv(s.iocbs);
        LaunchKeepsInv(s.datas);
        assert (s.Flying() + 1) * s.numDesc == s.Flying() * s.numDesc + s.numDesc;
      } else {
        DropKeepsInv(s.iocbs);
        DropKeepsInv(s.datas);
      }
    case CountStep =>
    case CompleteStep(k) =>
      FinishKeepsInv(s.iocbs, k);
      FinishKeepsInv(s.datas, k);
      assert (s.Flying() - 1) * s.numDesc == s.Flying() * s.numDesc - s.numDesc;
    case FreeStoreStep =>
      match s.cmp
      case Counted => ZeroKeepsInv(s.datas);
      case DataZeroed => ClearKeepsInv(s.datas);
      case DataFreed => ZeroKeepsInv(s.iocbs);
      case IocbZeroed => ClearKeepsInv(s.iocbs);
  }

  lemma GrabShape(x: Side)
    requires CanGrab(x)
    ensures var y := Grab(x); y.flight == x.flight && y.done == x.done && y.zeroing == x.zeroing
    ensures |Grab(x).held| == |x.held| + 1 && |Grab(x).pool.info| == |x.pool.info|
  {
  }

  predicate CanRun(s: State, steps: seq<Step>)
    requires s.Inv()
    decreases |steps|
  {
    steps == [] || (Able(s, steps[0]) && (NextKeepsInv(s, steps[0]); CanRun(Next(s, steps[0]), steps[1..])))
  }

  function Run(s: State, steps: seq<Step>): (r: State)
    requires s.Inv() && CanRun(s, steps)
    ensures r.Inv()
    decreases |steps|
  {
    if steps == [] then s else (NextKeepsInv(s, steps[0]); Run(Next(s, steps[0]), steps[1..]))
  }

  /** Both pools new, as the submitter makes them. */
  function Initial(maxReqs: nat, numDesc: nat): State
  {
    var side := Side(Empty(maxReqs + numDesc), [], [], [], []);
    State(maxReqs, numDesc, 0, 0, AtGate, Waiting, side, side)
  }

  lemma InitialInv(maxReqs: nat, numDesc: nat)
    ensures Initial(maxReqs, numDesc).Inv()
    ensures maxReqs + numDesc > 0 ==> Initial(maxReqs, numDesc).InOrder()
  {
    hide Side.Inv, Side.Circular;
    EmptySide(maxReqs + numDesc);
  }

  lemma EmptySide(total: nat)
    ensures var x := Side(Empty(total), [], [], [], []); x.Inv() && (total > 0 ==> x.Circular(0))
  {
  }

  /** In every interleaving, refusals and any order of completions included, an entry of either
      pool is in use exactly when its block has an owner: none is ever lost. */
  lemma NothingLost(maxReqs: nat, numDesc: nat, steps: seq<Step>)
    requires Initial(maxReqs, numDesc).Inv() && CanRun(Initial(maxReqs, numDesc), steps)
    ensures var s := Run(Initial(maxReqs, numDesc), steps);
      && (forall k | 0 <= k < |s.iocbs.pool.info| :: s.iocbs.pool.info[k].used <==> k in s.iocbs.Owned())
      && (forall k | 0 <= k < |s.datas.pool.info| :: s.datas.pool.info[k].used <==> k in s.datas.Owned())
  {
    hide Run, CanRun, Side.Inv;
    var s := Run(Initial(maxReqs, numDesc), steps);
    UsedAreOwned(s.iocbs);
    UsedAreOwned(s.datas);
  }

  lemma UsedAreOwned(x: Side)
    requires x.Inv()
    ensures forall k | 0 <= k < |x.pool.info| :: x.pool.info[k].used <==> k in x.Owned()
  {
  }

  /** The gate admits exactly when the descriptors outstanding are within bounds; behind it the
      submitter goes on as long as blocks are to be had, and starts again at the gate when not, when
      the kernel refuses, and when a request has been counted. */
  lemma SubmitterGoes(s: State, m: Step)
    requires s.Inv() && Able(s, m)
    ensures Next(s, m).sub ==
      match m
      case GateStep => if (s.submitted - s.completed) * s.numDesc <= s.maxReqs then Admitted else AtGate
      case TakeIocbStep => if CanGrab(s.iocbs) then HasIocb else AtGate
      case TakeDataStep => if CanGrab(s.datas) then HasBoth else AtGate
      case SubmitStep(ok) => if ok then Launched else AtGate
      case CountStep => AtGate
      case _ => s.sub
    ensures Next(s, m).submitted == s.submitted + (if m.CountStep? then 1 else 0)
    ensures Next(s, m).completed == s.completed + (if m.CompleteStep? then 1 else 0)
  {
    hide Side.Inv, CanGrab, Grab, Drop, Launch, Finish, Zero, Clear;
  }

  /** In every interleaving, with completions in any order and submissions refused or not: the
      requests outstanding are bounded, and every block the submitter gets, for a request or
      its data, has no owner at that moment. */
  lemma OutstandingAndReuse(maxReqs: nat, numDesc: nat, steps: seq<Step>)
    requires Initial(maxReqs, numDesc).Inv() && CanRun(Initial(maxReqs, numDesc), steps)
    ensures var s := Run(Initial(maxReqs, numDesc), steps);
      && (s.submitted - s.completed) * numDesc <= maxReqs + numDesc
      && (s.sub.Admitted? && CanGrab(s.iocbs) ==> Start(s.iocbs.pool, 1) !in s.iocbs.Owned())
      && (s.sub.HasIocb? && CanGrab(s.datas) ==> Start(s.datas.pool, 1) !in s.datas.Owned())
  {
    hide Side.Inv, CanGrab, Run, CanRun;
    var s := Run(Initial(maxReqs, numDesc), steps);
    RunKeepsSizes(Initial(maxReqs, numDesc), steps);
    OutstandingBound(s);
    if s.sub.Admitted? && CanGrab(s.iocbs) {
      GrabKeepsInv(s.iocbs);
    }
    if s.sub.HasIocb? && CanGrab(s.datas) {
      GrabKeepsInv(s.datas);
    }
  }

  lemma OutstandingBound(s: State)
    requires s.Inv()
    ensures (s.submitted - s.completed) * s.numDesc <= s.maxReqs + s.numDesc
  {
    hide Side.Inv;
    if s.sub.Launched? {
      assert (s.Flying() - 1) * s.numDesc == s.Flying() * s.numDesc - s.numDesc;
    }
  }

  lemma {:induction false} RunKeepsSizes(s: State, steps: seq<Step>)
    requires s.Inv() && CanRun(s, steps)
    ensures Run(s, steps).maxReqs == s.maxReqs && Run(s, steps).numDesc == s.numDesc
    decreases |steps|
  {
    if steps != [] {
      NextKeepsInv(s, steps[0]);
      RunKeepsSizes(Next(s, steps[0]), steps[1..]);
    }
  }

  // ---- completions oldest first ----

  /** The kernel completes oldest first and refuses nothing. */
  predicate Orderly(m: Step)
  {
    (m.CompleteStep? ==> m.k == 0) && (m.SubmitStep? ==> m.ok)
  }

  lemma OwnedCount(s: State)
    requires s.Inv()
    ensures |s.iocbs.Owned()| == s.Flying() + |s.iocbs.held| + (if s.cmp.Waiting? then 0 else 1)
    ensures |s.datas.Owned()| == s.Flying() + |s.datas.held| + (if s.cmp.Counted? || s.cmp.DataZeroed? then 1 else 0)
  {
    hide Side.Inv;
  }

  /** Once a control block is had there is a data block for it. */
  lemma RoomForData(s: State)
    requires s.Inv() && s.InOrder() && s.sub.HasIocb?
    ensures CanGrab(s.datas)
  {
    OwnedCount(s);
    GrabIffRoom(s.datas, s.DatasBack());
  }

  lemma OrderlyNext(s: State, m: Step)
    requires s.Inv() && s.InOrder() && Able(s, m) && Orderly(m)
    ensures Next(s, m).InOrder()
  {
    hide Side.Inv, Side.Circular, CanGrab, Grab;
    match m
    case GateStep =>
    case TakeIocbStep => if CanGrab(s.iocbs) { GrabKeepsCircular(s.iocbs, s.IocbsBack()); GrabShape(s.iocbs); }
    case TakeDataStep =>
      RoomForData(s);
      GrabKeepsCircular(s.datas, s.DatasBack());
      GrabShape(s.datas);
    case SubmitStep(ok) =>
      LaunchKeepsInv(s.iocbs);
      LaunchKeepsInv(s.datas);
      SameOwners(s.iocbs, Launch(s.iocbs), s.IocbsBack());
      SameOwners(s.datas, Launch(s.datas), s.DatasBack());
    case CountStep =>
    case CompleteStep(k) =>
      FinishFirst(s.iocbs, s.IocbsBack());
      FinishFirst(s.datas, s.DatasBack());
    case FreeStoreStep =>
      match s.cmp
      case Counted => ZeroKeepsCircular(s.datas, s.DatasBack());
      case DataZeroed => ClearKeepsCircular(s.datas, s.DatasBack());
      case DataFreed => ZeroKeepsCircular(s.iocbs, s.IocbsBack());
      case IocbZeroed => ClearKeepsCircular(s.iocbs, s.IocbsBack());
  }

  lemma {:induction false} OrderlyRun(s: State, steps: seq<Step>)
    requires s.Inv() && s.InOrder() && CanRun(s, steps) && forall i | 0 <= i < |steps| :: Orderly(steps[i])
    ensures Run(s, steps).InOrder()
    decreases |steps|
  {
    if steps != [] {
      NextKeepsInv(s, steps[0]);
      OrderlyNext(s, steps[0]);
      OrderlyRun(Next(s, steps[0]), steps[1..]);
    }
  }

  /** In an orderly run the pool of control blocks is dry behind the gate in exactly one case:
      one descriptor a request, the gate only just open, and a completion that has been counted
      but not yet given its control block back. */
  lemma DryBehindGate(s: State)
    requires s.Inv() && s.InOrder() && s.sub.Admitted? && s.numDesc > 0
    ensures CanGrab(s.iocbs) <==> !(s.numDesc == 1 && s.Flying() == s.maxReqs && !s.cmp.Waiting?)
  {
    hide Side.Inv, CanGrab;
    OwnedCount(s);
    GrabIffRoom(s.iocbs, s.IocbsBack());
    Ring.MulGap(s.Flying(), s.numDesc - 1);
    assert s.Flying() * s.numDesc == s.Flying() + s.Flying() * (s.numDesc - 1);
  }

  lemma {:induction false} RunJoin(s: State, first: seq<Step>, second: seq<Step>)
    requires s.Inv() && CanRun(s, first) && CanRun(Run(s, first), second)
    ensures CanRun(s, first + second) && Run(s, first + second) == Run(Run(s, first), second)
    decreases |first|
  {
    if first == [] {
      assert first + second == second;
    } else {
      NextKeepsInv(s, first[0]);
      RunJoin(Next(s, first[0]), first[1..], second);
      assert (first + second)[0] == first[0] && (first + second)[1..] == first[1..] + second;
    }
  }

  lemma RunOne(s: State, m: Step)
    requires s.Inv() && Able(s, m)
    ensures Next(s, m).Inv() && CanRun(s, [m]) && Run(s, [m]) == Next(s, m)
  {
    NextKeepsInv(s, m);
    assert [m][1..] == [];
  }

  /** One request through the submitter while no completion is under way. */
  lemma SubmitOne(s: State) returns (t: State, steps: seq<Step>)
    requires s.Inv() && s.InOrder() && s.sub.AtGate? && s.cmp.Waiting? && s.numDesc == 1 && s.Flying() <= s.maxReqs
    ensures t.Inv() && t.InOrder() && CanRun(s, steps) && t == Run(s, steps) && forall i | 0 <= i < |steps| :: Orderly(steps[i])
    ensures t.sub.AtGate? && t.cmp.Waiting? && t.numDesc == 1 && t.maxReqs == s.maxReqs && t.Flying() == s.Flying() + 1
  {
    hide Side.Inv, Side.Circular, CanGrab, Grab, FreeStep, CanRun, Run;
    var plan := [GateStep, TakeIocbStep, TakeDataStep, SubmitStep(true), CountStep];
    t, steps := s, [];
    RunNone(s);
    var i := 0;
    while i < 5
      invariant 0 <= i <= 5 && t.Inv() && t.InOrder() && CanRun(s, steps) && t == Run(s, steps)
      invariant forall k | 0 <= k < |steps| :: Orderly(steps[k])
      invariant t.sub == (if i == 0 then AtGate else if i == 1 then Admitted else if i == 2 then HasIocb else if i == 3 then HasBoth else if i == 4 then Launched else AtGate)
      invariant t.cmp.Waiting? && t.numDesc == 1 && t.maxReqs == s.maxReqs
      invariant t.Flying() == s.Flying() + (if i >= 4 then 1 else 0)
    {
      if i == 1 {
        DryBehindGate(t);
        GrabShape(t.iocbs);
      }
      if i == 2 {
        RoomForData(t);
        GrabShape(t.datas);
      }
      RunOne(t, plan[i]);
      OrderlyNext(t, plan[i]);
      RunJoin(s, steps, [plan[i]]);
      t, steps := Next(t, plan[i]), steps + [plan[i]];
      i := i + 1;
    }
  }

  lemma RunNone(s: State)
    requires s.Inv()
    ensures CanRun(s, []) && Run(s, []) == s
  {
  }

  lemma {:induction false} Fill(maxReqs: nat, k: nat) returns (s: State, steps: seq<Step>)
    requires k <= maxReqs + 1
    ensures Initial(maxReqs, 1).Inv() && CanRun(Initial(maxReqs, 1), steps) && s == Run(Initial(maxReqs, 1), steps)
    ensures s.Inv() && s.InOrder() && forall i | 0 <= i < |steps| :: Orderly(steps[i])
    ensures s.sub.AtGate? && s.cmp.Waiting? && s.numDesc == 1 && s.maxReqs == maxReqs && s.Flying() == k
  {
    InitialInv(maxReqs, 1);
    if k == 0 {
      s, steps := Initial(maxReqs, 1), [];
    } else {
      hide State.InOrder, Side.Inv;
      var t, before := Fill(maxReqs, k - 1);
      var more;
      s, more := SubmitOne(t);
      RunJoin(Initial(maxReqs, 1), before, more);
      steps := before + more;
    }
  }

  /** That case is reached, in an orderly run: fill up to the gate, let one completion be
      counted, look again. */
  lemma DryReached(maxReqs: nat) returns (steps: seq<Step>)
    ensures Initial(maxReqs, 1).Inv() && CanRun(Initial(maxReqs, 1), steps)
    ensures forall i | 0 <= i < |steps| :: Orderly(steps[i])
    ensures var s := Run(Initial(maxReqs, 1), steps); s.sub.Admitted? && !CanGrab(s.iocbs)
  {
    hide Side.Inv, Side.Circular, CanGrab, Grab, FreeStep, CanRun, Run;
    var s;
    s, steps := Fill(maxReqs, maxReqs + 1);
    RunOne(s, CompleteStep(0));
    OrderlyNext(s, CompleteStep(0));
    RunJoin(Initial(maxReqs, 1), steps, [CompleteStep(0)]);
    var t := Next(s, CompleteStep(0));
    steps := steps + [CompleteStep(0)];
    RunOne(t, GateStep);
    OrderlyNext(t, GateStep);
    RunJoin(Initial(maxReqs, 1), steps, [GateStep]);
    steps := steps + [GateStep];
    DryBehindGate(Next(t, GateStep));
  }

  const MAX_REQS: nat := 2048
  const BUFFER_PAGE: nat := 4096

  /** The pool of data blocks, as the submitter sizes it, stays below 2^32 bytes, where a release
      finds its block, if and only if a request takes at most 424 descriptors. */
  lemma DataPoolFits(numDesc: nat)
    ensures (MAX_REQS + numDesc) * (numDesc * BUFFER_PAGE) < Ring.U32 <==> numDesc <= 424
  {
    assert (MAX_REQS + numDesc) * (numDesc * BUFFER_PAGE) == ((MAX_REQS + numDesc) * numDesc) * BUFFER_PAGE by {
      Associate(MAX_REQS + numDesc, numDesc, BUFFER_PAGE);
    }
    if numDesc <= 424 {
      Monotone(MAX_REQS + numDesc, numDesc, MAX_REQS + 424, 424);
    } else {
      Monotone(MAX_REQS + 425, 425, MAX_REQS + numDesc, numDesc);
    }
  }

  lemma Associate(x: nat, y: nat, z: nat)
    ensures x * (y * z) == (x * y) * z
  {
  }

  lemma Monotone(a: nat, b: nat, c: nat, d: nat)
    requires a <= c && b <= d
    ensures a * b <= c * d
  {
    assert c * d - a * b == (c - a) * d + a * (d - b);
  }
}
