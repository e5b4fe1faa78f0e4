/**
  The concurrent queue as interleaved steps of a runner, its workers, pushing clients and one waiter.

  Functions are numbered in the order they are pushed. The runner reads the length of the queue and the number of
  running functions without the lock, so those reads are steps of their own; what happens under the queue's
  mutex is one step for taking it and one for the work done while holding it.
  */
module Queue {
  import opened Wrappers

  // The number of functions allowed in flight, and which functions return an error.
  datatype Config = Config(concurrency: nat, fails: nat -> bool)
  {
    // The error channel's buffer.
    function Capacity(): nat { concurrency + 1 }
  }

  datatype RunnerPc =
    | CheckSlots | CheckQueue | Locking | Popping | TryWaiting | ReleaseWaiting | AwaitWorkers | Cancelled

  datatype WorkerPc = Executing | Reporting | Leaving | Decrementing | Finishing | Gone

  datatype WaiterPc = NotWaiting | AwaitGroup | Selecting | Returned(err: Option<nat>)

  datatype Mutex = Free | ByRunner | ByWorker(f: nat) | ByWaiter

  datatype State = State(
    pushed: nat,                // functions pushed so far
    queue: seq<nat>,
    workers: seq<WorkerPc>,     // one for each function started, in order
    current: nat,
    wg: nat,
    queueMux: Mutex,
    waiting: Mutex,
    errs: seq<nat>,             // the buffered errors, by function
    runner: RunnerPc,
    waiter: WaiterPc,
    emptyAt: nat)               // for the statements: how many were pushed when the runner last saw an empty queue

  const INITIAL := State(0, [], [], 0, 0, Free, Free, [], CheckSlots, NotWaiting, 0)

  datatype Step = Push | Runner | Worker(f: nat) | Waiter | WaiterGivesUp

  // The state after a step, if the step can be taken.
  function Next(cfg: Config, s: State, step: Step): Option<State> {
    match step
    case Push =>
      if s.queueMux != Free then None else Some(s.(pushed := s.pushed + 1, queue := s.queue + [s.pushed]))
    case Runner => RunnerStep(cfg, s)
    case Worker(f) => if f < |s.workers| then WorkerStep(cfg, s, f) else None
    case Waiter => WaiterStep(s)
    case WaiterGivesUp =>
      // the other choice of the select: the context is done
      if s.waiter == Selecting && s.runner == Cancelled then Some(s.(waiter := Returned(None))) else None
  }

  function RunnerStep(cfg: Config, s: State): Option<State> {
    match s.runner
    case CheckSlots => Some(if s.current < cfg.concurrency then s.(runner := CheckQueue) else s)
    case CheckQueue =>
      Some(if |s.queue| > 0 then s.(runner := Locking) else s.(runner := TryWaiting, emptyAt := s.pushed))
    case Locking => if s.queueMux == Free then Some(s.(queueMux := ByRunner, runner := Popping)) else None
    case Popping =>
      if s.queue == [] then None
      else Some(s.(current := s.current + 1, queue := s.queue[1..], wg := s.wg + 1,
                   workers := s.workers + [Executing], queueMux := Free, runner := CheckSlots))
    case TryWaiting =>
      Some(if s.waiting == Free then s.(waiting := ByRunner, runner := ReleaseWaiting) else s.(runner := AwaitWorkers))
    case ReleaseWaiting => Some(s.(waiting := Free, runner := CheckSlots))
    case AwaitWorkers => if s.wg == 0 then Some(s.(runner := Cancelled)) else None
    case Cancelled => None
  }

  function WorkerStep(cfg: Config, s: State, f: nat): Option<State>
    requires f < |s.workers|
  {
    match s.workers[f]
    case Executing => Some(s.(workers := s.workers[f := if cfg.fails(f) then Reporting else Leaving]))
    case Reporting =>
      if |s.errs| < cfg.Capacity() then Some(s.(errs := s.errs + [f], workers := s.workers[f := Leaving])) else None
    case Leaving =>
      if s.queueMux == Free then Some(s.(queueMux := ByWorker(f), workers := s.workers[f := Decrementing])) else None
    case Decrementing =>
      if s.current == 0 then None
      else Some(s.(current := s.current - 1, queueMux := Free, workers := s.workers[f := Finishing]))
    case Finishing => if s.wg == 0 then None else Some(s.(wg := s.wg - 1, workers := s.workers[f := Gone]))
    case Gone => None
  }

  function WaiterStep(s: State): Option<State> {
    match s.waiter
    case NotWaiting => if s.waiting == Free then Some(s.(waiting := ByWaiter, waiter := AwaitGroup)) else None
    case AwaitGroup => if s.wg == 0 then Some(s.(waiter := Selecting)) else None
    case Selecting => if s.errs == [] then None else Some(s.(errs := s.errs[1..], waiter := Returned(Some(s.errs[0]))))
    case Returned(_) => None
  }

  // The state a sequence of steps leads to, if each can be taken.
  function Exec(cfg: Config, s: State, steps: seq<Step>): Option<State>
    decreases |steps|
  {
    if steps == [] then Some(s)
    else match Next(cfg, s, steps[0])
         case None => None
         case Some(s') => Exec(cfg, s', steps[1..])
  }

  ghost predicate Reachable(cfg: Config, s: State) {
    exists steps :: Exec(cfg, INITIAL, steps) == Some(s)
  }

  // ---- counting workers

  // Still counted in `current`.
  predicate Active(w: WorkerPc) { w != Finishing && w != Gone }

  // Still counted in the wait group.
  predicate Alive(w: WorkerPc) { w != Gone }

  function Count(ws: seq<WorkerPc>, p: WorkerPc -> bool): nat {
    if ws == [] then 0 else Count(ws[..|ws| - 1], p) + if p(ws[|ws| - 1]) then 1 else 0
  }

  lemma {:induction false} CountUpdate(ws: seq<WorkerPc>, p: WorkerPc -> bool, i: nat, w: WorkerPc)
    requires i < |ws|
    ensures Count(ws[i := w], p) == Count(ws, p) - (if p(ws[i]) then 1 else 0) + if p(w) then 1 else 0
  {
    var n := |ws| - 1;
    if i == n {
      assert ws[i := w][..n] == ws[..n];
    } else {
      assert ws[i := w][..n] == ws[..n][i := w];
      CountUpdate(ws[..n], p, i, w);
    }
  }

  lemma {:induction false} CountAppend(ws: seq<WorkerPc>, p: WorkerPc -> bool, w: WorkerPc)
    ensures Count(ws + [w], p) == Count(ws, p) + if p(w) then 1 else 0
  {
    assert (ws + [w])[..|ws|] == ws;
  }

  lemma {:induction false} CountZero(ws: seq<WorkerPc>, p: WorkerPc -> bool)
    ensures Count(ws, p) == 0 <==> forall w <- ws :: !p(w)
  {
    if ws != [] {
      var n := |ws| - 1;
      assert ws == ws[..n] + [ws[n]];
      CountZero(ws[..n], p);
    }
  }

  // ---- the invariant

  // The queue holds what was pushed and not started, in order.
  ghost predicate InOrder(s: State) {
    && |s.workers| + |s.queue| == s.pushed
    && (forall i | 0 <= i < |s.queue| :: s.queue[i] == |s.workers| + i)
  }

  ghost predicate Counted(cfg: Config, s: State) {
    && s.current == Count(s.workers, Active)
    && s.wg == Count(s.workers, Alive)
    && s.current <= cfg.concurrency
    && (s.runner in {CheckQueue, Locking, Popping} ==> s.current < cfg.concurrency)
  }

  ghost predicate Locked(s: State) {
    && (s.queueMux == ByRunner <==> s.runner == Popping)
    && (forall f | 0 <= f < |s.workers| :: s.workers[f] == Decrementing <==> s.queueMux == ByWorker(f))
    && (s.queueMux.ByWorker? ==> s.queueMux.f < |s.workers|)
    && s.queueMux != ByWaiter
    && (s.waiting == ByWaiter <==> s.waiter != NotWaiting)
    && (s.waiting == ByRunner <==> s.runner == ReleaseWaiting)
    && !s.waiting.ByWorker?
  }

  ghost predicate Phased(s: State) {
    && (s.runner in {Locking, Popping} ==> s.queue != [])
    && s.emptyAt <= |s.workers|
    && (s.runner in {TryWaiting, AwaitWorkers, Cancelled} ==> s.emptyAt == |s.workers|)
    && (s.runner in {AwaitWorkers, Cancelled} ==> s.waiter != NotWaiting)
    && (s.runner == Cancelled ==> s.wg == 0)
  }

  // The function failed and its worker has sent the error.
  ghost predicate Reported(cfg: Config, s: State, f: nat) {
    f < |s.workers| && cfg.fails(f) && s.workers[f] != Executing && s.workers[f] != Reporting
  }

  ghost predicate ErrorsSound(cfg: Config, s: State) {
    && (forall i | 0 <= i < |s.errs| :: Reported(cfg, s, s.errs[i]))
    && (forall i, j | 0 <= i < j < |s.errs| :: s.errs[i] != s.errs[j])
    && (forall f | 0 <= f < |s.workers| :: s.workers[f] == Reporting ==> cfg.fails(f))
    && (s.waiter.Returned? ==>
          match s.waiter.err
          case None => s.runner == Cancelled
          case Some(f) => Reported(cfg, s, f))
  }

  ghost predicate Inv(cfg: Config, s: State) {
    InOrder(s) && Counted(cfg, s) && Locked(s) && Phased(s) && ErrorsSound(cfg, s)
  }

  lemma InvPush(cfg: Config, s: State)
    requires Inv(cfg, s) && Next(cfg, s, Push) != None
    ensures Inv(cfg, Next(cfg, s, Push).value)
  {
  }

  lemma InvRunner(cfg: Config, s: State)
    requires Inv(cfg, s) && RunnerStep(cfg, s) != None
    ensures Inv(cfg, RunnerStep(cfg, s).value)
  {
    hide Count, RunnerStep, InOrder, Counted, Locked, Phased, ErrorsSound;
    RunnerCounts(cfg, s);
    RunnerLocks(cfg, s);
    RunnerPhase(cfg, s);
    RunnerErrors(cfg, s);
  }

  lemma RunnerCounts(cfg: Config, s: State)
    requires InOrder(s) && Counted(cfg, s) && RunnerStep(cfg, s) != None
    ensures InOrder(RunnerStep(cfg, s).value) && Counted(cfg, RunnerStep(cfg, s).value)
  {
    CountAppend(s.workers, Active, Executing);
    CountAppend(s.workers, Alive, Executing);
    hide Count;
  }

  lemma RunnerLocks(cfg: Config, s: State)
    requires Locked(s) && RunnerStep(cfg, s) != None
    ensures Locked(RunnerStep(cfg, s).value)
  {
  }

  lemma RunnerPhase(cfg: Config, s: State)
    requires InOrder(s) && Locked(s) && Phased(s) && RunnerStep(cfg, s) != None
    ensures Phased(RunnerStep(cfg, s).value)
  {
  }

  lemma RunnerErrors(cfg: Config, s: State)
    requires ErrorsSound(cfg, s) && RunnerStep(cfg, s) != None
    ensures ErrorsSound(cfg, RunnerStep(cfg, s).value)
  {
    var s' := RunnerStep(cfg, s).value;
    assert forall f :: Reported(cfg, s, f) ==> Reported(cfg, s', f);
  }

  lemma InvWorker(cfg: Config, s: State, f: nat)
    requires Inv(cfg, s) && f < |s.workers| && WorkerStep(cfg, s, f) != None
    ensures Inv(cfg, WorkerStep(cfg, s, f).value)
  {
    var s' := WorkerStep(cfg, s, f).value;
    CountUpdate(s.workers, Active, f, s'.workers[f]);
    CountUpdate(s.workers, Alive, f, s'.workers[f]);
    hide Count;
    assert Counted(cfg, s') && InOrder(s') && Phased(s');
    WorkerLocks(cfg, s, f);
    WorkerErrors(cfg, s, f);
  }

  lemma WorkerLocks(cfg: Config, s: State, f: nat)
    requires Locked(s) && f < |s.workers| && WorkerStep(cfg, s, f) != None
    ensures Locked(WorkerStep(cfg, s, f).value)
  {
  }

  lemma WorkerErrors(cfg: Config, s: State, f: nat)
    requires ErrorsSound(cfg, s) && f < |s.workers| && WorkerStep(cfg, s, f) != None
    ensures ErrorsSound(cfg, WorkerStep(cfg, s, f).value)
  {
    var s' := WorkerStep(cfg, s, f).value;
    assert forall g :: Reported(cfg, s, g) ==> Reported(cfg, s', g);
  }

  lemma InvWaiter(cfg: Config, s: State)
    requires Inv(cfg, s) && WaiterStep(s) != None
    ensures Inv(cfg, WaiterStep(s).value)
  {
    var s' := WaiterStep(s).value;
    hide Count, Active, Alive;
    assert InOrder(s') && Counted(cfg, s') && Locked(s') && Phased(s');
    WaiterErrors(cfg, s);
  }

  lemma WaiterErrors(cfg: Config, s: State)
    requires ErrorsSound(cfg, s) && WaiterStep(s) != None
    ensures ErrorsSound(cfg, WaiterStep(s).value)
  {
    var s' := WaiterStep(s).value;
    assert forall f :: Reported(cfg, s, f) ==> Reported(cfg, s', f);
  }

  lemma InvStep(cfg: Config, s: State, step: Step)
    requires Inv(cfg, s) && Next(cfg, s, step) != None
    ensures Inv(cfg, Next(cfg, s, step).value)
  {
    match step
    case Push => InvPush(cfg, s);
    case Runner => InvRunner(cfg, s);
    case Worker(f) => InvWorker(cfg, s, f);
    case Waiter => InvWaiter(cfg, s);
    case WaiterGivesUp =>
  }

  lemma {:induction false} InvRun(cfg: Config, s: State, steps: seq<Step>)
    requires Inv(cfg, s) && Exec(cfg, s, steps) != None
    ensures Inv(cfg, Exec(cfg, s, steps).value)
    decreases |steps|
  {
    hide Inv, Next;
    if steps != [] {
      InvStep(cfg, s, steps[0]);
      InvRun(cfg, Next(cfg, s, steps[0]).value, steps[1..]);
    }
  }

  // The invariant holds in every interleaving.
  lemma ReachableInv(cfg: Config, s: State)
    requires Reachable(cfg, s)
    ensures Inv(cfg, s)
  {
    var steps :| Exec(cfg, INITIAL, steps) == Some(s);
    assert Inv(cfg, INITIAL);
    InvRun(cfg, INITIAL, steps);
  }
}
