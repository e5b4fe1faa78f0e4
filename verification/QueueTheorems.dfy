/** What the queue guarantees in every interleaving, and what it does not. */
module QueueTheorems {
  import opened Queue
  import opened Wrappers

  // ---- where a pushed function is

  predicate Queued(s: State, f: nat) { f in s.queue }

  predicate InProgress(s: State, f: nat) { f < |s.workers| && s.workers[f] != Gone }

  predicate Done(s: State, f: nat) { f < |s.workers| && s.workers[f] == Gone }

  // Every pushed function is in exactly one place, and nothing else is anywhere.
  lemma ExactlyOnePlace(cfg: Config, s: State, f: nat)
    requires Reachable(cfg, s)
    ensures f < s.pushed <==> Queued(s, f) || InProgress(s, f) || Done(s, f)
    ensures !(Queued(s, f) && InProgress(s, f)) && !(Queued(s, f) && Done(s, f)) && !(InProgress(s, f) && Done(s, f))
  {
    ReachableInv(cfg, s);
    hide Count;
    if |s.workers| <= f < s.pushed {
      assert s.queue[f - |s.workers|] == f;
    }
  }

  // A step starts at most one function: the first in the queue. Started functions stay started, done ones done.
  lemma StartsInOrder(cfg: Config, s: State, step: Step)
    requires Reachable(cfg, s) && Next(cfg, s, step) != None
    ensures var s' := Next(cfg, s, step).value;
            && (|s'.workers| == |s.workers|
                || (|s'.workers| == |s.workers| + 1 && s.queue != [] && s.queue[0] == |s.workers|
                    && s'.queue == s.queue[1..]))
            && (forall f :: Done(s, f) ==> Done(s', f))
            && (forall f: nat | f < |s.workers| :: s.workers[f] != Executing ==> s'.workers[f] != Executing)
  {
    ReachableInv(cfg, s);
    hide Count, Counted, Locked, ErrorsSound, Exec, Phased, Reachable;
    match step
    case Worker(f) => WorkerOnly(cfg, s, f);
    case _ =>
  }

  // A worker's step concerns only itself.
  lemma WorkerOnly(cfg: Config, s: State, f: nat)
    requires f < |s.workers| && WorkerStep(cfg, s, f) != None
    ensures var s' := WorkerStep(cfg, s, f).value;
            && |s'.workers| == |s.workers| && s'.queue == s.queue && s.workers[f] != Gone && s'.workers[f] != Executing
            && forall g: nat | g < |s.workers| && g != f :: s'.workers[g] == s.workers[g]
  {
  }

  // No more functions are in flight than allowed.
  lemma ConcurrencyBound(cfg: Config, s: State)
    requires Reachable(cfg, s)
    ensures Count(s.workers, Active) <= cfg.concurrency
  {
    ReachableInv(cfg, s);
  }

  // When the queue is cancelled every started function has finished, and those never started are exactly the ones
  // pushed after the runner last saw an empty queue.
  lemma CancelledMeansFinished(cfg: Config, s: State, f: nat)
    requires Reachable(cfg, s) && s.runner == Cancelled && f < s.pushed
    ensures Done(s, f) <==> f < s.emptyAt
    ensures Queued(s, f) <==> s.emptyAt <= f
  {
    ReachableInv(cfg, s);
    CountZero(s.workers, Alive);
    hide Count;
    if f < |s.workers| {
      assert s.workers[f] in s.workers;
    } else {
      assert s.queue[f - |s.workers|] == f;
    }
  }

  // Wait returns an error only of a function that failed, and nil only when the queue was cancelled.
  lemma WaitResult(cfg: Config, s: State)
    requires Reachable(cfg, s) && s.waiter.Returned?
    ensures match s.waiter.err
            case Some(f) => f < |s.workers| && cfg.fails(f)
            case None => s.runner == Cancelled
  {
    ReachableInv(cfg, s);
    hide Count;
  }

  // f is the first in the buffer, or the one that Wait has returned.
  ghost predicate FirstError(s: State, f: nat) {
    if s.waiter.Returned? && s.waiter.err.Some? then s.waiter.err == Some(f)
    else s.waiter.Returned? || (s.errs != [] && s.errs[0] == f)
  }

  lemma FirstErrorStays(cfg: Config, s: State, f: nat, step: Step)
    requires FirstError(s, f) && Next(cfg, s, step) != None
    ensures FirstError(Next(cfg, s, step).value, f)
  {
  }

  lemma {:induction false} FirstErrorRun(cfg: Config, s: State, f: nat, steps: seq<Step>)
    requires FirstError(s, f) && Exec(cfg, s, steps) != None
    ensures FirstError(Exec(cfg, s, steps).value, f)
    decreases |steps|
  {
    hide Next, FirstError;
    if steps != [] {
      FirstErrorStays(cfg, s, f, steps[0]);
      FirstErrorRun(cfg, Next(cfg, s, steps[0]).value, f, steps[1..]);
    }
  }

  // Wait returns the first error: once a worker has reported into the empty buffer before Wait has returned, whatever
  // follows, an error that Wait returns is that one.
  lemma {:induction false} WaitReturnsFirst(cfg: Config, s: State, f: nat, steps: seq<Step>)
    requires s.errs == [] && !s.waiter.Returned? && f < |s.workers| && s.workers[f] == Reporting
    requires Exec(cfg, s, [Worker(f)] + steps) != None
    ensures var end := Exec(cfg, s, [Worker(f)] + steps).value;
            end.waiter.Returned? && end.waiter.err != None ==> end.waiter.err == Some(f)
  {
    assert ([Worker(f)] + steps)[1..] == steps;
    var s' := Next(cfg, s, Worker(f)).value;
    assert FirstError(s', f);
    hide Next;
    FirstErrorRun(cfg, s', f, steps);
  }

  // The queue and the count change under the queue's mutex, one at a time: while the runner takes a function off or a
  // worker counts itself out, nobody else does and no push gets in. And while the runner holds the lock it has just
  // tried, Wait has to wait.
  lemma {:induction false} Exclusive(cfg: Config, s: State)
    requires Reachable(cfg, s)
    ensures forall f, g | 0 <= f < g < |s.workers| :: s.workers[f] != Decrementing || s.workers[g] != Decrementing
    ensures s.runner == Popping ==> forall w <- s.workers :: w != Decrementing
    ensures s.runner == Popping || Decrementing in s.workers ==> Next(cfg, s, Push) == None
    ensures s.runner == Popping ==> Next(cfg, s, Runner) != None
    ensures s.runner == TryWaiting && s.waiter == NotWaiting ==>
              var s1 := Next(cfg, s, Runner);
              s1 != None && Next(cfg, s1.value, Waiter) == None
              && Next(cfg, s1.value, Runner) == Some(s.(runner := CheckSlots))
  {
    ReachableInv(cfg, s);
    hide Reachable;
  }

  // ---- building runs

  lemma {:induction false} ExecConcat(cfg: Config, s: State, a: seq<Step>, b: seq<Step>)
    requires Exec(cfg, s, a) != None
    ensures Exec(cfg, s, a + b) == Exec(cfg, Exec(cfg, s, a).value, b)
    decreases |a|
  {
    hide Next;
    if a == [] {
      assert a + b == b;
    } else {
      assert (a + b)[1..] == a[1..] + b;
      ExecConcat(cfg, Next(cfg, s, a[0]).value, a[1..], b);
    }
  }

  lemma Extend(cfg: Config, s: State, step: Step) returns (s': State)
    requires Reachable(cfg, s) && Next(cfg, s, step) != None
    ensures s' == Next(cfg, s, step).value && Reachable(cfg, s')
  {
    hide Next;
    var steps :| Exec(cfg, INITIAL, steps) == Some(s);
    s' := Next(cfg, s, step).value;
    ExecConcat(cfg, INITIAL, steps, [step]);
    assert [step][1..] == [];
    assert Exec(cfg, s, [step]) == Some(s');
    assert Exec(cfg, INITIAL, steps + [step]) == Some(s');
  }

  lemma Begin(cfg: Config)
    ensures Reachable(cfg, INITIAL)
  {
    assert Exec(cfg, INITIAL, []) == Some(INITIAL);
  }

  // A function pushed before Wait is called can be lost: the push falls between the runner's look at the queue and
  // its attempt on the waiting lock.
  lemma PushBeforeWaitCanBeLost(cfg: Config) returns (beforeWait: State, s: State)
    requires cfg.concurrency >= 1
    ensures Reachable(cfg, beforeWait) && beforeWait.pushed == 1 && beforeWait.waiter == NotWaiting
    ensures Reachable(cfg, s) && s.waiter == Returned(None) && s.runner == Cancelled && Queued(s, 0)
    ensures exists steps :: Exec(cfg, beforeWait, steps) == Some(s)
  {
    Begin(cfg);
    var s1 := Extend(cfg, INITIAL, Runner);
    var s2 := Extend(cfg, s1, Runner);
    beforeWait := Extend(cfg, s2, Push);
    var s4 := Extend(cfg, beforeWait, Waiter);
    var s5 := Extend(cfg, s4, Runner);
    var s6 := Extend(cfg, s5, Runner);
    var s7 := Extend(cfg, s6, Waiter);
    s := Extend(cfg, s7, WaiterGivesUp);
    assert Exec(cfg, s7, [WaiterGivesUp]) == Some(s);
    assert Exec(cfg, s6, [Waiter, WaiterGivesUp]) == Some(s);
    assert Exec(cfg, s5, [Runner, Waiter, WaiterGivesUp]) == Some(s);
    assert Exec(cfg, s4, [Runner, Runner, Waiter, WaiterGivesUp]) == Some(s);
    assert Exec(cfg, beforeWait, [Waiter, Runner, Runner, Waiter, WaiterGivesUp]) == Some(s);
  }

  // What stays true once Wait, called in state w, holds its lock. A runner that had found the queue empty, but not yet
  // tried the lock, goes on to cancel with what it saw; any other sees an empty queue only when all that was pushed by
  // then has been started.
  ghost predicate SinceWait(w: State, s: State) {
    && s.waiting == ByWaiter && s.pushed >= w.pushed
    && if w.runner == TryWaiting then s.runner in {TryWaiting, AwaitWorkers, Cancelled} && s.emptyAt == w.emptyAt
       else s.runner in {TryWaiting, AwaitWorkers, Cancelled} ==> s.emptyAt >= w.pushed
  }

  lemma SinceWaitStep(cfg: Config, w: State, s: State, step: Step)
    requires Inv(cfg, s) && SinceWait(w, s) && Next(cfg, s, step) != None
    ensures SinceWait(w, Next(cfg, s, step).value)
  {
    hide Count, Counted, InOrder, ErrorsSound, Phased;
  }

  lemma {:induction false} SinceWaitRun(cfg: Config, w: State, s: State, steps: seq<Step>)
    requires Inv(cfg, s) && SinceWait(w, s) && Exec(cfg, s, steps) != None
    ensures SinceWait(w, Exec(cfg, s, steps).value)
    decreases |steps|
  {
    hide Next, Inv, SinceWait;
    if steps != [] {
      InvStep(cfg, s, steps[0]);
      SinceWaitStep(cfg, w, s, steps[0]);
      SinceWaitRun(cfg, w, Next(cfg, s, steps[0]).value, steps[1..]);
    }
  }

  // Exactly which functions pushed before Wait takes its lock are lost: those pushed after the runner saw an empty
  // queue, if it has not tried the lock since; and then they are lost in every run that ends.
  lemma {:induction false} LostExactly(cfg: Config, w: State, steps: seq<Step>, f: nat)
    requires Reachable(cfg, w) && w.waiter == NotWaiting && Next(cfg, w, Waiter) != None && f < w.pushed
    requires var end := Exec(cfg, w, [Waiter] + steps); end != None && end.value.runner == Cancelled
    ensures Queued(Exec(cfg, w, [Waiter] + steps).value, f) <==> w.runner == TryWaiting && w.emptyAt <= f
  {
    var s := Extend(cfg, w, Waiter);
    assert ([Waiter] + steps)[1..] == steps;
    ReachableInv(cfg, w);
    ReachableInv(cfg, s);
    assert SinceWait(w, s);
    hide Next, Inv, Count;
    SinceWaitRun(cfg, w, s, steps);
    var end := Exec(cfg, s, steps).value;
    InitialRun(cfg, s, steps);
    CancelledMeansFinished(cfg, end, f);
  }

  // What a reachable state leads to is reachable.
  lemma {:induction false} InitialRun(cfg: Config, s: State, steps: seq<Step>)
    requires Reachable(cfg, s) && Exec(cfg, s, steps) != None
    ensures Reachable(cfg, Exec(cfg, s, steps).value)
  {
    hide Next;
    var before :| Exec(cfg, INITIAL, before) == Some(s);
    ExecConcat(cfg, INITIAL, before, steps);
    assert Exec(cfg, INITIAL, before + steps) == Exec(cfg, s, steps);
  }

  // ---- one function after another

  function AllGone(n: nat): seq<WorkerPc> { seq(n, _ => Gone) }

  // The failing functions among the first n, in order.
  function Failing(cfg: Config, n: nat): (r: seq<nat>)
    ensures forall f: nat :: f in r <==> f < n && cfg.fails(f)
  {
    if n == 0 then [] else Failing(cfg, n - 1) + if cfg.fails(n - 1) then [n - 1] else []
  }

  // n functions were pushed and run to their end one by one; their errors are buffered.
  function Quiet(cfg: Config, n: nat, emptyAt: nat): State {
    State(n, [], AllGone(n), 0, 0, Free, Free, Failing(cfg, n), CheckSlots, NotWaiting, emptyAt)
  }

  // Pushing the next function, up to where the runner takes it off the queue.
  lemma AtNext(cfg: Config, n: nat) returns (s: State)
    requires cfg.concurrency >= 1 && Reachable(cfg, Quiet(cfg, n, 0))
    ensures Reachable(cfg, s)
    ensures s == Quiet(cfg, n, 0).(pushed := n + 1, queue := [n], queueMux := ByRunner, runner := Popping)
  {
    hide Reachable, Failing, AllGone;
    s := Extend(cfg, Quiet(cfg, n, 0), Push);
    s := Extend(cfg, s, Runner);
    s := Extend(cfg, s, Runner);
    s := Extend(cfg, s, Runner);
  }

  // Pushing and starting the next function.
  lemma StartNext(cfg: Config, n: nat) returns (s: State)
    requires cfg.concurrency >= 1 && Reachable(cfg, Quiet(cfg, n, 0))
    ensures Reachable(cfg, s)
    ensures s == Quiet(cfg, n, 0).(pushed := n + 1, workers := AllGone(n) + [Executing], current := 1, wg := 1)
  {
    hide Reachable, Failing, AllGone;
    s := AtNext(cfg, n);
    s := Extend(cfg, s, Runner);
    assert [n][1..] == [];
  }

  // Running it to its end, when its error, if any, fits the buffer.
  lemma FinishNext(cfg: Config, n: nat)
    requires cfg.concurrency >= 1 && Reachable(cfg, Quiet(cfg, n, 0))
    requires cfg.fails(n) ==> |Failing(cfg, n)| < cfg.Capacity()
    ensures Reachable(cfg, Quiet(cfg, n + 1, 0))
  {
    var s := StartNext(cfg, n);
    s := Extend(cfg, s, Worker(n));
    if cfg.fails(n) {
      s := Extend(cfg, s, Worker(n));
    }
    s := Extend(cfg, s, Worker(n));
    s := Extend(cfg, s, Worker(n));
    s := Extend(cfg, s, Worker(n));
    assert s.workers == AllGone(n + 1);
    assert s == Quiet(cfg, n + 1, 0);
  }

  lemma {:induction false} RunOneByOne(cfg: Config, n: nat)
    requires cfg.concurrency >= 1 && |Failing(cfg, n)| <= cfg.Capacity()
    ensures Reachable(cfg, Quiet(cfg, n, 0))
  {
    if n == 0 {
      Begin(cfg);
      assert Quiet(cfg, 0, 0) == INITIAL;
    } else {
      RunOneByOne(cfg, n - 1);
      FinishNext(cfg, n - 1);
    }
  }

  // The queue does not stop at the first error: a function starts after an earlier one has failed.
  lemma ContinuesAfterError(cfg: Config) returns (s: State)
    requires cfg.concurrency >= 1 && cfg.fails(0)
    ensures Reachable(cfg, s) && s.errs == [0] && |s.workers| == 2 && s.workers[1] == Executing
  {
    assert Failing(cfg, 0) == [] && Failing(cfg, 1) == [0];
    RunOneByOne(cfg, 1);
    s := StartNext(cfg, 1);
  }

  // The first function that fails, among the first n.
  lemma {:induction false} FirstFailing(cfg: Config, n: nat) returns (k: nat)
    requires Failing(cfg, n) != []
    ensures k < n && cfg.fails(k) && Failing(cfg, k) == []
  {
    if Failing(cfg, n - 1) != [] {
      k := FirstFailing(cfg, n - 1);
    } else {
      k := n - 1;
    }
  }

  // A function has failed and the runner is about to start another.
  ghost predicate StartsAfterError(cfg: Config, s: State) {
    s.runner == Popping && exists f :: Reported(cfg, s, f)
  }

  lemma ContinuesAfterFirst(cfg: Config, k: nat) returns (s: State)
    requires cfg.concurrency >= 1 && cfg.fails(k) && Failing(cfg, k) == []
    ensures Reachable(cfg, s) && StartsAfterError(cfg, s) && s.pushed == k + 2
  {
    OneFailure(cfg, k);
    GoneAt(k + 1, k);
    hide Reachable, StartsAfterError, Failing, AllGone;
    RunOneByOne(cfg, k + 1);
    s := AtNext(cfg, k + 1);
    GoneStarts(cfg, s, k);
  }

  lemma GoneAt(n: nat, i: nat)
    requires i < n
    ensures |AllGone(n)| == n && AllGone(n)[i] == Gone
  {
  }

  lemma OneFailure(cfg: Config, k: nat)
    requires cfg.fails(k) && Failing(cfg, k) == []
    ensures |Failing(cfg, k + 1)| == 1
  {
  }

  lemma GoneStarts(cfg: Config, s: State, f: nat)
    requires s.runner == Popping && f < |s.workers| && s.workers[f] == Gone && cfg.fails(f)
    ensures StartsAfterError(cfg, s)
  {
    assert Reported(cfg, s, f);
  }

  // At Popping one more function was pushed than was started.
  lemma {:induction false} FailedBefore(cfg: Config, s: State)
    requires Inv(cfg, s) && StartsAfterError(cfg, s)
    ensures s.pushed > 0 && Failing(cfg, s.pushed - 1) != []
  {
    hide Failing, Count;
    var f: nat :| Reported(cfg, s, f);
    assert f < s.pushed - 1;
    assert f in Failing(cfg, s.pushed - 1);
  }

  // With at most n pushes, a function can be started after a failure if and only if one before the last fails.
  lemma ContinuesExactly(cfg: Config, n: nat)
    requires cfg.concurrency >= 1
    ensures (exists s :: Reachable(cfg, s) && StartsAfterError(cfg, s) && s.pushed <= n)
            <==> n > 0 && Failing(cfg, n - 1) != []
  {
    hide Failing, Reachable, StartsAfterError, Inv;
    if n > 0 && Failing(cfg, n - 1) != [] {
      var k := FirstFailing(cfg, n - 1);
      var s := ContinuesAfterFirst(cfg, k);
    }
    if s :| Reachable(cfg, s) && StartsAfterError(cfg, s) && s.pushed <= n {
      ReachableInv(cfg, s);
      FailedBefore(cfg, s);
      FailingGrows(cfg, s.pushed - 1, n - 1);
    }
  }

  // ---- Wait

  // Wait has been called and a worker cannot send its error because the buffer is full.
  ghost predicate Blocked(cfg: Config, s: State) {
    && s.waiter == AwaitGroup
    && |s.errs| >= cfg.Capacity()
    && exists f | 0 <= f < |s.workers| :: s.workers[f] == Reporting
  }

  // Then Wait never returns: whatever steps are taken, the queue stays so.
  lemma BlockedStays(cfg: Config, s: State, step: Step)
    requires Reachable(cfg, s) && Blocked(cfg, s) && Next(cfg, s, step) != None
    ensures Blocked(cfg, Next(cfg, s, step).value)
  {
    ReachableInv(cfg, s);
    var f :| 0 <= f < |s.workers| && s.workers[f] == Reporting;
    CountZero(s.workers, Alive);
    assert s.workers[f] in s.workers;
    hide Count, InOrder, Locked, Phased, ErrorsSound, Exec;
    var s' := Next(cfg, s, step).value;
    assert s'.workers[f] == Reporting;
  }

  // One failing function more than the buffer holds is enough.
  lemma TooManyErrorsCanBlock(cfg: Config, n: nat) returns (s: State)
    requires cfg.concurrency >= 1 && cfg.fails(n) && |Failing(cfg, n)| == cfg.Capacity()
    ensures Reachable(cfg, s) && Blocked(cfg, s) && s.pushed == n + 1
  {
    RunOneByOne(cfg, n);
    s := StartNext(cfg, n);
    s := Extend(cfg, s, Worker(n));
    s := Extend(cfg, s, Waiter);
    assert s.workers[n] == Reporting;
  }

  // ---- and otherwise it does return

  // A step that changes the queue and is not a client's push.
  ghost predicate Progress(cfg: Config, s: State, step: Step) {
    step != Push && Next(cfg, s, step) != None && Next(cfg, s, step) != Some(s)
  }

  lemma Without(fs: seq<nat>, k: nat) returns (rest: seq<nat>)
    requires k < |fs| && forall i, j | 0 <= i < j < |fs| :: fs[i] != fs[j]
    ensures |rest| == |fs| - 1 && (forall x <- rest :: x in fs && x != fs[k])
    ensures forall i, j | 0 <= i < j < |rest| :: rest[i] != rest[j]
  {
    rest := fs[..k] + fs[k + 1..];
    assert forall i | 0 <= i < |rest| :: rest[i] == fs[if i < k then i else i + 1];
  }

  lemma {:induction false} DistinctFailing(cfg: Config, n: nat, fs: seq<nat>)
    requires forall i | 0 <= i < |fs| :: fs[i] < n && cfg.fails(fs[i])
    requires forall i, j | 0 <= i < j < |fs| :: fs[i] != fs[j]
    ensures |fs| <= |Failing(cfg, n)|
  {
    if n == 0 {
      assert fs == [];
    } else if n - 1 in fs {
      var k :| 0 <= k < |fs| && fs[k] == n - 1;
      var rest := Without(fs, k);
      forall i | 0 <= i < |rest| ensures rest[i] < n - 1 && cfg.fails(rest[i]) {
        assert rest[i] in fs;
      }
      DistinctFailing(cfg, n - 1, rest);
    } else {
      forall i | 0 <= i < |fs| ensures fs[i] < n - 1 {
        assert fs[i] in fs;
      }
      DistinctFailing(cfg, n - 1, fs);
    }
  }

  // With no more failing functions than the buffer holds, a reporting worker finds room.
  lemma {:induction false} RoomToReport(cfg: Config, s: State, f: nat)
    requires Inv(cfg, s) && f < |s.workers| && s.workers[f] == Reporting && |Failing(cfg, s.pushed)| <= cfg.Capacity()
    ensures |s.errs| < cfg.Capacity()
  {
    hide Count;
    var all := s.errs + [f];
    forall i | 0 <= i < |all| ensures all[i] < s.pushed && cfg.fails(all[i]) {
      if i < |s.errs| {
        assert Reported(cfg, s, s.errs[i]);
      }
    }
    forall i, j | 0 <= i < j < |all| ensures all[i] != all[j] {
      assert Reported(cfg, s, s.errs[i]);
    }
    DistinctFailing(cfg, s.pushed, all);
  }

  // A worker that has not gone can move, or the holder of the lock it waits for can.
  lemma WorkerCanMove(cfg: Config, s: State, f: nat) returns (step: Step)
    requires Inv(cfg, s) && f < |s.workers| && s.workers[f] != Gone && |Failing(cfg, s.pushed)| <= cfg.Capacity()
    ensures Progress(cfg, s, step)
  {
    CountZero(s.workers, Active);
    CountZero(s.workers, Alive);
    assert s.workers[f] in s.workers;
    hide Count;
    step := Worker(f);
    if s.workers[f] == Reporting {
      RoomToReport(cfg, s, f);
    } else if s.workers[f] == Leaving && s.queueMux != Free {
      step := if s.queueMux == ByRunner then Runner else Worker(s.queueMux.f);
      if s.queueMux.ByWorker? {
        var g := s.queueMux.f;
        assert s.workers[g] == Decrementing && s.workers[g] in s.workers;
      }
    }
  }

  // While Wait has not returned, something can move.
  lemma SomethingCanMove(cfg: Config, s: State) returns (step: Step)
    requires Reachable(cfg, s) && cfg.concurrency >= 1 && |Failing(cfg, s.pushed)| <= cfg.Capacity()
    requires s.waiter == AwaitGroup || s.waiter == Selecting
    ensures Progress(cfg, s, step)
  {
    ReachableInv(cfg, s);
    if f :| 0 <= f < |s.workers| && s.workers[f] != Gone {
      step := WorkerCanMove(cfg, s, f);
    } else {
      CountZero(s.workers, Active);
      CountZero(s.workers, Alive);
      hide Count;
      step := if s.waiter == AwaitGroup then Waiter
              else if s.errs != [] then Waiter
              else if s.runner == Cancelled then WaiterGivesUp
              else Runner;
      if step == Runner {
        assert s.current == 0 && s.wg == 0;
        assert !s.queueMux.ByWorker?;
      }
    }
  }

  function WorkerRank(w: WorkerPc): nat {
    match w
    case Executing => 5
    case Reporting => 4
    case Leaving => 3
    case Decrementing => 2
    case Finishing => 1
    case Gone => 0
  }

  function WorkersRank(ws: seq<WorkerPc>): nat {
    if ws == [] then 0 else WorkersRank(ws[..|ws| - 1]) + WorkerRank(ws[|ws| - 1])
  }

  function RunnerRank(r: RunnerPc): nat {
    match r
    case CheckSlots => 6
    case CheckQueue => 5
    case Locking => 4
    case Popping => 3
    case ReleaseWaiting => 7
    case TryWaiting => 2
    case AwaitWorkers => 1
    case Cancelled => 0
  }

  // What is left to do once Wait holds its lock.
  function Measure(s: State): nat {
    10 * |s.queue| + WorkersRank(s.workers) + RunnerRank(s.runner)
    + match s.waiter case NotWaiting => 3 case AwaitGroup => 2 case Selecting => 1 case Returned(_) => 0
  }

  lemma {:induction false} RankUpdate(ws: seq<WorkerPc>, i: nat, w: WorkerPc)
    requires i < |ws|
    ensures WorkersRank(ws[i := w]) == WorkersRank(ws) - WorkerRank(ws[i]) + WorkerRank(w)
  {
    hide WorkerRank;
    var n := |ws| - 1;
    if i == n {
      assert ws[i := w][..n] == ws[..n];
    } else {
      assert ws[i := w][..n] == ws[..n][i := w];
      RankUpdate(ws[..n], i, w);
    }
  }

  lemma ProgressDecreases(cfg: Config, s: State, step: Step)
    requires Reachable(cfg, s) && s.waiter != NotWaiting && Progress(cfg, s, step)
    ensures Measure(Next(cfg, s, step).value) < Measure(s)
    ensures Next(cfg, s, step).value.waiter != NotWaiting && Next(cfg, s, step).value.pushed == s.pushed
  {
    ReachableInv(cfg, s);
    hide Count, WorkerStep, RunnerStep, WaiterStep;
    match step
    case Worker(f) => WorkerProgress(cfg, s, f);
    case Runner => RunnerProgress(cfg, s);
    case Waiter => WaiterProgress(s);
    case WaiterGivesUp =>
  }

  lemma WorkerProgress(cfg: Config, s: State, f: nat)
    requires f < |s.workers| && WorkerStep(cfg, s, f) != None
    ensures var s' := WorkerStep(cfg, s, f).value;
            Measure(s') < Measure(s) && s'.waiter == s.waiter && s'.pushed == s.pushed
  {
    var s' := WorkerStep(cfg, s, f).value;
    hide WorkersRank;
    RankUpdate(s.workers, f, s'.workers[f]);
  }

  lemma RunnerProgress(cfg: Config, s: State)
    requires Locked(s) && s.waiter != NotWaiting && RunnerStep(cfg, s) != None && RunnerStep(cfg, s) != Some(s)
    ensures var s' := RunnerStep(cfg, s).value;
            Measure(s') < Measure(s) && s'.waiter == s.waiter && s'.pushed == s.pushed
  {
    assert (s.workers + [Executing])[..|s.workers|] == s.workers;
    assert WorkersRank(s.workers + [Executing]) == WorkersRank(s.workers) + 5;
    hide WorkersRank;
  }

  lemma WaiterProgress(s: State)
    requires s.waiter != NotWaiting && WaiterStep(s) != None
    ensures var s' := WaiterStep(s).value;
            Measure(s') < Measure(s) && s'.waiter != NotWaiting && s'.pushed == s.pushed
  {
  }

  // A run of progress steps that cannot be continued.
  ghost predicate MaximalRun(cfg: Config, s: State, steps: seq<Step>)
    decreases |steps|
  {
    if steps == [] then forall step :: !Progress(cfg, s, step)
    else Progress(cfg, s, steps[0]) && MaximalRun(cfg, Next(cfg, s, steps[0]).value, steps[1..])
  }

  // Once Wait was called and no more is pushed, with at most as many failing functions as the buffer holds, every
  // run that goes on as long as it can is finite and ends with Wait returned.
  lemma {:induction false} WaitReturns(cfg: Config, s: State, steps: seq<Step>)
    requires Reachable(cfg, s) && cfg.concurrency >= 1 && |Failing(cfg, s.pushed)| <= cfg.Capacity()
    requires s.waiter != NotWaiting && MaximalRun(cfg, s, steps)
    ensures |steps| <= Measure(s)
    ensures Exec(cfg, s, steps) != None && Exec(cfg, s, steps).value.waiter.Returned?
    decreases |steps|
  {
    hide Next, Measure, Reachable, Failing;
    if steps == [] {
      if !s.waiter.Returned? {
        var step := SomethingCanMove(cfg, s);
        assert false;
      }
    } else {
      ProgressDecreases(cfg, s, steps[0]);
      var s' := Extend(cfg, s, steps[0]);
      WaitReturns(cfg, s', steps[1..]);
    }
  }

  lemma {:induction false} FailingGrows(cfg: Config, m: nat, n: nat)
    requires m <= n
    ensures |Failing(cfg, m)| <= |Failing(cfg, n)|
    decreases n
  {
    if m < n {
      FailingGrows(cfg, m, n - 1);
    }
  }

  // The failing function that finds the buffer full.
  lemma {:induction false} Overflowing(cfg: Config, n: nat) returns (k: nat)
    requires |Failing(cfg, n)| > cfg.Capacity()
    ensures k < n && cfg.fails(k) && |Failing(cfg, k)| == cfg.Capacity()
  {
    if |Failing(cfg, n - 1)| > cfg.Capacity() {
      k := Overflowing(cfg, n - 1);
    } else {
      k := n - 1;
    }
  }

  // After at most n pushes Wait can be caught forever if and only if more of them fail than the buffer holds.
  lemma {:induction false} WaitBlocksExactly(cfg: Config, n: nat)
    requires cfg.concurrency >= 1
    ensures (exists s :: Reachable(cfg, s) && Blocked(cfg, s) && s.pushed <= n)
            <==> |Failing(cfg, n)| > cfg.concurrency + 1
  {
    if |Failing(cfg, n)| > cfg.Capacity() {
      var k := Overflowing(cfg, n);
      var s := TooManyErrorsCanBlock(cfg, k);
    }
    hide Failing;
    if s :| Reachable(cfg, s) && Blocked(cfg, s) && s.pushed <= n {
      ReachableInv(cfg, s);
      var f :| 0 <= f < |s.workers| && s.workers[f] == Reporting;
      FailingGrows(cfg, s.pushed, n);
      if |Failing(cfg, n)| <= cfg.Capacity() {
        RoomToReport(cfg, s, f);
      }
    }
  }

  // ---- Wait never returning, in its own words

  // Wait was called, and no steps lead to its return.
  ghost predicate NeverReturns(cfg: Config, s: State) {
    s.waiter != NotWaiting && forall steps :: Exec(cfg, s, steps) != None ==>
        !Exec(cfg, s, steps).value.waiter.Returned?
  }

  lemma {:induction false} BlockedForever(cfg: Config, s: State, steps: seq<Step>)
    requires Reachable(cfg, s) && Blocked(cfg, s) && Exec(cfg, s, steps) != None
    ensures Blocked(cfg, Exec(cfg, s, steps).value)
    decreases |steps|
  {
    hide Next, Blocked, Reachable;
    if steps != [] {
      BlockedStays(cfg, s, steps[0]);
      var s' := Extend(cfg, s, steps[0]);
      BlockedForever(cfg, s', steps[1..]);
    }
  }

  lemma {:induction false} LeadsToReturn(cfg: Config, s: State) returns (steps: seq<Step>)
    requires Reachable(cfg, s) && cfg.concurrency >= 1 && |Failing(cfg, s.pushed)| <= cfg.Capacity()
    requires s.waiter != NotWaiting
    ensures Exec(cfg, s, steps) != None && Exec(cfg, s, steps).value.waiter.Returned?
    decreases Measure(s)
  {
    hide Next, Measure, Reachable, Failing;
    if s.waiter.Returned? {
      steps := [];
    } else {
      var step := SomethingCanMove(cfg, s);
      ProgressDecreases(cfg, s, step);
      var s' := Extend(cfg, s, step);
      var rest := LeadsToReturn(cfg, s');
      steps := [step] + rest;
      assert steps[1..] == rest;
    }
  }

  // With at most n pushes, Wait can get where it never returns if and only if more of the first n functions fail than
  // the buffer holds.
  lemma {:induction false} NeverReturnsExactly(cfg: Config, n: nat)
    requires cfg.concurrency >= 1
    ensures (exists s :: Reachable(cfg, s) && NeverReturns(cfg, s) && s.pushed <= n)
            <==> |Failing(cfg, n)| > cfg.concurrency + 1
  {
    hide Failing, Reachable, Exec;
    if |Failing(cfg, n)| > cfg.Capacity() {
      WaitBlocksExactly(cfg, n);
      var s :| Reachable(cfg, s) && Blocked(cfg, s) && s.pushed <= n;
      forall steps | Exec(cfg, s, steps) != None ensures !Exec(cfg, s, steps).value.waiter.Returned? {
        BlockedForever(cfg, s, steps);
      }
      assert NeverReturns(cfg, s);
    } else if s :| Reachable(cfg, s) && NeverReturns(cfg, s) && s.pushed <= n {
      FailingGrows(cfg, s.pushed, n);
      var steps := LeadsToReturn(cfg, s);
      assert false;
    }
  }
}
