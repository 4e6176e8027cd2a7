/** Properties of every run of the process manager.

    A run is a sequence of successful operations in any order; calls that are refused change nothing
    and are left out of it, and a panic ends it. */
module ProcessRuns {
  import opened ProcessModel
  import opened ProcessInvariant

  datatype Step = Step(before: Kernel, op: Op, after: Kernel)

  ghost predicate IsStep(s: Step) {
    && s.before.running in s.before.ptable
    && Enabled(s.before, s.op)
    && exists switched :: Next(s.before, s.op, s.after, switched)
  }

  /** The state of a run from `k` after its first `i` steps. */
  function StateAt(k: Kernel, run: seq<Step>, i: nat): Kernel
    requires i <= |run|
  {
    if i == 0 then k else run[i - 1].after
  }

  /** Step `i` is an operation on the state that the steps before it led to. */
  ghost predicate Continues(k: Kernel, run: seq<Step>, i: nat)
    requires i < |run|
  {
    IsStep(run[i]) && run[i].before == StateAt(k, run, i)
  }

  ghost predicate IsRun(k: Kernel, run: seq<Step>) {
    forall i :: 0 <= i < |run| ==> Continues(k, run, i)
  }

  lemma {:induction false} StepAt(k: Kernel, run: seq<Step>, i: nat)
    requires IsRun(k, run) && i < |run|
    ensures IsStep(run[i])
    ensures run[i].before == StateAt(k, run, i) && run[i].after == StateAt(k, run, i + 1)
  {
    assert Continues(k, run, i);
  }

  lemma {:induction false} InitialInv()
    ensures Inv(INITIAL)
  {
  }

  lemma {:induction false} StepKeepsInv(s: Step)
    requires IsStep(s) && Inv(s.before)
    ensures Inv(s.after)
  {
    var switched :| Next(s.before, s.op, s.after, switched);
    NextKeepsInv(s.before, s.op, s.after, switched);
  }

  /** The invariant holds before step `i`. */
  ghost predicate InvAt(k: Kernel, run: seq<Step>, i: nat)
    requires i <= |run|
  {
    exists state :: state == StateAt(k, run, i) && Inv(state)
  }

  lemma {:induction false} StepKeepsInvAt(k: Kernel, run: seq<Step>, i: nat)
    requires IsRun(k, run) && i < |run| && InvAt(k, run, i)
    ensures InvAt(k, run, i + 1)
  {
    StepAt(k, run, i);
    StepKeepsInv(run[i]);
    assert Inv(run[i].after);
  }

  lemma {:induction false} RunKeepsInvAt(k: Kernel, run: seq<Step>, i: nat)
    requires IsRun(k, run) && i <= |run| && InvAt(k, run, 0)
    ensures InvAt(k, run, i)
  {
    if i > 0 {
      RunKeepsInvAt(k, run, i - 1);
      StepKeepsInvAt(k, run, i - 1);
    }
  }

  /** Nobody is lost and urgency holds in every reachable state. */
  lemma {:induction false} RunKeepsInv(k: Kernel, run: seq<Step>, i: nat)
    requires Inv(k) && IsRun(k, run) && i <= |run|
    ensures Inv(StateAt(k, run, i))
  {
    RunKeepsInvAt(k, run, i);
  }

  // ----- No process is lost -----

  lemma {:induction false} NoProcessIsLost(run: seq<Step>, i: nat, p: Pid)
    requires IsRun(INITIAL, run) && i <= |run| && p in StateAt(INITIAL, run, i).ptable
    ensures var k := StateAt(INITIAL, run, i);
            && (k.ptable[p].state == Running ==> p == k.running)
            && (k.ptable[p].state == Ready ==> ProcessDesc(k.ptable[p].priority, p) in k.pqueue)
            && (k.ptable[p].state == Sleep ==> InSleepers(k.sleepers, p))
            && (k.ptable[p].state == SemaWait ==> InSemaphore(k.stable, p))
            && (k.ptable[p].state == EventWait ==> InEvent(k.events, p))
  {
    InitialInv();
    RunKeepsInv(INITIAL, run, i);
    assert Findable(StateAt(INITIAL, run, i), p);
  }

  // ----- Priority -----

  /** Between operations, with no bracket open, nobody ready is more urgent than a running process. */
  lemma {:induction false} PriorityGuarantee(run: seq<Step>, i: nat, p: Pid)
    requires IsRun(INITIAL, run) && i <= |run|
    requires var k := StateAt(INITIAL, run, i);
             k.deferCount == 0 && StateIs(k, k.running, Running) && StateIs(k, p, Ready)
    ensures var k := StateAt(INITIAL, run, i); k.ptable[p].priority <= k.ptable[k.running].priority
  {
    InitialInv();
    RunKeepsInv(INITIAL, run, i);
  }

  /** A `schedule` with no bracket open that finds anybody ready runs the most urgent of them. */
  lemma {:induction false} ScheduleFindsMostUrgent(run: seq<Step>, i: nat, p: Pid)
    requires IsRun(INITIAL, run) && i < |run| && run[i].op == CallSchedule
    requires run[i].before.deferCount == 0 && StateIs(run[i].before, p, Ready)
    ensures var k' := run[i].after;
            StateIs(k', k'.running, Running) && run[i].before.ptable[p].priority <= k'.ptable[k'.running].priority
  {
    InitialInv();
    RunKeepsInv(INITIAL, run, i);
    StepAt(INITIAL, run, i);
    var switched :| Next(run[i].before, run[i].op, run[i].after, switched);
    DispatchUrgent(run[i].before, run[i].after, switched, p);
  }

  // ----- What an operation leaves alone -----

  /** The fields that neither waking processes nor switching between them touches. */
  ghost predicate SameBooks(k: Kernel, k': Kernel) {
    k'.deferCount == k.deferCount && k'.stable == k.stable && k'.sleepers == k.sleepers
  }

  lemma {:induction false} DispatchFrame(k: Kernel, k': Kernel, switched: bool)
    requires k.running in k.ptable && Dispatch(k, k', switched)
    ensures SameBooks(k, k')
    ensures k'.running != k.running ==> switched
  {
  }

  lemma {:induction false} BracketFrame(k: Kernel, pids: set<Pid>, k': Kernel, switched: bool)
    requires k.running in k.ptable && WakeBracket(k, pids, k', switched)
    ensures SameBooks(k, k')
    ensures k.deferCount > 0 ==> k'.running == k.running && !switched
  {
    if k.deferCount == 0 {
      DispatchFrame(WakeAll(k.(attempt := false), pids), k', switched);
    }
  }

  /** Operations that name no semaphore leave the semaphore table alone. */
  predicate TouchesSemaphores(op: Op) {
    op.CallCreateSemaphore? || op.CallWaitSemaphore? || op.CallSignalSemaphore? || op.CallDeleteSemaphore?
  }

  function Nesting(op: Op): int {
    if op.CallDeferStart? then 1 else if op.CallDeferStop? then -1 else 0
  }

  lemma {:induction false} SemaphoreFrame(k: Kernel, op: Op, k': Kernel, switched: bool)
    requires TouchesSemaphores(op) && k.running in k.ptable && Enabled(k, op) && Next(k, op, k', switched)
    ensures k'.deferCount == k.deferCount && k'.sleepers == k.sleepers
    ensures k.deferCount > 0 ==> k'.running == k.running
    ensures match op
            case CallCreateSemaphore(count) => k'.stable == AddSemaphore(k, count).stable
            case CallWaitSemaphore(sid) =>
              k'.stable == if k.stable[sid].count <= 0 then JoinQueue(k, sid).stable else Recount(k, sid, -1).stable
            case CallSignalSemaphore(sid) =>
              k'.stable == if k.stable[sid].count < 0 then LeaveQueue(k, sid).stable else Recount(k, sid, 1).stable
            case CallDeleteSemaphore(sid) => k'.stable == Drain(k, sid).stable
            case _ => false
  {
    match op
    case CallDeleteSemaphore(sid) => BracketFrame(Drain(k, sid), Released(k, sid), k', switched);
    case _ =>
  }

  lemma {:induction false} ScheduleFrame(k: Kernel, k': Kernel, switched: bool)
    requires k.running in k.ptable && ScheduleSpec(k, k', switched)
    ensures SameBooks(k, k')
    ensures k.deferCount > 0 ==> k'.running == k.running
  {
  }

  lemma {:induction false} WakingFrame(k: Kernel, op: Op, k': Kernel, switched: bool)
    requires op.CallWakeup? || op.CallKill? || op.CallEventSignal?
    requires k.running in k.ptable && Enabled(k, op) && Next(k, op, k', switched)
    ensures k'.deferCount == k.deferCount && k'.stable == k.stable
    ensures !op.CallWakeup? ==> k'.sleepers == k.sleepers
    ensures k.deferCount > 0 ==> k'.running == k.running
  {
    match op
    case CallWakeup =>
      if k.sleepers != [] {
        BracketFrame(k.(sleepers := k'.sleepers), Due(k), k', switched);
      }
    case CallKill(p) =>
      BracketFrame(Withdraw(SetState(k, p, Free), Exit(p)), Waiters(k, Exit(p)), k', switched);
    case CallEventSignal(event) =>
      if event in k.events {
        BracketFrame(Withdraw(k, event), Waiters(k, event), k', switched);
      }
  }

  lemma {:induction false} ReadyFrame(k: Kernel, p: Pid, k': Kernel, switched: bool)
    requires k.running in k.ptable && p in k.ptable && ReadySpec(k, p, k', switched)
    ensures SameBooks(k, k')
    ensures k.deferCount > 0 ==> k'.running == k.running
  {
    if Blocked(k.ptable[p].state) {
      ScheduleFrame(Enqueue(k, p), k', switched);
    }
  }

  lemma {:induction false} QuietFrame(k: Kernel, op: Op, k': Kernel, switched: bool)
    requires op.CallDeferStart? || op.CallDeferStop? || op.CallCreateProcess? || op.CallIoWait?
    requires k.running in k.ptable && Enabled(k, op) && Next(k, op, k', switched)
    ensures k'.deferCount == k.deferCount + Nesting(op) && k'.stable == k.stable && k'.sleepers == k.sleepers
    ensures k.deferCount > 0 && k'.deferCount > 0 ==> k'.running == k.running
  {
  }

  lemma {:induction false} SchedulingFrame(k: Kernel, op: Op, k': Kernel, switched: bool)
    requires op.CallSchedule? || op.CallReady? || op.CallIoSignal? || op.CallSleep? || op.CallEventWait?
    requires k.running in k.ptable && Enabled(k, op) && Next(k, op, k', switched)
    ensures k'.deferCount == k.deferCount && k'.stable == k.stable
    ensures !op.CallSleep? ==> k'.sleepers == k.sleepers
    ensures k.deferCount > 0 ==> k'.running == k.running
  {
    match op
    case CallSchedule => ScheduleFrame(k, k', switched);
    case CallReady(p) => ReadyFrame(k, p, k', switched);
    case CallIoSignal(p) => ReadyFrame(k, p, k', switched);
    case CallSleep(p, _) => ScheduleFrame(SetState(k, p, Sleep).(sleepers := k'.sleepers), k', switched);
    case CallEventWait(p, event) => ScheduleFrame(AddWaiter(SetState(k, p, EventWait), event, p), k', switched);
  }

  lemma {:induction false} OtherFrame(k: Kernel, op: Op, k': Kernel, switched: bool)
    requires !TouchesSemaphores(op) && k.running in k.ptable && Enabled(k, op) && Next(k, op, k', switched)
    ensures k'.deferCount == k.deferCount + Nesting(op)
    ensures k'.stable == k.stable
    ensures !op.CallSleep? && !op.CallWakeup? ==> k'.sleepers == k.sleepers
    ensures k.deferCount > 0 && k'.deferCount > 0 ==> k'.running == k.running
  {
    if op.CallDeferStart? || op.CallDeferStop? || op.CallCreateProcess? || op.CallIoWait? {
      QuietFrame(k, op, k', switched);
    } else if op.CallWakeup? || op.CallKill? || op.CallEventSignal? {
      WakingFrame(k, op, k', switched);
    } else {
      SchedulingFrame(k, op, k', switched);
    }
  }

  /** How one step changes the nesting depth, the semaphores and the sleepers. */
  lemma {:induction false} StepFrame(s: Step)
    requires IsStep(s)
    ensures s.after.deferCount == s.before.deferCount + Nesting(s.op)
    ensures s.before.deferCount > 0 && s.after.deferCount > 0 ==> s.after.running == s.before.running
    ensures !TouchesSemaphores(s.op) ==> s.after.stable == s.before.stable
    ensures !s.op.CallSleep? && !s.op.CallWakeup? ==> s.after.sleepers == s.before.sleepers
  {
    var switched :| Next(s.before, s.op, s.after, switched);
    if TouchesSemaphores(s.op) {
      SemaphoreFrame(s.before, s.op, s.after, switched);
    } else {
      OtherFrame(s.before, s.op, s.after, switched);
    }
  }

  /** How a semaphore operation changes the semaphore table. */
  lemma {:induction false} StepSemaphores(s: Step)
    requires IsStep(s) && TouchesSemaphores(s.op)
    ensures match s.op
            case CallCreateSemaphore(count) => s.after.stable == AddSemaphore(s.before, count).stable
            case CallWaitSemaphore(sid) =>
              s.after.stable ==
              if s.before.stable[sid].count <= 0 then JoinQueue(s.before, sid).stable else Recount(s.before, sid, -1).stable
            case CallSignalSemaphore(sid) =>
              s.after.stable ==
              if s.before.stable[sid].count < 0 then LeaveQueue(s.before, sid).stable else Recount(s.before, sid, 1).stable
            case CallDeleteSemaphore(sid) => s.after.stable == Drain(s.before, sid).stable
            case _ => false
  {
    var switched :| Next(s.before, s.op, s.after, switched);
    SemaphoreFrame(s.before, s.op, s.after, switched);
  }

  // ----- Defer brackets -----

  /** While a bracket stays open the processor does not change hands, whatever is called. */
  lemma {:induction false} BracketHoldsProcessor(k: Kernel, run: seq<Step>, i: nat, j: nat)
    requires IsRun(k, run) && i <= j <= |run|
    requires forall l :: i <= l <= j ==> StateAt(k, run, l).deferCount > 0
    ensures StateAt(k, run, j).running == StateAt(k, run, i).running
  {
    if i < j {
      BracketHoldsProcessor(k, run, i, j - 1);
      StepAt(k, run, j - 1);
      var s := run[j - 1];
      assert StateAt(k, run, j).deferCount > 0 && StateAt(k, run, j - 1).deferCount > 0;
      StepFrame(s);
    }
  }

  function OpenBrackets(run: seq<Step>, i: nat): int
    requires i <= |run|
  {
    if i == 0 then 0 else OpenBrackets(run, i - 1) + Nesting(run[i - 1].op)
  }

  /** The nesting depth counts exactly the explicit Starts and Stops: every other operation, however
      many processes it readies, closes each bracket it opens. */
  lemma {:induction false} DepthCountsBrackets(run: seq<Step>, i: nat)
    requires IsRun(INITIAL, run) && i <= |run|
    ensures StateAt(INITIAL, run, i).deferCount == OpenBrackets(run, i)
  {
    if i > 0 {
      DepthCountsBrackets(run, i - 1);
      StepAt(INITIAL, run, i - 1);
      var s := run[i - 1];
      StepFrame(s);
    }
  }

  /** The outermost Stop restores urgency, whatever was made ready inside the bracket. */
  lemma {:induction false} OutermostStopRestoresUrgency(run: seq<Step>, i: nat)
    requires IsRun(INITIAL, run) && i < |run|
    requires run[i].op == CallDeferStop && run[i].before.deferCount == 1
    ensures run[i].after.deferCount == 0 && Urgent(run[i].after)
  {
    InitialInv();
    RunKeepsInv(INITIAL, run, i + 1);
    StepAt(INITIAL, run, i);
    StepFrame(run[i]);
  }
}
