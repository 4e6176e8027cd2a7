/** What becomes of a killed process: exactly which operations bring it back. */
module ProcessKills {
  import opened ProcessModel
  import opened ProcessRuns
  import opened ProcessHistory

  /** The operation puts process `p` to wait without looking at its state; `wait_semaphore` does so to
      the process that still has the processor. */
  predicate PutsToWait(k: Kernel, op: Op, p: Pid) {
    match op
    case CallSleep(q, _) => q == p
    case CallIoWait(q) => q == p
    case CallEventWait(q, _) => q == p
    case CallWaitSemaphore(sid) => k.running == p && sid in k.stable && k.stable[sid].count <= 0
    case _ => false
  }

  /** The state of `p` is as it was, and the processor has not come to it. */
  ghost predicate Untouched(k: Kernel, k': Kernel, p: Pid) {
    && p in k.ptable && p in k'.ptable && k'.ptable[p] == k.ptable[p]
    && (k'.running == p ==> k.running == p)
  }

  predicate Resting(k: Kernel, p: Pid) {
    p in k.ptable && k.ptable[p].state != Running && k.ptable[p].state != Ready
  }

  lemma {:induction false} DispatchPasses(k: Kernel, k': Kernel, switched: bool, p: Pid)
    requires k.running in k.ptable && Resting(k, p) && Dispatch(k, k', switched)
    ensures Untouched(k, k', p)
  {
  }

  lemma {:induction false} SchedulePasses(k: Kernel, k': Kernel, switched: bool, p: Pid)
    requires k.running in k.ptable && Resting(k, p) && ScheduleSpec(k, k', switched)
    ensures Untouched(k, k', p)
  {
    if k.deferCount == 0 {
      DispatchPasses(k, k', switched, p);
    }
  }

  lemma {:induction false} BracketPasses(k: Kernel, pids: set<Pid>, k': Kernel, switched: bool, p: Pid)
    requires k.running in k.ptable && StateIs(k, p, Free) && WakeBracket(k, pids, k', switched)
    ensures Untouched(k, k', p)
  {
    if k.deferCount == 0 {
      DispatchPasses(WakeAll(k.(attempt := false), pids), k', switched, p);
    }
  }

  lemma {:induction false} ReadyPasses(k: Kernel, q: Pid, k': Kernel, switched: bool, p: Pid)
    requires k.running in k.ptable && q in k.ptable && StateIs(k, p, Free) && ReadySpec(k, q, k', switched)
    ensures Untouched(k, k', p)
  {
    if Blocked(k.ptable[q].state) {
      SchedulePasses(Enqueue(k, q), k', switched, p);
    }
  }

  // ----- One step -----

  lemma {:induction false} SchedulingPasses(k: Kernel, op: Op, k': Kernel, switched: bool, p: Pid)
    requires op.CallSchedule? || op.CallReady? || op.CallIoSignal? || op.CallDeferStop?
    requires k.running in k.ptable && Enabled(k, op) && Next(k, op, k', switched) && StateIs(k, p, Free)
    ensures Untouched(k, k', p)
  {
    match op
    case CallSchedule => SchedulePasses(k, k', switched, p);
    case CallReady(q) => ReadyPasses(k, q, k', switched, p);
    case CallIoSignal(q) => ReadyPasses(k, q, k', switched, p);
    case CallDeferStop =>
      var k1 := k.(deferCount := k.deferCount - 1);
      if k1.deferCount == 0 && k1.attempt {
        DispatchPasses(k1, k', switched, p);
      }
  }

  lemma {:induction false} WakingPasses(k: Kernel, op: Op, k': Kernel, switched: bool, p: Pid)
    requires op.CallWakeup? || op.CallKill? || op.CallEventSignal? || op.CallDeleteSemaphore?
    requires k.running in k.ptable && Enabled(k, op) && Next(k, op, k', switched) && StateIs(k, p, Free)
    ensures Untouched(k, k', p)
  {
    match op
    case CallWakeup =>
      if k.sleepers != [] {
        BracketPasses(k.(sleepers := k'.sleepers), Due(k), k', switched, p);
      }
    case CallKill(q) =>
      BracketPasses(Withdraw(SetState(k, q, Free), Exit(q)), Waiters(k, Exit(q)), k', switched, p);
    case CallEventSignal(event) =>
      if event in k.events {
        BracketPasses(Withdraw(k, event), Waiters(k, event), k', switched, p);
      }
    case CallDeleteSemaphore(sid) =>
      BracketPasses(Drain(k, sid), Released(k, sid), k', switched, p);
  }

  lemma {:induction false} SignalPasses(k: Kernel, sid: Sid, k': Kernel, switched: bool, p: Pid)
    requires k.running in k.ptable && sid in k.stable && !SignalPanics(k, sid)
    requires SignalSpec(k, sid, k', switched) && StateIs(k, p, Free)
    ensures Untouched(k, k', p)
  {
    if k.stable[sid].count < 0 {
      ReadyPasses(LeaveQueue(k, sid), k.stable[sid].queue[0], k', switched, p);
    }
  }

  lemma {:induction false} QuietPasses(k: Kernel, op: Op, k': Kernel, switched: bool, p: Pid)
    requires op.CallDeferStart? || op.CallCreateProcess? || op.CallCreateSemaphore?
    requires Closed(k) && Enabled(k, op) && Next(k, op, k', switched) && StateIs(k, p, Free)
    ensures Untouched(k, k', p)
  {
  }

  /** Of the operations that block, only the ones on `p` itself touch it; and these end its being free. */
  lemma {:induction false} BlockingEnds(k: Kernel, op: Op, k': Kernel, switched: bool, p: Pid)
    requires op.CallSleep? || op.CallIoWait? || op.CallEventWait?
    requires k.running in k.ptable && Enabled(k, op) && Next(k, op, k', switched) && StateIs(k, p, Free)
    ensures if PutsToWait(k, op, p) then p in k'.ptable && k'.ptable[p].state != Free else Untouched(k, k', p)
  {
    match op
    case CallSleep(q, _) => SchedulePasses(SetState(k, q, Sleep).(sleepers := k'.sleepers), k', switched, p);
    case CallIoWait(_) =>
    case CallEventWait(q, event) => SchedulePasses(AddWaiter(SetState(k, q, EventWait), event, q), k', switched, p);
  }

  lemma {:induction false} WaitEnds(k: Kernel, sid: Sid, k': Kernel, switched: bool, p: Pid)
    requires k.running in k.ptable && sid in k.stable && WaitSpec(k, sid, k', switched) && StateIs(k, p, Free)
    ensures if PutsToWait(k, CallWaitSemaphore(sid), p) then p in k'.ptable && k'.ptable[p].state != Free
            else Untouched(k, k', p)
  {
    if k.stable[sid].count <= 0 {
      SchedulePasses(JoinQueue(k, sid), k', switched, p);
    }
  }

  lemma {:induction false} NextEnds(k: Kernel, op: Op, k': Kernel, switched: bool, p: Pid)
    requires Closed(k) && Enabled(k, op) && Next(k, op, k', switched) && StateIs(k, p, Free)
    ensures if PutsToWait(k, op, p) then p in k'.ptable && k'.ptable[p].state != Free else Untouched(k, k', p)
  {
    if op.CallSleep? || op.CallIoWait? || op.CallEventWait? {
      BlockingEnds(k, op, k', switched, p);
    } else if op.CallWaitSemaphore? {
      WaitEnds(k, op.sid, k', switched, p);
    } else if op.CallSignalSemaphore? {
      SignalPasses(k, op.sid, k', switched, p);
    } else if op.CallWakeup? || op.CallKill? || op.CallEventSignal? || op.CallDeleteSemaphore? {
      WakingPasses(k, op, k', switched, p);
    } else if op.CallDeferStart? || op.CallCreateProcess? || op.CallCreateSemaphore? {
      QuietPasses(k, op, k', switched, p);
    } else {
      SchedulingPasses(k, op, k', switched, p);
    }
  }

  /** A step takes a killed process out of Free if and only if it puts that process to wait. */
  lemma {:induction false} FreeEndsIff(s: Step, p: Pid)
    requires IsStep(s) && Closed(s.before) && StateIs(s.before, p, Free)
    ensures p in s.after.ptable && (s.after.ptable[p].state != Free <==> PutsToWait(s.before, s.op, p))
    ensures !PutsToWait(s.before, s.op, p) ==> Untouched(s.before, s.after, p)
  {
    var switched :| Next(s.before, s.op, s.after, switched);
    NextEnds(s.before, s.op, s.after, switched, p);
  }

  // ----- Runs -----

  /** No operation of these steps puts `p` to wait. */
  ghost predicate NeverPutToWait(run: seq<Step>, lo: nat, hi: nat, p: Pid)
    requires lo <= hi <= |run|
  {
    forall i :: lo <= i < hi ==> !PutsToWait(run[i].before, run[i].op, p)
  }

  lemma {:induction false} StepPasses(run: seq<Step>, i: nat, p: Pid)
    requires IsRun(INITIAL, run) && i < |run| && !PutsToWait(run[i].before, run[i].op, p)
    requires StateIs(StateAt(INITIAL, run, i), p, Free)
    ensures Untouched(StateAt(INITIAL, run, i), StateAt(INITIAL, run, i + 1), p)
  {
    ReachableStep(run, i);
    FreeEndsIff(run[i], p);
  }

  /** Free until put to wait, and while free not given the processor. */
  lemma {:induction false} StaysFree(run: seq<Step>, lo: nat, hi: nat, p: Pid)
    requires IsRun(INITIAL, run) && lo <= hi <= |run| && NeverPutToWait(run, lo, hi, p)
    requires StateIs(StateAt(INITIAL, run, lo), p, Free)
    ensures Untouched(StateAt(INITIAL, run, lo), StateAt(INITIAL, run, hi), p)
  {
    if lo < hi {
      StaysFree(run, lo, hi - 1, p);
      StepPasses(run, hi - 1, p);
    }
  }

  lemma {:induction false} KillFrees(s: Step, p: Pid)
    requires IsStep(s) && s.op == CallKill(p)
    ensures StateIs(s.after, p, Free)
  {
    var switched :| Next(s.before, s.op, s.after, switched);
    var k := Withdraw(SetState(s.before, p, Free), Exit(p));
    BracketPasses(k, Waiters(s.before, Exit(p)), s.after, switched, p);
  }

  lemma {:induction false} KilledAt(run: seq<Step>, i: nat, p: Pid)
    requires IsRun(INITIAL, run) && i < |run| && run[i].op == CallKill(p)
    ensures StateIs(StateAt(INITIAL, run, i + 1), p, Free)
  {
    StepAt(INITIAL, run, i);
    KillFrees(run[i], p);
  }

  /** A killed process stays free in a run that does not put it to wait, and the processor never comes
      back to it once it has left it. */
  lemma {:induction false} KilledNeverRunsAgain(run: seq<Step>, i: nat, l: nat, j: nat, p: Pid)
    requires IsRun(INITIAL, run) && i < l <= j <= |run| && run[i].op == CallKill(p) && NeverPutToWait(run, i + 1, j, p)
    ensures StateIs(StateAt(INITIAL, run, j), p, Free)
    ensures StateAt(INITIAL, run, j).running == p ==> StateAt(INITIAL, run, l).running == p
  {
    KilledAt(run, i, p);
    StaysFree(run, i + 1, l, p);
    StaysFree(run, l, j, p);
  }
}
