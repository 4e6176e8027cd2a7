/** Run laws of the process manager that look back over a stretch of a run: semaphore accounting,
    timers that fire on the tick they were set for, and the idle process. */
module ProcessHistory {
  import opened Basics
  import opened SleepQueue
  import opened ProcessModel
  import opened ProcessInvariant
  import opened ProcessRuns

  // ----- Semaphore accounting -----

  /** How many of the steps `lo..hi` are the call `op`. */
  function Calls(run: seq<Step>, lo: nat, hi: nat, op: Op): nat
    requires lo <= hi <= |run|
  {
    if lo == hi then 0 else Calls(run, lo, hi - 1, op) + if run[hi - 1].op == op then 1 else 0
  }

  /** The process that a step makes block on `sid`, if any. */
  function JoinedBy(s: Step, sid: Sid): seq<Pid> {
    if s.op == CallWaitSemaphore(sid) && sid in s.before.stable && s.before.stable[sid].count <= 0
    then [s.before.running] else []
  }

  /** The process that a step signals out of the queue of `sid`, if any. */
  function LeftBy(s: Step, sid: Sid): seq<Pid> {
    if s.op == CallSignalSemaphore(sid) && sid in s.before.stable && s.before.stable[sid].count < 0
       && s.before.stable[sid].queue != []
    then [s.before.stable[sid].queue[0]] else []
  }

  /** The processes that blocked on `sid`, in the order they did. */
  function Joined(run: seq<Step>, lo: nat, hi: nat, sid: Sid): seq<Pid>
    requires lo <= hi <= |run|
  {
    if lo == hi then [] else Joined(run, lo, hi - 1, sid) + JoinedBy(run[hi - 1], sid)
  }

  /** The processes that a signal released from `sid`, in the order it did. */
  function Left(run: seq<Step>, lo: nat, hi: nat, sid: Sid): seq<Pid>
    requires lo <= hi <= |run|
  {
    if lo == hi then [] else Left(run, lo, hi - 1, sid) + LeftBy(run[hi - 1], sid)
  }

  ghost predicate NotDeleted(run: seq<Step>, lo: nat, hi: nat, sid: Sid)
    requires lo <= hi <= |run|
  {
    forall l :: lo <= l < hi ==> run[l].op != CallDeleteSemaphore(sid)
  }

  lemma {:induction false} OtherSemaphoreStep(s: Step, sid: Sid)
    requires Inv(s.before) && IsStep(s) && sid in s.before.stable
    requires s.op != CallWaitSemaphore(sid) && s.op != CallSignalSemaphore(sid) && s.op != CallDeleteSemaphore(sid)
    ensures sid in s.after.stable && s.after.stable[sid] == s.before.stable[sid]
  {
    StepFrame(s);
    if TouchesSemaphores(s.op) {
      StepSemaphores(s);
    }
  }

  /** A signal counts up and a wait down; who blocks joins the end of the queue and who is released
      leaves its front. */
  predicate Booked(s: Step, sid: Sid, sema: Semaphore, sema': Semaphore) {
    && sema'.count == sema.count
       + (if s.op == CallSignalSemaphore(sid) then 1 else 0) - (if s.op == CallWaitSemaphore(sid) then 1 else 0)
    && LeftBy(s, sid) + sema'.queue == sema.queue + JoinedBy(s, sid)
  }

  lemma {:induction false} OwnSemaphoreStep(s: Step, sid: Sid)
    requires IsStep(s) && sid in s.before.stable && (s.op == CallWaitSemaphore(sid) || s.op == CallSignalSemaphore(sid))
    ensures sid in s.after.stable && Booked(s, sid, s.before.stable[sid], s.after.stable[sid])
  {
    var queue := s.before.stable[sid].queue;
    StepSemaphores(s);
    assert queue != [] ==> queue == [queue[0]] + queue[1..];
  }

  /** What one step that does not delete `sid` does to its count and queue. */
  lemma {:induction false} SemaphoreStep(s: Step, sid: Sid)
    requires Inv(s.before) && IsStep(s) && sid in s.before.stable && s.op != CallDeleteSemaphore(sid)
    ensures sid in s.after.stable && Booked(s, sid, s.before.stable[sid], s.after.stable[sid])
  {
    if s.op == CallWaitSemaphore(sid) || s.op == CallSignalSemaphore(sid) {
      OwnSemaphoreStep(s, sid);
    } else {
      OtherSemaphoreStep(s, sid);
    }
  }

  /** The waiters are the deficit below both zero and the count `n` that the semaphore began with. */
  predicate Balanced(sema: Semaphore, n: int) {
    |sema.queue| == Max(0, Min(0, n) - sema.count) && (n < 0 ==> sema.count <= n)
  }

  lemma {:induction false} StepKeepsBalance(s: Step, sid: Sid, n: int)
    requires Inv(s.before) && IsStep(s) && sid in s.before.stable && s.op != CallDeleteSemaphore(sid)
    requires Balanced(s.before.stable[sid], n)
    ensures sid in s.after.stable && Balanced(s.after.stable[sid], n)
  {
    SemaphoreStep(s, sid);
    var sema, sema' := s.before.stable[sid], s.after.stable[sid];
    assert |LeftBy(s, sid)| + |sema'.queue| == |sema.queue| + |JoinedBy(s, sid)|;
    assert s.op == CallSignalSemaphore(sid) ==> !SignalPanics(s.before, sid);
  }

  lemma {:induction false} AccountingStep(joined: seq<Pid>, left: seq<Pid>, queue: seq<Pid>,
                                          joins: seq<Pid>, leaves: seq<Pid>, queue': seq<Pid>)
    requires joined == left + queue && leaves + queue' == queue + joins
    ensures joined + joins == (left + leaves) + queue'
  {
    assert left + (queue + joins) == left + queue + joins;
    assert left + (leaves + queue') == left + leaves + queue';
  }

  /** The books of `sid` over the steps `lo..hi`, when it began with count `n` and no waiter: the
      count is `n` plus signals minus waits; the queue holds exactly who blocked and was not yet
      released, first come first served; and its length is the deficit below both zero and `n`. */
  ghost predicate Accounted(run: seq<Step>, lo: nat, hi: nat, sid: Sid, n: int)
    requires lo <= hi <= |run|
  {
    var k := StateAt(INITIAL, run, hi);
    && sid in k.stable
    && k.stable[sid].count == n + Calls(run, lo, hi, CallSignalSemaphore(sid)) - Calls(run, lo, hi, CallWaitSemaphore(sid))
    && Joined(run, lo, hi, sid) == Left(run, lo, hi, sid) + k.stable[sid].queue
    && Balanced(k.stable[sid], n)
  }

  lemma {:induction false} ReachableStep(run: seq<Step>, i: nat)
    requires IsRun(INITIAL, run) && i < |run|
    ensures IsStep(run[i]) && Inv(run[i].before)
    ensures run[i].before == StateAt(INITIAL, run, i) && run[i].after == StateAt(INITIAL, run, i + 1)
  {
    InitialInv();
    RunKeepsInv(INITIAL, run, i);
    StepAt(INITIAL, run, i);
  }

  /** The two laws of a step for a step of a run. */
  lemma {:induction false} SemaphoreStepAt(run: seq<Step>, i: nat, sid: Sid, n: int)
    requires IsRun(INITIAL, run) && i < |run| && run[i].op != CallDeleteSemaphore(sid)
    requires sid in StateAt(INITIAL, run, i).stable && Balanced(StateAt(INITIAL, run, i).stable[sid], n)
    ensures var sema := StateAt(INITIAL, run, i).stable[sid];
            && sid in StateAt(INITIAL, run, i + 1).stable
            && Booked(run[i], sid, sema, StateAt(INITIAL, run, i + 1).stable[sid])
            && Balanced(StateAt(INITIAL, run, i + 1).stable[sid], n)
  {
    ReachableStep(run, i);
    SemaphoreStep(run[i], sid);
    StepKeepsBalance(run[i], sid, n);
  }

  lemma {:induction false} AccountedStep(run: seq<Step>, lo: nat, hi: nat, sid: Sid, n: int)
    requires IsRun(INITIAL, run) && lo < hi <= |run| && Accounted(run, lo, hi - 1, sid, n)
    requires run[hi - 1].op != CallDeleteSemaphore(sid)
    ensures Accounted(run, lo, hi, sid, n)
  {
    SemaphoreStepAt(run, hi - 1, sid, n);
    AccountingStep(Joined(run, lo, hi - 1, sid), Left(run, lo, hi - 1, sid), StateAt(INITIAL, run, hi - 1).stable[sid].queue,
                   JoinedBy(run[hi - 1], sid), LeftBy(run[hi - 1], sid), StateAt(INITIAL, run, hi).stable[sid].queue);
  }

  /** The accounting holds from any point where `sid` has count `n` and no waiter (after its creation,
      or a deletion) for as long as it is not deleted. */
  lemma {:induction false} SemaphoreAccounting(run: seq<Step>, lo: nat, hi: nat, sid: Sid, n: int)
    requires IsRun(INITIAL, run) && lo <= hi <= |run| && NotDeleted(run, lo, hi, sid)
    requires var k := StateAt(INITIAL, run, lo); sid in k.stable && k.stable[sid].count == n && k.stable[sid].queue == []
    ensures Accounted(run, lo, hi, sid, n)
  {
    if lo < hi {
      SemaphoreAccounting(run, lo, hi - 1, sid, n);
      AccountedStep(run, lo, hi, sid, n);
    }
  }

  lemma {:induction false} CreatedEmpty(run: seq<Step>, c: nat, sid: Sid, n: int)
    requires IsRun(INITIAL, run) && c < |run|
    requires run[c].op == CallCreateSemaphore(n) && run[c].before.currSid == sid
    ensures var k := StateAt(INITIAL, run, c + 1);
            sid in k.stable && k.stable[sid].count == n && k.stable[sid].queue == []
  {
    StepAt(INITIAL, run, c);
    StepSemaphores(run[c]);
  }

  /** The `unwrap` in `delete_semaphore` fails on a semaphore exactly when it was created with a
      negative count, and the one in `signal_semaphore` exactly when, besides, as many signals as
      waits have passed.  So with counts of zero and more nothing ever panics. */
  lemma {:induction false} PanicsIffNegative(run: seq<Step>, c: nat, hi: nat, sid: Sid, n: int)
    requires IsRun(INITIAL, run) && c < hi <= |run| && NotDeleted(run, c + 1, hi, sid)
    requires run[c].op == CallCreateSemaphore(n) && run[c].before.currSid == sid
    ensures var k := StateAt(INITIAL, run, hi);
            && (DeletePanics(k, sid) <==> n < 0)
            && (SignalPanics(k, sid) <==>
                n < 0 && Calls(run, c + 1, hi, CallSignalSemaphore(sid)) == Calls(run, c + 1, hi, CallWaitSemaphore(sid)))
  {
    CreatedEmpty(run, c, sid, n);
    SemaphoreAccounting(run, c + 1, hi, sid, n);
    BalancePanics(StateAt(INITIAL, run, hi), sid, n);
  }

  lemma {:induction false} BalancePanics(k: Kernel, sid: Sid, n: int)
    requires sid in k.stable && Balanced(k.stable[sid], n)
    ensures DeletePanics(k, sid) <==> n < 0
    ensures SignalPanics(k, sid) ==> n < 0 && k.stable[sid].count >= n
    ensures n < 0 && k.stable[sid].count == n ==> SignalPanics(k, sid)
  {
  }

  /** Deleting a semaphore that was created with a count of zero or more leaves nobody waiting. */
  lemma {:induction false} DeleteEmptiesQueue(run: seq<Step>, c: nat, hi: nat, sid: Sid, n: nat)
    requires IsRun(INITIAL, run) && c < hi < |run| && NotDeleted(run, c + 1, hi, sid)
    requires run[c].op == CallCreateSemaphore(n) && run[c].before.currSid == sid
    requires run[hi].op == CallDeleteSemaphore(sid)
    ensures var before, after := run[hi].before.stable, run[hi].after.stable;
            sid in before && sid in after && after[sid] == Semaphore(SemaFree, Max(0, before[sid].count), [])
  {
    CreatedEmpty(run, c, sid, n);
    StepAt(INITIAL, run, hi);
    SemaphoreAccounting(run, c + 1, hi, sid, n);
    StepSemaphores(run[hi]);
  }

  // ----- Timers -----

  /** Every `sleep` of the run asks for at least one tick. */
  ghost predicate RealSleeps(run: seq<Step>) {
    forall i :: 0 <= i < |run| && run[i].op.CallSleep? ==> run[i].op.delay >= 1
  }

  lemma {:induction false} HeadOfTimers(q: seq<Delay>)
    ensures HeadPositive(q) <==> Timers(q) == [] || Timers(q)[0].due >= 1
  {
  }

  lemma {:induction false} StepKeepsHeadPositive(s: Step)
    requires IsStep(s) && HeadPositive(s.before.sleepers) && (s.op.CallSleep? ==> s.op.delay >= 1)
    ensures HeadPositive(s.after.sleepers)
  {
    HeadOfTimers(s.before.sleepers);
    HeadOfTimers(s.after.sleepers);
    if s.op.CallSleep? {
    } else if s.op.CallWakeup? {
      if Timers(s.after.sleepers) != [] {
        AdvanceDue(Timers(s.before.sleepers), TickLength(Timers(s.before.sleepers)), Timers(s.after.sleepers)[0]);
      }
    } else {
      StepFrame(s);
    }
  }

  lemma {:induction false} HeadStaysPositive(run: seq<Step>, i: nat)
    requires IsRun(INITIAL, run) && RealSleeps(run) && i <= |run|
    ensures HeadPositive(StateAt(INITIAL, run, i).sleepers)
  {
    if i > 0 {
      HeadStaysPositive(run, i - 1);
      StepAt(INITIAL, run, i - 1);
      StepKeepsHeadPositive(run[i - 1]);
    }
  }

  /** A sleep of no ticks leaves a zero delta at the head. */
  lemma {:induction false} ZeroSleepZeroesHead(s: Step)
    requires IsStep(s) && s.op.CallSleep? && s.op.delay == 0
    ensures !HeadPositive(s.after.sleepers)
  {
    HeadOfTimers(s.after.sleepers);
  }

  /** The head delta is positive in every state of a run if and only if every sleep is a real one. */
  lemma {:induction false} RealSleepsIff(run: seq<Step>)
    requires IsRun(INITIAL, run)
    ensures RealSleeps(run) <==> forall i :: 0 <= i <= |run| ==> HeadPositive(StateAt(INITIAL, run, i).sleepers)
  {
    if RealSleeps(run) {
      forall i | 0 <= i <= |run| ensures HeadPositive(StateAt(INITIAL, run, i).sleepers) {
        HeadStaysPositive(run, i);
      }
    } else {
      var i :| 0 <= i < |run| && run[i].op.CallSleep? && run[i].op.delay == 0;
      StepAt(INITIAL, run, i);
      ZeroSleepZeroesHead(run[i]);
    }
  }

  /** With a positive delta at the head, a tick lowers every remaining time by exactly one, and drops
      exactly those that reach zero. */
  lemma {:induction false} TickIsExact(s: Step, pid: Pid, due: nat)
    requires IsStep(s) && s.op == CallWakeup && HeadPositive(s.before.sleepers) && due >= 1
    ensures Timer(pid, due) in Timers(s.after.sleepers) <==> Timer(pid, due + 1) in Timers(s.before.sleepers)
  {
    WakeupAdvances(s);
    HeadOfTimers(s.before.sleepers);
    if s.before.sleepers != [] {
      AdvanceKeeps(Timers(s.before.sleepers), 1, Timer(pid, due));
    }
  }

  lemma {:induction false} WakeupAdvances(s: Step)
    requires IsStep(s) && s.op == CallWakeup
    ensures Timers(s.after.sleepers) == Advance(Timers(s.before.sleepers), TickLength(Timers(s.before.sleepers)))
  {
  }

  /** With a zero delta at the head, one tick passes for nobody. */
  lemma {:induction false} ZeroHeadStopsTheClock(s: Step, pid: Pid, due: nat)
    requires IsStep(s) && s.op == CallWakeup && !HeadPositive(s.before.sleepers) && due >= 1
    ensures Timer(pid, due) in Timers(s.after.sleepers) <==> Timer(pid, due) in Timers(s.before.sleepers)
  {
    WakeupAdvances(s);
    HeadOfTimers(s.before.sleepers);
    AdvanceKeeps(Timers(s.before.sleepers), 0, Timer(pid, due));
  }

  /** What a tick should do to the timers. */
  ghost predicate TicksBy(before: seq<Timer>, after: seq<Timer>) {
    forall pid: Pid, due: nat :: due >= 1 ==> (Timer(pid, due) in after <==> Timer(pid, due + 1) in before)
  }

  /** It does so if and only if the head delta is positive, or no timer has time left anyway. */
  lemma {:induction false} TickIsExactIff(s: Step)
    requires IsStep(s) && s.op == CallWakeup
    ensures TicksBy(Timers(s.before.sleepers), Timers(s.after.sleepers))
            <==> HeadPositive(s.before.sleepers) || forall t :: t in Timers(s.before.sleepers) ==> t.due == 0
  {
    var q := s.before.sleepers;
    forall pid: Pid, due: nat | due >= 1
      ensures HeadPositive(q) ==> (Timer(pid, due) in Timers(s.after.sleepers) <==> Timer(pid, due + 1) in Timers(q))
      ensures !HeadPositive(q) ==> (Timer(pid, due) in Timers(s.after.sleepers) <==> Timer(pid, due) in Timers(q))
    {
      if HeadPositive(q) {
        TickIsExact(s, pid, due);
      } else {
        ZeroHeadStopsTheClock(s, pid, due);
      }
    }
    if !HeadPositive(q) && exists t :: t in Timers(q) && t.due > 0 {
      var last := Timers(q)[|q| - 1];
      LongestTimer(q);
      assert Timer(last.pid, last.due) in Timers(q) && Timer(last.pid, last.due + 1) !in Timers(q);
    }
  }

  /** The last timer of a queue is the longest. */
  lemma {:induction false} LongestTimer(q: seq<Delay>)
    requires q != []
    ensures forall t :: t in Timers(q) ==> t.due <= Timers(q)[|q| - 1].due
  {
    TimersSorted(q);
  }

  lemma {:induction false} TimerStep(s: Step, pid: Pid, due: nat)
    requires IsStep(s) && HeadPositive(s.before.sleepers) && Timer(pid, due) in Timers(s.before.sleepers)
    ensures s.op == CallWakeup && due >= 2 ==> Timer(pid, due - 1) in Timers(s.after.sleepers)
    ensures s.op != CallWakeup ==> Timer(pid, due) in Timers(s.after.sleepers)
  {
    if s.op == CallWakeup {
      if due >= 2 {
        TickIsExact(s, pid, due - 1);
      }
    } else if s.op.CallSleep? {
      InsertKeeps(Timers(s.before.sleepers), Timer(s.op.pid, s.op.delay), Timer(pid, due));
    } else {
      StepFrame(s);
    }
  }

  /** A timer set to `due` at step `lo` has counted the ticks up to step `hi`. */
  ghost predicate Counted(run: seq<Step>, lo: nat, hi: nat, pid: Pid, due: nat)
    requires lo <= hi <= |run|
  {
    Calls(run, lo, hi, CallWakeup) < due ==>
      Timer(pid, due - Calls(run, lo, hi, CallWakeup)) in Timers(StateAt(INITIAL, run, hi).sleepers)
  }

  lemma {:induction false} ReachableTimerStep(run: seq<Step>, i: nat, pid: Pid, due: nat)
    requires IsRun(INITIAL, run) && RealSleeps(run) && i < |run|
    requires Timer(pid, due) in Timers(StateAt(INITIAL, run, i).sleepers)
    ensures run[i].op == CallWakeup && due >= 2 ==> Timer(pid, due - 1) in Timers(StateAt(INITIAL, run, i + 1).sleepers)
    ensures run[i].op != CallWakeup ==> Timer(pid, due) in Timers(StateAt(INITIAL, run, i + 1).sleepers)
  {
    StepAt(INITIAL, run, i);
    HeadStaysPositive(run, i);
    TimerStep(run[i], pid, due);
  }

  /** A timer in the table keeps time over any stretch of a run that is shorter than it. */
  lemma {:induction false} TimerCountsTicks(run: seq<Step>, lo: nat, hi: nat, pid: Pid, due: nat)
    requires IsRun(INITIAL, run) && RealSleeps(run) && lo <= hi <= |run|
    requires Timer(pid, due) in Timers(StateAt(INITIAL, run, lo).sleepers)
    ensures Counted(run, lo, hi, pid, due)
  {
    if lo < hi {
      TimerCountsTicks(run, lo, hi - 1, pid, due);
      var ticks := Calls(run, lo, hi - 1, CallWakeup);
      if ticks < due {
        ReachableTimerStep(run, hi - 1, pid, due - ticks);
      }
    }
  }

  /** Whoever goes to sleep for `delay` ticks is up after exactly that many at the latest: the timer
      set at step `i` is still running before the last tick, and that tick leaves it not asleep. */
  lemma {:induction false} SleeperWakesOnTime(run: seq<Step>, i: nat, j: nat)
    requires IsRun(INITIAL, run) && RealSleeps(run) && i < j < |run|
    requires run[i].op.CallSleep? && run[j].op == CallWakeup
    requires Calls(run, i + 1, j, CallWakeup) + 1 == run[i].op.delay
    ensures var p := run[i].op.pid;
            && Timer(p, 1) in Timers(run[j].before.sleepers)
            && p in run[j].after.ptable && run[j].after.ptable[p].state != Sleep
  {
    var p, delay := run[i].op.pid, run[i].op.delay;
    StepAt(INITIAL, run, i);
    StepAt(INITIAL, run, j);
    InsertKeeps(Timers(run[i].before.sleepers), Timer(p, delay), Timer(p, delay));
    TimerCountsTicks(run, i + 1, j, p, delay);
    InitialInv();
    RunKeepsInv(INITIAL, run, j);
    HeadStaysPositive(run, j);
    DueTimerWakes(run[j], p);
  }

  lemma {:induction false} DueTimerWakes(s: Step, p: Pid)
    requires IsStep(s) && s.op == CallWakeup && Inv(s.before) && HeadPositive(s.before.sleepers)
    requires Timer(p, 1) in Timers(s.before.sleepers)
    ensures p in s.after.ptable && s.after.ptable[p].state != Sleep
  {
    var k := s.before;
    HeadOfTimers(k.sleepers);
    var i :| 0 <= i < |Timers(k.sleepers)| && Timers(k.sleepers)[i] == Timer(p, 1);
    TimerPid(k.sleepers, 0, i);
    assert p in Expired(Timers(k.sleepers), 1);
    var switched :| Next(k, s.op, s.after, switched);
    BracketWakes(k.(sleepers := s.after.sleepers), Due(k), s.after, switched, p);
  }

  /** Nobody in the group is still asleep after a wake bracket, and nobody outside it falls asleep. */
  lemma {:induction false} BracketWakes(k: Kernel, pids: set<Pid>, k': Kernel, switched: bool, p: Pid)
    requires k.running in k.ptable && WakeBracket(k, pids, k', switched) && p in k.ptable
    requires p in pids || k.ptable[p].state != Sleep
    ensures p in k'.ptable && k'.ptable[p].state != Sleep
  {
    var w := WakeAll(if k.deferCount > 0 then k else k.(attempt := false), pids);
    assert p in w.ptable && w.ptable[p].state != Sleep;
  }

  // ----- The idle process -----

  /** Process 0 is running, or ready with a heap entry. */
  ghost predicate IdleAlive(k: Kernel) {
    || (k.running == 0 && StateIs(k, 0, Running))
    || (StateIs(k, 0, Ready) && Entry(k, 0) in k.pqueue)
  }

  /** The operation neither blocks nor kills process 0. */
  predicate SparesIdle(k: Kernel, op: Op) {
    match op
    case CallSleep(p, _) => p != 0
    case CallKill(p) => p != 0
    case CallIoWait(p) => p != 0
    case CallEventWait(p, _) => p != 0
    case CallWaitSemaphore(sid) => k.running != 0 || sid !in k.stable || k.stable[sid].count > 0
    case _ => true
  }

  /** The operation reaches `schedule` once its own work is done. */
  predicate Reschedules(k: Kernel, op: Op) {
    match op
    case CallSchedule => true
    case CallSleep(_, _) => true
    case CallKill(_) => true
    case CallEventWait(_, _) => true
    case CallDeleteSemaphore(_) => true
    case CallWaitSemaphore(sid) => sid in k.stable && k.stable[sid].count <= 0
    case CallWakeup => k.sleepers != []
    case CallEventSignal(event) => event in k.events
    case _ => false
  }

  lemma {:induction false} DispatchKeepsIdle(k: Kernel, k': Kernel, switched: bool)
    requires k.running in k.ptable && IdleAlive(k) && Dispatch(k, k', switched)
    ensures IdleAlive(k') && StateIs(k', k'.running, Running)
  {
    if StateIs(k, 0, Ready) {
      assert Live(k, Entry(k, 0));
      if switched && k'.running != 0 {
        var mid := k'.pqueue - Yielded(k) + multiset{Entry(k, k'.running)};
        assert mid[Entry(k, 0)] == k.pqueue[Entry(k, 0)];
      }
    }
  }

  lemma {:induction false} ScheduleKeepsIdle(k: Kernel, k': Kernel, switched: bool)
    requires k.running in k.ptable && IdleAlive(k) && ScheduleSpec(k, k', switched)
    ensures IdleAlive(k') && (k.deferCount == 0 ==> StateIs(k', k'.running, Running))
  {
    if k.deferCount == 0 {
      DispatchKeepsIdle(k, k', switched);
    }
  }

  lemma {:induction false} BracketKeepsIdle(k: Kernel, pids: set<Pid>, k': Kernel, switched: bool)
    requires k.running in k.ptable && IdleAlive(k) && WakeBracket(k, pids, k', switched)
    ensures IdleAlive(k') && (k.deferCount == 0 ==> StateIs(k', k'.running, Running))
  {
    if k.deferCount == 0 {
      var w := WakeAll(k.(attempt := false), pids);
      assert Entry(w, 0) == Entry(k, 0) && w.ptable[0] == k.ptable[0];
      DispatchKeepsIdle(w, k', switched);
    }
  }

  lemma {:induction false} ReadyKeepsIdle(k: Kernel, p: Pid, k': Kernel, switched: bool)
    requires k.running in k.ptable && p in k.ptable && IdleAlive(k) && ReadySpec(k, p, k', switched)
    ensures IdleAlive(k')
  {
    if Blocked(k.ptable[p].state) {
      ScheduleKeepsIdle(Enqueue(k, p), k', switched);
    }
  }

  lemma {:induction false} WakingKeepsIdle(k: Kernel, op: Op, k': Kernel, switched: bool)
    requires op.CallWakeup? || op.CallDeleteSemaphore?
    requires k.running in k.ptable && Enabled(k, op) && Next(k, op, k', switched) && IdleAlive(k)
    ensures IdleAlive(k')
    ensures Reschedules(k, op) && k.deferCount == 0 ==> StateIs(k', k'.running, Running)
  {
    match op
    case CallWakeup =>
      if k.sleepers != [] {
        BracketKeepsIdle(k.(sleepers := k'.sleepers), Due(k), k', switched);
      }
    case CallDeleteSemaphore(sid) =>
      BracketKeepsIdle(Drain(k, sid), Released(k, sid), k', switched);
  }

  lemma {:induction false} SignalKeepsIdle(k: Kernel, op: Op, k': Kernel, switched: bool)
    requires op.CallKill? || op.CallEventSignal?
    requires k.running in k.ptable && Enabled(k, op) && Next(k, op, k', switched)
    requires IdleAlive(k) && SparesIdle(k, op)
    ensures IdleAlive(k')
    ensures Reschedules(k, op) && k.deferCount == 0 ==> StateIs(k', k'.running, Running)
  {
    match op
    case CallKill(p) =>
      BracketKeepsIdle(Withdraw(SetState(k, p, Free), Exit(p)), Waiters(k, Exit(p)), k', switched);
    case CallEventSignal(event) =>
      if event in k.events {
        BracketKeepsIdle(Withdraw(k, event), Waiters(k, event), k', switched);
      }
  }

  lemma {:induction false} BlockingKeepsIdle(k: Kernel, op: Op, k': Kernel, switched: bool)
    requires op.CallSchedule? || op.CallSleep? || op.CallEventWait? || op.CallWaitSemaphore?
    requires k.running in k.ptable && Enabled(k, op) && Next(k, op, k', switched)
    requires IdleAlive(k) && SparesIdle(k, op)
    ensures IdleAlive(k')
    ensures Reschedules(k, op) && k.deferCount == 0 ==> StateIs(k', k'.running, Running)
  {
    match op
    case CallSchedule => ScheduleKeepsIdle(k, k', switched);
    case CallSleep(p, _) => ScheduleKeepsIdle(SetState(k, p, Sleep).(sleepers := k'.sleepers), k', switched);
    case CallEventWait(p, event) => ScheduleKeepsIdle(AddWaiter(SetState(k, p, EventWait), event, p), k', switched);
    case CallWaitSemaphore(sid) =>
      if k.stable[sid].count <= 0 {
        ScheduleKeepsIdle(JoinQueue(k, sid), k', switched);
      }
  }

  lemma {:induction false} ReadyingKeepsIdle(k: Kernel, op: Op, k': Kernel, switched: bool)
    requires op.CallReady? || op.CallIoSignal? || op.CallSignalSemaphore?
    requires k.running in k.ptable && Enabled(k, op) && Next(k, op, k', switched) && IdleAlive(k)
    ensures IdleAlive(k')
  {
    match op
    case CallReady(p) => ReadyKeepsIdle(k, p, k', switched);
    case CallIoSignal(p) => ReadyKeepsIdle(k, p, k', switched);
    case CallSignalSemaphore(sid) =>
      if k.stable[sid].count < 0 {
        ReadyKeepsIdle(LeaveQueue(k, sid), k.stable[sid].queue[0], k', switched);
      }
  }

  lemma {:induction false} QuietKeepsIdle(k: Kernel, op: Op, k': Kernel, switched: bool)
    requires op.CallDeferStart? || op.CallCreateProcess? || op.CallCreateSemaphore? || op.CallIoWait?
    requires Closed(k) && Enabled(k, op) && Next(k, op, k', switched)
    requires IdleAlive(k) && SparesIdle(k, op)
    ensures IdleAlive(k')
  {
  }

  lemma {:induction false} StepKeepsIdle(k: Kernel, op: Op, k': Kernel, switched: bool)
    requires Closed(k) && Enabled(k, op) && Next(k, op, k', switched)
    requires IdleAlive(k) && SparesIdle(k, op)
    ensures IdleAlive(k')
    ensures Reschedules(k, op) && k.deferCount == 0 ==> StateIs(k', k'.running, Running)
  {
    if op.CallWakeup? || op.CallDeleteSemaphore? {
      WakingKeepsIdle(k, op, k', switched);
    } else if op.CallKill? || op.CallEventSignal? {
      SignalKeepsIdle(k, op, k', switched);
    } else if op.CallReady? || op.CallIoSignal? || op.CallSignalSemaphore? {
      ReadyingKeepsIdle(k, op, k', switched);
    } else if op.CallDeferStop? {
      StopKeepsIdle(k, k', switched);
    } else if op.CallDeferStart? || op.CallCreateProcess? || op.CallCreateSemaphore? || op.CallIoWait? {
      QuietKeepsIdle(k, op, k', switched);
    } else {
      BlockingKeepsIdle(k, op, k', switched);
    }
  }

  lemma {:induction false} StopKeepsIdle(k: Kernel, k': Kernel, switched: bool)
    requires k.running in k.ptable && k.deferCount > 0 && IdleAlive(k) && StopSpec(k, k', switched)
    ensures IdleAlive(k')
  {
    var k1 := k.(deferCount := k.deferCount - 1);
    if k1.deferCount == 0 && k1.attempt {
      DispatchKeepsIdle(k1, k', switched);
    }
  }

  lemma {:induction false} StepSparesIdle(s: Step)
    requires IsStep(s) && Inv(s.before) && IdleAlive(s.before) && SparesIdle(s.before, s.op)
    ensures IdleAlive(s.after)
    ensures Reschedules(s.before, s.op) && s.before.deferCount == 0 ==> StateIs(s.after, s.after.running, Running)
  {
    var switched :| Next(s.before, s.op, s.after, switched);
    StepKeepsIdle(s.before, s.op, s.after, switched);
  }

  ghost predicate IdleSpared(run: seq<Step>) {
    forall i :: 0 <= i < |run| ==> SparesIdle(run[i].before, run[i].op)
  }

  lemma {:induction false} IdleSparedAt(run: seq<Step>, i: nat)
    requires IsRun(INITIAL, run) && IdleSpared(run) && i < |run| && IdleAlive(StateAt(INITIAL, run, i))
    ensures IdleAlive(StateAt(INITIAL, run, i + 1))
    ensures Reschedules(run[i].before, run[i].op) && run[i].before.deferCount == 0 ==>
              StateIs(run[i].after, run[i].after.running, Running)
  {
    ReachableStep(run, i);
    StepSparesIdle(run[i]);
  }

  /** Process 0 is always running or ready in a run that never blocks or kills it. */
  lemma {:induction false} IdleStaysAlive(run: seq<Step>, i: nat)
    requires IsRun(INITIAL, run) && IdleSpared(run) && i <= |run|
    ensures IdleAlive(StateAt(INITIAL, run, i))
  {
    if i > 0 {
      IdleStaysAlive(run, i - 1);
      IdleSparedAt(run, i - 1);
    }
  }

  /** So blocking is real: whoever blocks, sleeps or is killed outside a bracket, a process in state
      Running has the processor afterwards. */
  lemma {:induction false} SomebodyRuns(run: seq<Step>, i: nat)
    requires IsRun(INITIAL, run) && IdleSpared(run) && i < |run|
    requires Reschedules(run[i].before, run[i].op) && run[i].before.deferCount == 0
    ensures StateIs(run[i].after, run[i].after.running, Running)
  {
    IdleStaysAlive(run, i);
    StepAt(INITIAL, run, i);
    IdleSparedAt(run, i);
  }
}
