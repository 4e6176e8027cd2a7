/** What the public operations do to the process they are called for, state by state. */
module ProcessEffects {
  import opened SleepQueue
  import opened ProcessModel
  import opened ProcessInvariant
  import opened ProcessRuns
  import opened ProcessHistory
  import opened ProcessKills

  /** The process has the processor, or is ready with a heap entry of its priority. */
  ghost predicate Runnable(k: Kernel, p: Pid, priority: nat) {
    && p in k.ptable && k.ptable[p].priority == priority
    && match k.ptable[p].state
       case Running => k.running == p
       case Ready => ProcessDesc(priority, p) in k.pqueue
       case _ => false
  }

  /** The states that wait for something. */
  predicate Waits(s: State) {
    match s
    case Suspend => true
    case Sleep => true
    case SemaWait => true
    case IOWait => true
    case EventWait => true
    case Running => false
    case Ready => false
    case Free => false
  }

  // ----- Waking -----

  /** In the process table `p` is ready or running, with its old priority. */
  predicate Awake(k: Kernel, p: Pid, priority: nat) {
    p in k.ptable && k.ptable[p].priority == priority && (k.ptable[p].state == Ready || k.ptable[p].state == Running)
  }

  lemma {:induction false} AwakeIsRunnable(k: Kernel, p: Pid, priority: nat)
    requires NoneLostBut(k, {}) && Awake(k, p, priority)
    ensures Runnable(k, p, priority)
  {
    assert Findable(k, p);
  }

  lemma {:induction false} DispatchAwake(k: Kernel, k': Kernel, switched: bool, p: Pid)
    requires k.running in k.ptable && StateIs(k, p, Ready) && Dispatch(k, k', switched)
    ensures Awake(k', p, k.ptable[p].priority)
  {
  }

  lemma {:induction false} ScheduleAwake(k: Kernel, k': Kernel, switched: bool, p: Pid)
    requires k.running in k.ptable && StateIs(k, p, Ready) && ScheduleSpec(k, k', switched)
    ensures Awake(k', p, k.ptable[p].priority)
  {
    if k.deferCount == 0 {
      DispatchAwake(k, k', switched, p);
    }
  }

  lemma {:induction false} ReadyAwake(k: Kernel, p: Pid, k': Kernel, switched: bool)
    requires k.running in k.ptable && p in k.ptable && Waits(k.ptable[p].state) && ReadySpec(k, p, k', switched)
    ensures Awake(k', p, k.ptable[p].priority)
  {
    ScheduleAwake(Enqueue(k, p), k', switched, p);
  }

  lemma {:induction false} BracketAwake(k: Kernel, pids: set<Pid>, k': Kernel, switched: bool, p: Pid)
    requires k.running in k.ptable && p in pids && p in k.ptable && Waits(k.ptable[p].state)
    requires WakeBracket(k, pids, k', switched)
    ensures Awake(k', p, k.ptable[p].priority)
  {
    if k.deferCount == 0 {
      DispatchAwake(WakeAll(k.(attempt := false), pids), k', switched, p);
    }
  }

  /** A bracket touches nobody outside its group that is neither running nor ready. */
  lemma {:induction false} BracketSpares(k: Kernel, pids: set<Pid>, k': Kernel, switched: bool, p: Pid)
    requires k.running in k.ptable && p !in pids && Resting(k, p) && WakeBracket(k, pids, k', switched)
    ensures Untouched(k, k', p)
  {
    if k.deferCount == 0 {
      DispatchPasses(WakeAll(k.(attempt := false), pids), k', switched, p);
    }
  }

  // ----- `ready` -----

  lemma {:induction false} ReadyStep(s: Step, p: Pid)
    requires IsStep(s) && (s.op == CallReady(p) || s.op == CallIoSignal(p))
    ensures p in s.before.ptable
    ensures Waits(s.before.ptable[p].state) ==> Awake(s.after, p, s.before.ptable[p].priority)
    ensures !Waits(s.before.ptable[p].state) ==> s.after == s.before
  {
    var switched :| Next(s.before, s.op, s.after, switched);
    if Waits(s.before.ptable[p].state) {
      ReadyAwake(s.before, p, s.after, switched);
    }
  }

  /** `ready` and `io_signal`, state by state: every process that waits becomes runnable, with the
      priority that it has; free, running and ready ones are left alone. */
  lemma {:induction false} ReadyActs(s: Step, p: Pid)
    requires IsStep(s) && Inv(s.before) && (s.op == CallReady(p) || s.op == CallIoSignal(p))
    ensures p in s.before.ptable
    ensures match s.before.ptable[p].state
            case Suspend => Runnable(s.after, p, s.before.ptable[p].priority)
            case Sleep => Runnable(s.after, p, s.before.ptable[p].priority)
            case SemaWait => Runnable(s.after, p, s.before.ptable[p].priority)
            case IOWait => Runnable(s.after, p, s.before.ptable[p].priority)
            case EventWait => Runnable(s.after, p, s.before.ptable[p].priority)
            case Running => s.after == s.before
            case Ready => s.after == s.before
            case Free => s.after == s.before
  {
    ReadyStep(s, p);
    StepKeepsInv(s);
    if Waits(s.before.ptable[p].state) {
      AwakeIsRunnable(s.after, p, s.before.ptable[p].priority);
    }
  }

  /** A created process is new and suspended... */
  lemma {:induction false} CreatedProcess(s: Step, priority: nat)
    requires IsStep(s) && Inv(s.before) && s.op == CallCreateProcess(priority)
    ensures var pid := s.before.currPid;
            && pid !in s.before.ptable && s.after.currPid == pid + 1
            && s.after.ptable == s.before.ptable[pid := Process(Suspend, priority)]
  {
  }

  /** ...and the first `ready` makes it runnable. */
  lemma {:induction false} CreateThenReady(create: Step, ready: Step, priority: nat)
    requires IsStep(create) && Inv(create.before) && create.op == CallCreateProcess(priority)
    requires IsStep(ready) && ready.before == create.after && ready.op == CallReady(create.before.currPid)
    ensures Runnable(ready.after, create.before.currPid, priority)
  {
    CreatedProcess(create, priority);
    StepKeepsInv(create);
    ReadyActs(ready, create.before.currPid);
  }

  // ----- `schedule` -----

  /** An undeferred `schedule` takes the processor from a running process if and only if some ready one is
      at least as urgent: equals take turns. */
  lemma {:induction false} ScheduleYieldsIff(s: Step)
    requires IsStep(s) && Inv(s.before) && s.op == CallSchedule && s.before.deferCount == 0
    requires StateIs(s.before, s.before.running, Running)
    ensures s.after.running != s.before.running <==>
            exists p :: StateIs(s.before, p, Ready) && s.before.ptable[p].priority >= s.before.ptable[s.before.running].priority
    ensures s.after.running != s.before.running ==>
              StateIs(s.after, s.before.running, Ready) && Entry(s.before, s.before.running) in s.after.pqueue
  {
    var k := s.before;
    var switched :| Next(k, s.op, s.after, switched);
    if exists p :: StateIs(k, p, Ready) && k.ptable[p].priority >= k.ptable[k.running].priority {
      var p :| StateIs(k, p, Ready) && k.ptable[p].priority >= k.ptable[k.running].priority;
      ReadyIsLive(k, p);
    }
    if switched {
      assert Top(k, Entry(k, s.after.running));
      SwitchAway(k, s.after);
    }
  }

  lemma {:induction false} SwitchAway(k: Kernel, k': Kernel)
    requires Closed(k) && StateIs(k, k.running, Running) && Dispatch(k, k', true)
    ensures k'.running != k.running && StateIs(k, k'.running, Ready)
    ensures k.ptable[k'.running].priority >= k.ptable[k.running].priority
    ensures StateIs(k', k.running, Ready) && Entry(k, k.running) in k'.pqueue
  {
    var d :| d in k.pqueue && Live(k, d) && d.priority >= k.ptable[k.running].priority;
    assert d.priority <= k.ptable[k'.running].priority;
    assert Entry(k, k.running) in Yielded(k);
  }

  // ----- Blocking -----

  /** The state that a blocking operation puts its process into. */
  lemma {:induction false} BlocksAs(s: Step, p: Pid)
    requires IsStep(s) && PutsToWait(s.before, s.op, p)
    ensures p in s.after.ptable
    ensures match s.op
            case CallSleep(_, _) => s.after.ptable[p].state == Sleep
            case CallIoWait(_) => s.after.ptable[p].state == IOWait
            case CallEventWait(_, _) => s.after.ptable[p].state == EventWait
            case CallWaitSemaphore(_) => s.after.ptable[p].state == SemaWait
            case _ => false
  {
    var k := s.before;
    var switched :| Next(k, s.op, s.after, switched);
    match s.op
    case CallSleep(_, _) => SchedulePasses(SetState(k, p, Sleep).(sleepers := s.after.sleepers), s.after, switched, p);
    case CallIoWait(_) =>
    case CallEventWait(_, event) => SchedulePasses(AddWaiter(SetState(k, p, EventWait), event, p), s.after, switched, p);
    case CallWaitSemaphore(sid) => SchedulePasses(JoinQueue(k, sid), s.after, switched, p);
  }

  // ----- Events -----

  /** The event that an operation signals; `kill` signals the end of its process. */
  predicate SignalsEvent(op: Op, event: ProcessEvent) {
    op == CallEventSignal(event) || (op.CallKill? && event == Exit(op.pid))
  }

  /** Only signals and `event_wait` touch the lists of events. */
  lemma {:induction false} EventLists(s: Step)
    requires IsStep(s)
    ensures match s.op
            case CallEventWait(p, event) =>
              s.after.events == s.before.events[event := (if event in s.before.events then s.before.events[event] else []) + [p]]
            case CallEventSignal(event) => s.after.events == s.before.events - {event}
            case CallKill(p) => s.after.events == s.before.events - {Exit(p)}
            case _ => s.after.events == s.before.events
  {
    var switched :| Next(s.before, s.op, s.after, switched);
    if ListsEvents(s.op) {
      OwnEventLists(s.before, s.op, s.after, switched);
    } else {
      KeptEventLists(s.before, s.op, s.after, switched);
    }
  }

  predicate ListsEvents(op: Op) {
    op.CallEventWait? || op.CallEventSignal? || op.CallKill?
  }

  lemma {:induction false} KeptEventLists(k: Kernel, op: Op, k': Kernel, switched: bool)
    requires !ListsEvents(op) && k.running in k.ptable && Enabled(k, op) && Next(k, op, k', switched)
    ensures k'.events == k.events
  {
    if op.CallWakeup? || op.CallDeleteSemaphore? {
      WakingEventLists(k, op, k', switched);
    } else if op.CallWaitSemaphore? || op.CallSignalSemaphore? || op.CallCreateSemaphore? {
      SemaphoreEventLists(k, op, k', switched);
    } else if op.CallSchedule? || op.CallReady? || op.CallIoSignal? || op.CallSleep? {
      SchedulingEventLists(k, op, k', switched);
    } else {
      QuietEventLists(k, op, k', switched);
    }
  }

  lemma {:induction false} ScheduleEvents(k: Kernel, k': Kernel, switched: bool)
    requires k.running in k.ptable && ScheduleSpec(k, k', switched)
    ensures k'.events == k.events
  {
  }

  lemma {:induction false} BracketEvents(k: Kernel, pids: set<Pid>, k': Kernel, switched: bool)
    requires k.running in k.ptable && WakeBracket(k, pids, k', switched)
    ensures k'.events == k.events
  {
  }

  lemma {:induction false} OwnEventLists(k: Kernel, op: Op, k': Kernel, switched: bool)
    requires ListsEvents(op)
    requires k.running in k.ptable && Enabled(k, op) && Next(k, op, k', switched)
    ensures match op
            case CallEventWait(p, event) =>
              k'.events == k.events[event := (if event in k.events then k.events[event] else []) + [p]]
            case CallEventSignal(event) => k'.events == k.events - {event}
            case CallKill(p) => k'.events == k.events - {Exit(p)}
            case _ => false
  {
    match op
    case CallEventWait(p, event) => ScheduleEvents(AddWaiter(SetState(k, p, EventWait), event, p), k', switched);
    case CallEventSignal(event) =>
      if event in k.events {
        BracketEvents(Withdraw(k, event), Waiters(k, event), k', switched);
      } else {
        assert k.events - {event} == k.events;
      }
    case CallKill(p) => BracketEvents(Withdraw(SetState(k, p, Free), Exit(p)), Waiters(k, Exit(p)), k', switched);
  }

  lemma {:induction false} WakingEventLists(k: Kernel, op: Op, k': Kernel, switched: bool)
    requires op.CallWakeup? || op.CallDeleteSemaphore?
    requires k.running in k.ptable && Enabled(k, op) && Next(k, op, k', switched)
    ensures k'.events == k.events
  {
    match op
    case CallWakeup =>
      if k.sleepers != [] {
        BracketEvents(k.(sleepers := k'.sleepers), Due(k), k', switched);
      }
    case CallDeleteSemaphore(sid) => BracketEvents(Drain(k, sid), Released(k, sid), k', switched);
  }

  lemma {:induction false} ReadyEvents(k: Kernel, p: Pid, k': Kernel, switched: bool)
    requires k.running in k.ptable && p in k.ptable && ReadySpec(k, p, k', switched)
    ensures k'.events == k.events
  {
    if Blocked(k.ptable[p].state) {
      ScheduleEvents(Enqueue(k, p), k', switched);
    }
  }

  lemma {:induction false} SemaphoreEventLists(k: Kernel, op: Op, k': Kernel, switched: bool)
    requires op.CallWaitSemaphore? || op.CallSignalSemaphore? || op.CallCreateSemaphore?
    requires k.running in k.ptable && Enabled(k, op) && Next(k, op, k', switched)
    ensures k'.events == k.events
  {
    match op
    case CallWaitSemaphore(sid) =>
      if k.stable[sid].count <= 0 {
        ScheduleEvents(JoinQueue(k, sid), k', switched);
      }
    case CallSignalSemaphore(sid) =>
      if k.stable[sid].count < 0 {
        ReadyEvents(LeaveQueue(k, sid), k.stable[sid].queue[0], k', switched);
      }
    case CallCreateSemaphore(_) =>
  }

  lemma {:induction false} SchedulingEventLists(k: Kernel, op: Op, k': Kernel, switched: bool)
    requires op.CallSchedule? || op.CallReady? || op.CallIoSignal? || op.CallSleep?
    requires k.running in k.ptable && Enabled(k, op) && Next(k, op, k', switched)
    ensures k'.events == k.events
  {
    match op
    case CallSchedule => ScheduleEvents(k, k', switched);
    case CallReady(p) => ReadyEvents(k, p, k', switched);
    case CallIoSignal(p) => ReadyEvents(k, p, k', switched);
    case CallSleep(p, _) => ScheduleEvents(SetState(k, p, Sleep).(sleepers := k'.sleepers), k', switched);
  }

  lemma {:induction false} QuietEventLists(k: Kernel, op: Op, k': Kernel, switched: bool)
    requires op.CallDeferStart? || op.CallDeferStop? || op.CallCreateProcess? || op.CallIoWait?
    requires k.running in k.ptable && Enabled(k, op) && Next(k, op, k', switched)
    ensures k'.events == k.events
  {
  }

  /** A signal empties the list of its event, makes every waiting process of it runnable, and touches
      nobody else that rests. */
  lemma {:induction false} SignalWakes(s: Step, event: ProcessEvent, p: Pid)
    requires IsStep(s) && Inv(s.before) && SignalsEvent(s.op, event) && event in s.before.events
    requires p in s.before.ptable && (s.op.CallKill? ==> p != s.op.pid)
    ensures event !in s.after.events
    ensures p in s.before.events[event] && Waits(s.before.ptable[p].state) ==>
              Runnable(s.after, p, s.before.ptable[p].priority)
    ensures p !in s.before.events[event] && Resting(s.before, p) ==> Untouched(s.before, s.after, p)
  {
    EventLists(s);
    StepKeepsInv(s);
    SignalStep(s, event, p);
    if p in s.before.events[event] && Waits(s.before.ptable[p].state) {
      AwakeIsRunnable(s.after, p, s.before.ptable[p].priority);
    }
  }

  lemma {:induction false} SignalStep(s: Step, event: ProcessEvent, p: Pid)
    requires IsStep(s) && SignalsEvent(s.op, event) && event in s.before.events
    requires p in s.before.ptable && (s.op.CallKill? ==> p != s.op.pid)
    ensures p in s.before.events[event] && Waits(s.before.ptable[p].state) ==> Awake(s.after, p, s.before.ptable[p].priority)
    ensures p !in s.before.events[event] && Resting(s.before, p) ==> Untouched(s.before, s.after, p)
  {
    var k := s.before;
    var switched :| Next(k, s.op, s.after, switched);
    InList(k.events[event], p);
    var k1 := Withdraw(if s.op.CallKill? then SetState(k, s.op.pid, Free) else k, event);
    if p in k.events[event] && Waits(k.ptable[p].state) {
      BracketAwake(k1, Waiters(k, event), s.after, switched, p);
    } else if p !in k.events[event] && Resting(k, p) {
      BracketSpares(k1, Waiters(k, event), s.after, switched, p);
    }
  }

  lemma {:induction false} InList(pids: seq<Pid>, p: Pid)
    ensures p in ToSet(pids) <==> p in pids
  {
  }

  /** No step of these signals the event. */
  ghost predicate NotSignalled(run: seq<Step>, lo: nat, hi: nat, event: ProcessEvent)
    requires lo <= hi <= |run|
  {
    forall l :: lo <= l < hi ==> !SignalsEvent(run[l].op, event)
  }

  /** Who waits for an event is in the list of that event until it is signalled. */
  lemma {:induction false} WaiterListed(run: seq<Step>, i: nat, j: nat, p: Pid, event: ProcessEvent)
    requires IsRun(INITIAL, run) && i < j <= |run| && run[i].op == CallEventWait(p, event)
    requires NotSignalled(run, i + 1, j, event)
    ensures var k := StateAt(INITIAL, run, j); event in k.events && p in k.events[event]
  {
    StepAt(INITIAL, run, j - 1);
    EventLists(run[j - 1]);
    if i + 1 < j {
      WaiterListed(run, i, j - 1, p, event);
      assert !SignalsEvent(run[j - 1].op, event);
    }
  }

  /** So the first signal after an `event_wait` makes that process runnable, if it still waits. */
  lemma {:induction false} WaiterIsSignalled(run: seq<Step>, i: nat, j: nat, p: Pid, event: ProcessEvent)
    requires IsRun(INITIAL, run) && i < j < |run| && run[i].op == CallEventWait(p, event)
    requires NotSignalled(run, i + 1, j, event) && SignalsEvent(run[j].op, event) && (run[j].op.CallKill? ==> p != run[j].op.pid)
    ensures p in run[j].before.ptable
    ensures Waits(run[j].before.ptable[p].state) ==> Runnable(run[j].after, p, run[j].before.ptable[p].priority)
  {
    WaiterListed(run, i, j, p, event);
    ReachableStep(run, j);
    SignalWakes(run[j], event, p);
  }

  // ----- Semaphores -----

  /** A signal on a negative count makes the first waiter runnable. */
  lemma {:induction false} SignalReleases(s: Step, sid: Sid)
    requires IsStep(s) && Inv(s.before) && s.op == CallSignalSemaphore(sid) && s.before.stable[sid].count < 0
    ensures s.before.stable[sid].queue != [] && s.before.stable[sid].queue[0] in s.before.ptable
    ensures var p := s.before.stable[sid].queue[0];
            Waits(s.before.ptable[p].state) ==> Runnable(s.after, p, s.before.ptable[p].priority)
  {
    var k := s.before;
    var p := k.stable[sid].queue[0];
    var switched :| Next(k, s.op, s.after, switched);
    StepKeepsInv(s);
    if Waits(k.ptable[p].state) {
      ReadyAwake(LeaveQueue(k, sid), p, s.after, switched);
      AwakeIsRunnable(s.after, p, k.ptable[p].priority);
    }
  }

  /** The deletion of a semaphore makes as many of its waiters runnable as its count is below zero. */
  lemma {:induction false} DeleteReleases(s: Step, sid: Sid, i: nat)
    requires IsStep(s) && Inv(s.before) && s.op == CallDeleteSemaphore(sid) && i < -s.before.stable[sid].count
    ensures i < |s.before.stable[sid].queue| && s.before.stable[sid].queue[i] in s.before.ptable
    ensures var p := s.before.stable[sid].queue[i];
            Waits(s.before.ptable[p].state) ==> Runnable(s.after, p, s.before.ptable[p].priority)
  {
    var k := s.before;
    var p := k.stable[sid].queue[i];
    assert p in k.stable[sid].queue;
    var switched :| Next(k, s.op, s.after, switched);
    StepKeepsInv(s);
    if Waits(k.ptable[p].state) {
      assert k.stable[sid].queue[..Drained(k.stable[sid])][i] == p;
      BracketAwake(Drain(k, sid), Released(k, sid), s.after, switched, p);
      AwakeIsRunnable(s.after, p, k.ptable[p].priority);
    }
  }

  // ----- Timers -----

  /** A tick makes every sleeper runnable whose timer it runs out... */
  lemma {:induction false} TickWakes(s: Step, p: Pid, i: nat)
    requires IsStep(s) && Inv(s.before) && s.op == CallWakeup && HeadPositive(s.before.sleepers)
    requires i < |Timers(s.before.sleepers)| && Timers(s.before.sleepers)[i] == Timer(p, 1) && StateIs(s.before, p, Sleep)
    ensures Runnable(s.after, p, s.before.ptable[p].priority)
  {
    var k := s.before;
    var switched :| Next(k, s.op, s.after, switched);
    HeadOfTimers(k.sleepers);
    StepKeepsInv(s);
    assert p in Expired(Timers(k.sleepers), 1);
    BracketAwake(k.(sleepers := s.after.sleepers), Due(k), s.after, switched, p);
    AwakeIsRunnable(s.after, p, k.ptable[p].priority);
  }

  /** ...and leaves every sleeper asleep that has no such timer. */
  lemma {:induction false} TickSpares(s: Step, p: Pid)
    requires IsStep(s) && Inv(s.before) && s.op == CallWakeup && StateIs(s.before, p, Sleep)
    requires forall t :: t in Timers(s.before.sleepers) && t.pid == p ==> t.due >= 2
    ensures Untouched(s.before, s.after, p)
  {
    var k := s.before;
    var switched :| Next(k, s.op, s.after, switched);
    if k.sleepers != [] {
      NotDue(k, p);
      BracketSpares(k.(sleepers := s.after.sleepers), Due(k), s.after, switched, p);
    }
  }

  lemma {:induction false} NotDue(k: Kernel, p: Pid)
    requires forall t :: t in Timers(k.sleepers) && t.pid == p ==> t.due >= 2
    ensures p !in Due(k)
  {
    var ts := Timers(k.sleepers);
    if p in Expired(ts, TickLength(ts)) {
      var i :| 0 <= i < |ts| && ts[i].due <= TickLength(ts) && ts[i].pid == p;
      assert ts[i] in ts;
    }
  }

  // ----- Brackets -----

  /** A bracket with nothing in it decides nothing: it only forgets earlier attempts. */
  lemma {:induction false} EmptyBracket(start: Step, stop: Step)
    requires IsStep(start) && start.op == CallDeferStart && start.before.deferCount == 0
    requires IsStep(stop) && stop.before == start.after && stop.op == CallDeferStop
    ensures stop.after == start.before.(attempt := false)
  {
  }
}
