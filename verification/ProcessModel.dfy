/** State, step relation and invariant of the process manager (src/process.rs).

    A `Kernel` value is one snapshot of the manager.  `Next` says what each public operation may do
    to it, in terms of which processes are ready and how urgent they are rather than of the loops
    that find them.  A step ends where `schedule` returns or reaches `context_switch`
    (`switched`); whatever the caller would still do then is a later `Schedule` step. */
module ProcessModel {
  import opened SleepQueue
  import opened Words

  type Pid = nat
  type Sid = nat

  datatype ProcessEvent = MouseEvent | KeyboardEvent | Exit(pid: Pid)
  datatype State = Running | Ready | Suspend | Sleep | SemaWait | IOWait | EventWait | Free
  datatype Process = Process(state: State, priority: nat)
  datatype ProcessDesc = ProcessDesc(priority: nat, pid: Pid)
  datatype SemaState = SemaUsed | SemaFree
  datatype Semaphore = Semaphore(state: SemaState, count: int, queue: seq<Pid>)
  datatype ProcessError = ProcessNotFound(pid: Pid) | SemaphoreNotFound(sid: Sid)

  /** How an operation returns; `Panicked` is the failing `unwrap` on an empty waiter queue. */
  datatype Outcome = Done | Failed(error: ProcessError) | Panicked

  datatype Kernel = Kernel(
    ptable: map<Pid, Process>,
    stable: map<Sid, Semaphore>,
    pqueue: multiset<ProcessDesc>,
    sleepers: seq<Delay>,
    events: map<ProcessEvent, seq<Pid>>,
    deferCount: nat,
    attempt: bool,
    currPid: Pid,
    currSid: Sid,
    running: Pid)

  datatype Op =
    | CallSchedule
    | CallReady(pid: Pid)
    | CallDeferStart
    | CallDeferStop
    | CallCreateProcess(priority: nat)
    | CallCreateSemaphore(count: int)
    | CallWaitSemaphore(sid: Sid)
    | CallSignalSemaphore(sid: Sid)
    | CallDeleteSemaphore(sid: Sid)
    | CallSleep(pid: Pid, delay: Usize)
    | CallWakeup
    | CallKill(pid: Pid)
    | CallIoWait(pid: Pid)
    | CallIoSignal(pid: Pid)
    | CallEventWait(pid: Pid, event: ProcessEvent)
    | CallEventSignal(event: ProcessEvent)

  // ----- Vocabulary -----

  predicate Blocked(s: State) {
    s != Free && s != Running && s != Ready
  }

  predicate StateIs(k: Kernel, p: Pid, s: State) {
    p in k.ptable && k.ptable[p].state == s
  }

  function Entry(k: Kernel, p: Pid): ProcessDesc
    requires p in k.ptable
  {
    ProcessDesc(k.ptable[p].priority, p)
  }

  /** A heap entry whose process is ready; all others are stale. */
  predicate Live(k: Kernel, d: ProcessDesc) {
    StateIs(k, d.pid, Ready)
  }

  ghost predicate NothingLive(k: Kernel) {
    forall d :: d in k.pqueue ==> !Live(k, d)
  }

  /** `d` is a live entry of the highest priority. */
  ghost predicate Top(k: Kernel, d: ProcessDesc) {
    d in k.pqueue && Live(k, d) && forall e :: e in k.pqueue && Live(k, e) ==> e.priority <= d.priority
  }

  /** `q` is the heap of `k` without some of its stale entries. */
  ghost predicate Pruned(k: Kernel, q: multiset<ProcessDesc>) {
    q <= k.pqueue && forall d :: d in k.pqueue && Live(k, d) ==> q[d] == k.pqueue[d]
  }

  function SetState(k: Kernel, p: Pid, s: State): (k': Kernel)
    requires p in k.ptable
    ensures k'.ptable.Keys == k.ptable.Keys
  {
    k.(ptable := k.ptable[p := k.ptable[p].(state := s)])
  }

  /** `p` becomes ready and gets a heap entry of its own priority. */
  function Enqueue(k: Kernel, p: Pid): Kernel
    requires p in k.ptable
  {
    SetState(k, p, Ready).(pqueue := k.pqueue + multiset{Entry(k, p)})
  }

  // ----- Specifications of the shared operations -----

  /** The running process keeps the processor: it is running and strictly above every live entry. */
  ghost predicate Keeps(k: Kernel) {
    StateIs(k, k.running, Running)
    && forall d :: d in k.pqueue && Live(k, d) ==> d.priority < k.ptable[k.running].priority
  }

  /** The heap entry that a preempted process leaves behind. */
  function Yielded(k: Kernel): multiset<ProcessDesc>
    requires k.running in k.ptable
  {
    if k.ptable[k.running].state == Running then multiset{Entry(k, k.running)} else multiset{}
  }

  function Preempt(k: Kernel): Kernel
    requires k.running in k.ptable
  {
    if k.ptable[k.running].state == Running then SetState(k, k.running, Ready) else k
  }

  /** An undeferred `schedule`. */
  ghost predicate Dispatch(k: Kernel, k': Kernel, switched: bool)
    requires k.running in k.ptable
  {
    if NothingLive(k) then
      !switched && k' == k.(pqueue := multiset{})
    else if Keeps(k) then
      !switched && Pruned(k, k'.pqueue) && k' == k.(pqueue := k'.pqueue)
    else
      && switched
      && k'.running in k.ptable
      && Top(k, Entry(k, k'.running))
      && Yielded(k) <= k'.pqueue
      && Pruned(k, k'.pqueue - Yielded(k) + multiset{Entry(k, k'.running)})
      && k' == SetState(Preempt(k), k'.running, Running).(pqueue := k'.pqueue, running := k'.running)
  }

  ghost predicate ScheduleSpec(k: Kernel, k': Kernel, switched: bool)
    requires k.running in k.ptable
  {
    if k.deferCount > 0 then !switched && k' == k.(attempt := true) else Dispatch(k, k', switched)
  }

  ghost predicate ReadySpec(k: Kernel, p: Pid, k': Kernel, switched: bool)
    requires k.running in k.ptable && p in k.ptable
  {
    if Blocked(k.ptable[p].state) then ScheduleSpec(Enqueue(k, p), k', switched) else !switched && k' == k
  }

  /** `ready` while scheduling is deferred. */
  function DeferredReady(k: Kernel, p: Pid): Kernel
    requires p in k.ptable
  {
    if Blocked(k.ptable[p].state) then Enqueue(k, p).(attempt := true) else k
  }

  ghost predicate StopSpec(k: Kernel, k': Kernel, switched: bool)
    requires k.running in k.ptable && k.deferCount > 0
  {
    var k1 := k.(deferCount := k.deferCount - 1);
    if k1.deferCount == 0 && k1.attempt then Dispatch(k1, k', switched) else !switched && k' == k1
  }

  function Start(k: Kernel): Kernel {
    k.(attempt := if k.deferCount == 0 then false else k.attempt, deferCount := k.deferCount + 1)
  }

  function BlockedIn(k: Kernel, pids: set<Pid>): set<Pid> {
    set p | p in pids && p in k.ptable && Blocked(k.ptable[p].state)
  }

  function Entries(k: Kernel, pids: set<Pid>): set<ProcessDesc>
    requires pids <= k.ptable.Keys
  {
    set p | p in pids :: Entry(k, p)
  }

  /** Every blocked process among `pids` made ready at once, while scheduling is deferred. */
  function WakeAll(k: Kernel, pids: set<Pid>): (k': Kernel)
    ensures k'.ptable.Keys == k.ptable.Keys
  {
    var woken := BlockedIn(k, pids);
    k.(ptable := map p | p in k.ptable :: if p in woken then k.ptable[p].(state := Ready) else k.ptable[p],
       pqueue := k.pqueue + multiset(Entries(k, woken)),
       attempt := k.attempt || woken != {})
  }

  /** A deferral bracket that readies `pids`, followed by a `schedule`. */
  ghost predicate WakeBracket(k: Kernel, pids: set<Pid>, k': Kernel, switched: bool)
    requires k.running in k.ptable
  {
    if k.deferCount > 0 then !switched && k' == WakeAll(k, pids).(attempt := true)
    else Dispatch(WakeAll(k.(attempt := false), pids), k', switched)
  }

  // ----- Specifications of the public operations -----

  function Recount(k: Kernel, sid: Sid, change: int): Kernel
    requires sid in k.stable
  {
    k.(stable := k.stable[sid := k.stable[sid].(count := k.stable[sid].count + change)])
  }

  /** The running process joins the end of the waiter queue. */
  function JoinQueue(k: Kernel, sid: Sid): Kernel
    requires k.running in k.ptable && sid in k.stable
  {
    var sema := k.stable[sid];
    SetState(k, k.running, SemaWait).(
      stable := k.stable[sid := Semaphore(sema.state, sema.count - 1, sema.queue + [k.running])])
  }

  /** The first waiter leaves the queue. */
  function LeaveQueue(k: Kernel, sid: Sid): Kernel
    requires sid in k.stable && k.stable[sid].queue != []
  {
    var sema := k.stable[sid];
    k.(stable := k.stable[sid := Semaphore(sema.state, sema.count + 1, sema.queue[1..])])
  }

  ghost predicate WaitSpec(k: Kernel, sid: Sid, k': Kernel, switched: bool)
    requires k.running in k.ptable && sid in k.stable
  {
    if k.stable[sid].count <= 0 then ScheduleSpec(JoinQueue(k, sid), k', switched)
    else !switched && k' == Recount(k, sid, -1)
  }

  /** The `unwrap` of an empty waiter queue. */
  predicate SignalPanics(k: Kernel, sid: Sid) {
    sid in k.stable && k.stable[sid].count < 0 && k.stable[sid].queue == []
  }

  ghost predicate SignalSpec(k: Kernel, sid: Sid, k': Kernel, switched: bool)
    requires k.running in k.ptable && sid in k.stable && !SignalPanics(k, sid)
  {
    if k.stable[sid].count < 0 then
      && k.stable[sid].queue[0] in k.ptable
      && ReadySpec(LeaveQueue(k, sid), k.stable[sid].queue[0], k', switched)
    else
      !switched && k' == Recount(k, sid, 1)
  }

  predicate DeletePanics(k: Kernel, sid: Sid) {
    sid in k.stable && |k.stable[sid].queue| < -k.stable[sid].count
  }

  function ToSet(pids: seq<Pid>): set<Pid> {
    set i | 0 <= i < |pids| :: pids[i]
  }

  /** How many waiters `delete_semaphore` releases. */
  function Drained(sema: Semaphore): nat {
    if sema.count < 0 then -sema.count else 0
  }

  function Drain(k: Kernel, sid: Sid): Kernel
    requires sid in k.stable && !DeletePanics(k, sid)
  {
    var sema := k.stable[sid];
    var n := Drained(sema);
    k.(stable := k.stable[sid := Semaphore(SemaFree, sema.count + n, sema.queue[n..])])
  }

  function Released(k: Kernel, sid: Sid): set<Pid>
    requires sid in k.stable && !DeletePanics(k, sid)
  {
    ToSet(k.stable[sid].queue[..Drained(k.stable[sid])])
  }

  ghost predicate DeleteSpec(k: Kernel, sid: Sid, k': Kernel, switched: bool)
    requires k.running in k.ptable && sid in k.stable && !DeletePanics(k, sid)
  {
    WakeBracket(Drain(k, sid), Released(k, sid), k', switched)
  }

  ghost predicate SleepSpec(k: Kernel, p: Pid, delay: Usize, k': Kernel, switched: bool)
    requires k.running in k.ptable && p in k.ptable
  {
    && Timers(k'.sleepers) == InsertTimer(Timers(k.sleepers), Timer(p, delay))
    && ScheduleSpec(SetState(k, p, Sleep).(sleepers := k'.sleepers), k', switched)
  }

  /** The sleeping processes whose timer runs out at the next tick. */
  function Due(k: Kernel): set<Pid> {
    set p | p in Expired(Timers(k.sleepers), TickLength(Timers(k.sleepers))) && StateIs(k, p, Sleep)
  }

  ghost predicate WakeupSpec(k: Kernel, k': Kernel, switched: bool)
    requires k.running in k.ptable
  {
    if k.sleepers == [] then !switched && k' == k
    else
      && Timers(k'.sleepers) == Advance(Timers(k.sleepers), TickLength(Timers(k.sleepers)))
      && WakeBracket(k.(sleepers := k'.sleepers), Due(k), k', switched)
  }

  function Waiters(k: Kernel, event: ProcessEvent): set<Pid> {
    if event in k.events then ToSet(k.events[event]) else {}
  }

  function Withdraw(k: Kernel, event: ProcessEvent): Kernel {
    k.(events := k.events - {event})
  }

  ghost predicate EventSignalSpec(k: Kernel, event: ProcessEvent, k': Kernel, switched: bool)
    requires k.running in k.ptable
  {
    if event in k.events then WakeBracket(Withdraw(k, event), Waiters(k, event), k', switched)
    else !switched && k' == k.(attempt := k.deferCount > 0 && k.attempt)
  }

  function AddWaiter(k: Kernel, event: ProcessEvent, p: Pid): Kernel {
    k.(events := k.events[event := (if event in k.events then k.events[event] else []) + [p]])
  }

  ghost predicate KillSpec(k: Kernel, p: Pid, k': Kernel, switched: bool)
    requires k.running in k.ptable && p in k.ptable
  {
    WakeBracket(Withdraw(SetState(k, p, Free), Exit(p)), Waiters(k, Exit(p)), k', switched)
  }

  function Spawn(k: Kernel, priority: nat): Kernel {
    k.(ptable := k.ptable[k.currPid := Process(Suspend, priority)], currPid := k.currPid + 1,
       attempt := k.deferCount > 0 && k.attempt)
  }

  function AddSemaphore(k: Kernel, count: int): Kernel {
    k.(stable := k.stable[k.currSid := Semaphore(SemaFree, count, [])], currSid := k.currSid + 1)
  }

  // ----- The step relation -----

  /** The process an operation names, and the semaphore it names. */
  predicate KnownPid(k: Kernel, op: Op) {
    match op
    case CallReady(p) => p in k.ptable
    case CallSleep(p, _) => p in k.ptable
    case CallKill(p) => p in k.ptable
    case CallIoWait(p) => p in k.ptable
    case CallIoSignal(p) => p in k.ptable
    case CallEventWait(p, _) => p in k.ptable
    case _ => true
  }

  predicate KnownSid(k: Kernel, op: Op) {
    match op
    case CallWaitSemaphore(sid) => sid in k.stable
    case CallSignalSemaphore(sid) => sid in k.stable
    case CallDeleteSemaphore(sid) => sid in k.stable
    case _ => true
  }

  predicate Panics(k: Kernel, op: Op) {
    match op
    case CallSignalSemaphore(sid) => SignalPanics(k, sid)
    case CallDeleteSemaphore(sid) => DeletePanics(k, sid)
    case _ => false
  }

  /** The caller's side of the defer protocol: a `Stop` needs an open bracket. */
  predicate Enabled(k: Kernel, op: Op) {
    (op.CallDeferStop? ==> k.deferCount > 0) && KnownPid(k, op) && KnownSid(k, op) && !Panics(k, op)
  }

  /** One successful operation. */
  ghost predicate Next(k: Kernel, op: Op, k': Kernel, switched: bool)
    requires k.running in k.ptable && Enabled(k, op)
  {
    match op
    case CallSchedule => ScheduleSpec(k, k', switched)
    case CallReady(p) => ReadySpec(k, p, k', switched)
    case CallDeferStart => !switched && k' == Start(k)
    case CallDeferStop => StopSpec(k, k', switched)
    case CallCreateProcess(priority) => !switched && k' == Spawn(k, priority)
    case CallCreateSemaphore(count) =>
      !switched && k' == AddSemaphore(k, count)
    case CallWaitSemaphore(sid) => WaitSpec(k, sid, k', switched)
    case CallSignalSemaphore(sid) => SignalSpec(k, sid, k', switched)
    case CallDeleteSemaphore(sid) => DeleteSpec(k, sid, k', switched)
    case CallSleep(p, delay) => SleepSpec(k, p, delay, k', switched)
    case CallWakeup => WakeupSpec(k, k', switched)
    case CallKill(p) => KillSpec(k, p, k', switched)
    case CallIoWait(p) => !switched && k' == SetState(k, p, IOWait)
    case CallIoSignal(p) => ReadySpec(k, p, k', switched)
    case CallEventWait(p, event) => ScheduleSpec(AddWaiter(SetState(k, p, EventWait), event, p), k', switched)
    case CallEventSignal(event) => EventSignalSpec(k, event, k', switched)
  }

  /** A call that names an unknown process or semaphore fails and changes nothing. */
  predicate Refused(k: Kernel, error: ProcessError, out: Outcome, k': Kernel, switched: bool) {
    out == Failed(error) && !switched && k' == k
  }

  /** After `process::init`: the null process runs. */
  const INITIAL: Kernel :=
    Kernel(map[0 := Process(Running, 0)], map[], multiset{}, [], map[], 0, false, 1, 0, 0)

  // ----- The invariant -----

  ghost predicate InSemaphore(stable: map<Sid, Semaphore>, p: Pid) {
    exists sid :: sid in stable && p in stable[sid].queue
  }

  ghost predicate InEvent(events: map<ProcessEvent, seq<Pid>>, p: Pid) {
    exists event :: event in events && p in events[event]
  }

  ghost predicate InSleepers(sleepers: seq<Delay>, p: Pid) {
    exists i :: 0 <= i < |sleepers| && sleepers[i].pid == p
  }

  /** A waiting process is where its waker will look for it. */
  ghost predicate Findable(k: Kernel, p: Pid)
    requires p in k.ptable
  {
    match k.ptable[p].state
    case Running => p == k.running
    case Ready => Entry(k, p) in k.pqueue
    case Sleep => InSleepers(k.sleepers, p)
    case SemaWait => InSemaphore(k.stable, p)
    case EventWait => InEvent(k.events, p)
    case _ => true
  }

  /** Every heap entry has a process and carries its priority. */
  ghost predicate EntriesMatch(ptable: map<Pid, Process>, pqueue: multiset<ProcessDesc>) {
    forall d :: d in pqueue ==> d.pid in ptable && d.priority == ptable[d.pid].priority
  }

  ghost predicate SleepersKnown(pids: set<Pid>, sleepers: seq<Delay>) {
    Bounded(sleepers) && forall i :: 0 <= i < |sleepers| ==> sleepers[i].pid in pids
  }

  ghost predicate SemaphoresKnown(pids: set<Pid>, stable: map<Sid, Semaphore>) {
    forall sid, p :: sid in stable && p in stable[sid].queue ==> p in pids
  }

  ghost predicate EventsKnown(pids: set<Pid>, events: map<ProcessEvent, seq<Pid>>) {
    forall event, p :: event in events && p in events[event] ==> p in pids
  }

  ghost predicate AllBelow(ids: set<nat>, limit: nat) {
    forall id :: id in ids ==> id < limit
  }

  /** Every queued pid has a process. */
  ghost predicate Closed(k: Kernel) {
    && k.running in k.ptable
    && EntriesMatch(k.ptable, k.pqueue)
    && SleepersKnown(k.ptable.Keys, k.sleepers)
    && SemaphoresKnown(k.ptable.Keys, k.stable)
    && EventsKnown(k.ptable.Keys, k.events)
    && AllBelow(k.ptable.Keys, k.currPid)
    && AllBelow(k.stable.Keys, k.currSid)
  }

  /** No process is lost, except possibly those in `lost`, which are about to be woken. */
  ghost predicate NoneLostBut(k: Kernel, lost: set<Pid>) {
    forall p :: p in k.ptable && p !in lost ==> Findable(k, p)
  }

  /** The running process is at least as urgent as every ready one. */
  ghost predicate Urgent(k: Kernel) {
    StateIs(k, k.running, Running) ==>
      forall p :: StateIs(k, p, Ready) ==> k.ptable[p].priority <= k.ptable[k.running].priority
  }

  /** While scheduling is deferred, urgency can be violated only if a `schedule` was noted. */
  ghost predicate UrgentUnlessNoted(k: Kernel) {
    k.deferCount == 0 || !k.attempt ==> Urgent(k)
  }

  ghost predicate Inv(k: Kernel) {
    Closed(k) && NoneLostBut(k, {}) && UrgentUnlessNoted(k)
  }
}
