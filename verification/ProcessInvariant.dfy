/** Every successful operation of the process manager keeps `ProcessModel.Inv`. */
module ProcessInvariant {
  import opened SleepQueue
  import opened Words
  import opened ProcessModel

  /** A switch takes nobody's live entry but that of the process it switches to. */
  lemma {:induction false} LiveEntryKept(k: Kernel, k': Kernel, d: ProcessDesc)
    requires k.running in k.ptable && Dispatch(k, k', true) && d in k.pqueue && Live(k, d) && d.pid != k'.running
    ensures d in k'.pqueue
  {
    var mid := k'.pqueue - Yielded(k) + multiset{Entry(k, k'.running)};
    assert mid[d] == k.pqueue[d];
  }

  /** What a `schedule` that switches does to one process. */
  lemma {:induction false} SwitchFindable(k: Kernel, k': Kernel, p: Pid)
    requires Closed(k) && Dispatch(k, k', true) && p in k.ptable && Findable(k, p)
    ensures p in k'.ptable && Findable(k', p)
  {
    if StateIs(k, p, Ready) && p != k'.running {
      LiveEntryKept(k, k', Entry(k, p));
    }
  }

  lemma {:induction false} SwitchEntries(k: Kernel, k': Kernel)
    requires k.running in k.ptable && EntriesMatch(k.ptable, k.pqueue) && Dispatch(k, k', true)
    ensures EntriesMatch(k'.ptable, k'.pqueue)
  {
    var mid := k'.pqueue - Yielded(k) + multiset{Entry(k, k'.running)};
    forall d | d in k'.pqueue ensures d.pid in k'.ptable && d.priority == k'.ptable[d.pid].priority {
      if d !in Yielded(k) {
        assert d in mid;
        assert d in k.pqueue;
      }
    }
  }

  /** A `schedule` loses nobody. */
  lemma {:induction false} DispatchKeeps(k: Kernel, k': Kernel, switched: bool)
    requires Closed(k) && NoneLostBut(k, {}) && Dispatch(k, k', switched)
    ensures Closed(k') && NoneLostBut(k', {})
  {
    if switched {
      SwitchEntries(k, k');
      forall p | p in k'.ptable ensures Findable(k', p) {
        assert Findable(k, p);
        SwitchFindable(k, k', p);
      }
    } else {
      forall p | p in k'.ptable ensures Findable(k', p) {
        assert Findable(k, p);
        assert StateIs(k, p, Ready) ==> Live(k, Entry(k, p));
      }
    }
  }

  lemma {:induction false} ReadyIsLive(k: Kernel, p: Pid)
    requires NoneLostBut(k, {}) && StateIs(k, p, Ready)
    ensures Entry(k, p) in k.pqueue && Live(k, Entry(k, p))
  {
    assert Findable(k, p);
  }

  /** A `schedule` that finds any ready process ends with the most urgent one running. */
  lemma {:induction false} DispatchUrgent(k: Kernel, k': Kernel, switched: bool, p: Pid)
    requires Closed(k) && NoneLostBut(k, {}) && Dispatch(k, k', switched) && StateIs(k, p, Ready)
    ensures StateIs(k', k'.running, Running)
    ensures k.ptable[p].priority <= k'.ptable[k'.running].priority
  {
    ReadyIsLive(k, p);
  }

  lemma {:induction false} DispatchEstablishesUrgent(k: Kernel, k': Kernel, switched: bool)
    requires Closed(k) && NoneLostBut(k, {}) && Dispatch(k, k', switched)
    ensures Urgent(k')
  {
    forall p | StateIs(k', p, Ready) && StateIs(k', k'.running, Running)
      ensures k'.ptable[p].priority <= k'.ptable[k'.running].priority
    {
      if StateIs(k, p, Ready) {
        DispatchUrgent(k, k', switched, p);
      } else {
        assert switched && p == k.running && !Keeps(k);
        var d :| d in k.pqueue && Live(k, d) && d.priority >= k.ptable[p].priority;
      }
    }
  }

  lemma {:induction false} ScheduleKeepsInv(k: Kernel, k': Kernel, switched: bool)
    requires Closed(k) && NoneLostBut(k, {}) && ScheduleSpec(k, k', switched)
    ensures Inv(k')
  {
    if k.deferCount == 0 {
      DispatchKeeps(k, k', switched);
      DispatchEstablishesUrgent(k, k', switched);
    } else {
      forall p | p in k'.ptable ensures Findable(k', p) {
        assert Findable(k, p);
      }
    }
  }

  lemma {:induction false} EnqueueKeeps(k: Kernel, p: Pid)
    requires Closed(k) && p in k.ptable && NoneLostBut(k, {p})
    ensures Closed(Enqueue(k, p)) && NoneLostBut(Enqueue(k, p), {})
  {
    var k' := Enqueue(k, p);
    forall q | q in k'.ptable ensures Findable(k', q) {
      assert q != p ==> Findable(k, q);
    }
  }

  lemma {:induction false} ReadyKeepsInv(k: Kernel, p: Pid, k': Kernel, switched: bool)
    requires Closed(k) && p in k.ptable && UrgentUnlessNoted(k) && ReadySpec(k, p, k', switched)
    requires NoneLostBut(k, {p}) && (Blocked(k.ptable[p].state) || Findable(k, p))
    ensures Inv(k')
  {
    if Blocked(k.ptable[p].state) {
      EnqueueKeeps(k, p);
      ScheduleKeepsInv(Enqueue(k, p), k', switched);
    }
  }

  lemma {:induction false} WakeAllEntries(k: Kernel, pids: set<Pid>)
    requires EntriesMatch(k.ptable, k.pqueue)
    ensures EntriesMatch(WakeAll(k, pids).ptable, WakeAll(k, pids).pqueue)
  {
    var k', woken := WakeAll(k, pids), BlockedIn(k, pids);
    forall d | d in k'.pqueue ensures d.pid in k'.ptable && d.priority == k'.ptable[d.pid].priority {
      assert d in k.pqueue || d in Entries(k, woken);
    }
  }

  /** Waking a group finds every process that was taken off a queue for it. */
  lemma {:induction false} WakeAllKeeps(k: Kernel, pids: set<Pid>)
    requires Closed(k) && NoneLostBut(k, BlockedIn(k, pids))
    ensures Closed(WakeAll(k, pids)) && NoneLostBut(WakeAll(k, pids), {})
  {
    var k', woken := WakeAll(k, pids), BlockedIn(k, pids);
    WakeAllEntries(k, pids);
    forall p | p in k'.ptable ensures Findable(k', p) {
      if p in woken {
        assert Entry(k, p) in Entries(k, woken);
      } else {
        assert Findable(k, p);
      }
    }
  }

  lemma {:induction false} BracketKeepsInv(k: Kernel, pids: set<Pid>, k': Kernel, switched: bool)
    requires Closed(k) && NoneLostBut(k, BlockedIn(k, pids)) && WakeBracket(k, pids, k', switched)
    ensures Inv(k')
  {
    var k1 := if k.deferCount > 0 then k else k.(attempt := false);
    SameBlocked(k, k1, pids);
    WakeAllKeeps(k1, pids);
    if k.deferCount == 0 {
      DispatchKeeps(WakeAll(k1, pids), k', switched);
      DispatchEstablishesUrgent(WakeAll(k1, pids), k', switched);
    } else {
      forall p | p in k'.ptable ensures Findable(k', p) {
        assert Findable(WakeAll(k1, pids), p);
      }
    }
  }

  lemma {:induction false} SameBlocked(k: Kernel, k1: Kernel, pids: set<Pid>)
    requires k1 == k.(attempt := k1.attempt) && NoneLostBut(k, BlockedIn(k, pids))
    ensures NoneLostBut(k1, BlockedIn(k1, pids))
  {
    assert BlockedIn(k1, pids) == BlockedIn(k, pids);
    forall p | p in k1.ptable && p !in BlockedIn(k, pids) ensures Findable(k1, p) {
      assert Findable(k, p);
    }
  }

  // ----- One lemma per operation -----

  lemma {:induction false} WaitKeepsInv(k: Kernel, sid: Sid, k': Kernel, switched: bool)
    requires Inv(k) && sid in k.stable && WaitSpec(k, sid, k', switched)
    ensures Inv(k')
  {
    if k.stable[sid].count <= 0 {
      JoinQueueKeeps(k, sid);
      ScheduleKeepsInv(JoinQueue(k, sid), k', switched);
    } else {
      RecountKeepsInv(k, sid, -1);
    }
  }

  lemma {:induction false} JoinQueueKeeps(k: Kernel, sid: Sid)
    requires Inv(k) && sid in k.stable
    ensures Closed(JoinQueue(k, sid)) && NoneLostBut(JoinQueue(k, sid), {})
  {
    var k1 := JoinQueue(k, sid);
    assert k1.stable.Keys == k.stable.Keys;
    assert k1.stable[sid].queue == k.stable[sid].queue + [k.running];
    assert InSemaphore(k1.stable, k.running) by {
      assert k.running in k1.stable[sid].queue;
    }
    forall p | p in k1.ptable ensures Findable(k1, p) {
      assert Findable(k, p);
      QueueGrows(k.stable, k1.stable, sid, p);
    }
  }

  lemma {:induction false} RecountKeepsInv(k: Kernel, sid: Sid, change: int)
    requires Inv(k) && sid in k.stable
    ensures Inv(Recount(k, sid, change))
  {
    var k1 := Recount(k, sid, change);
    assert k1.stable.Keys == k.stable.Keys;
    forall p | p in k1.ptable ensures Findable(k1, p) {
      assert Findable(k, p);
      QueueGrows(k.stable, k1.stable, sid, p);
    }
  }

  lemma {:induction false} QueueGrows(stable: map<Sid, Semaphore>, stable': map<Sid, Semaphore>, sid: Sid, p: Pid)
    requires sid in stable && sid in stable' && stable' == stable[sid := stable'[sid]]
    requires p in stable[sid].queue ==> p in stable'[sid].queue
    ensures InSemaphore(stable, p) ==> InSemaphore(stable', p)
  {
    if InSemaphore(stable, p) {
      var s :| s in stable && p in stable[s].queue;
      assert s in stable' && p in stable'[s].queue;
    }
  }

  /** Taking waiters off a queue loses at most those waiters. */
  lemma {:induction false} LeaveQueueKeeps(k: Kernel, sid: Sid, stable: map<Sid, Semaphore>, gone: set<Pid>)
    requires Inv(k) && sid in k.stable && sid in stable && stable == k.stable[sid := stable[sid]]
    requires forall p :: p in stable[sid].queue ==> p in k.stable[sid].queue
    requires forall p :: p in k.stable[sid].queue && p !in gone ==> p in stable[sid].queue
    ensures Closed(k.(stable := stable))
    ensures NoneLostBut(k.(stable := stable), BlockedIn(k.(stable := stable), gone))
  {
    var k1 := k.(stable := stable);
    assert stable.Keys == k.stable.Keys;
    forall p | p in k1.ptable && p !in BlockedIn(k1, gone) ensures Findable(k1, p) {
      assert Findable(k, p);
      if p !in gone {
        QueueGrows(k.stable, stable, sid, p);
      }
    }
  }

  lemma {:induction false} LeaveQueueLoses(k: Kernel, sid: Sid)
    requires Inv(k) && sid in k.stable && k.stable[sid].queue != []
    ensures k.stable[sid].queue[0] in k.ptable
    ensures Closed(LeaveQueue(k, sid)) && UrgentUnlessNoted(LeaveQueue(k, sid))
    ensures NoneLostBut(LeaveQueue(k, sid), BlockedIn(LeaveQueue(k, sid), {k.stable[sid].queue[0]}))
  {
    var queue := k.stable[sid].queue;
    assert queue == [queue[0]] + queue[1..];
    assert queue[0] in queue;
    LeaveQueueKeeps(k, sid, LeaveQueue(k, sid).stable, {queue[0]});
  }

  lemma {:induction false} SignalKeepsInv(k: Kernel, sid: Sid, k': Kernel, switched: bool)
    requires Inv(k) && sid in k.stable && !SignalPanics(k, sid) && SignalSpec(k, sid, k', switched)
    ensures Inv(k')
  {
    if k.stable[sid].count < 0 {
      var p, k1 := k.stable[sid].queue[0], LeaveQueue(k, sid);
      LeaveQueueLoses(k, sid);
      assert NoneLostBut(k1, {p});
      assert Blocked(k1.ptable[p].state) || p !in BlockedIn(k1, {p});
      ReadyKeepsInv(k1, p, k', switched);
    } else {
      RecountKeepsInv(k, sid, 1);
    }
  }

  lemma {:induction false} DrainedQueue(queue: seq<Pid>, n: nat)
    requires n <= |queue|
    ensures forall p :: p in queue[n..] ==> p in queue
    ensures forall p :: p in queue && p !in ToSet(queue[..n]) ==> p in queue[n..]
  {
    assert queue == queue[..n] + queue[n..];
    forall i | 0 <= i < n ensures queue[i] in ToSet(queue[..n]) {
      assert queue[..n][i] == queue[i];
    }
  }

  lemma {:induction false} DrainKeeps(k: Kernel, sid: Sid)
    requires Inv(k) && sid in k.stable && !DeletePanics(k, sid)
    ensures Closed(Drain(k, sid)) && NoneLostBut(Drain(k, sid), BlockedIn(Drain(k, sid), Released(k, sid)))
  {
    DrainedQueue(k.stable[sid].queue, Drained(k.stable[sid]));
    LeaveQueueKeeps(k, sid, Drain(k, sid).stable, Released(k, sid));
    assert k.(stable := Drain(k, sid).stable) == Drain(k, sid);
  }

  lemma {:induction false} DeleteKeepsInv(k: Kernel, sid: Sid, k': Kernel, switched: bool)
    requires Inv(k) && sid in k.stable && !DeletePanics(k, sid) && DeleteSpec(k, sid, k', switched)
    ensures Inv(k')
  {
    DrainKeeps(k, sid);
    BracketKeepsInv(Drain(k, sid), Released(k, sid), k', switched);
  }

  lemma {:induction false} InsertKeepsSleepers(q: seq<Delay>, q': seq<Delay>, pid: Pid, delay: nat, p: Pid)
    requires Timers(q') == InsertTimer(Timers(q), Timer(pid, delay))
    ensures InSleepers(q', p) <==> p == pid || InSleepers(q, p)
  {
    HasTimer(q, p);
    HasTimer(q', p);
    forall t: Timer ensures t in Timers(q') <==> t == Timer(pid, delay) || t in Timers(q) {
      InsertKeeps(Timers(q), Timer(pid, delay), t);
    }
    assert Timer(pid, delay) in Timers(q');
  }

  lemma {:induction false} InsertBounded(q: seq<Delay>, q': seq<Delay>, pid: Pid, delay: Usize)
    requires Bounded(q) && Timers(q') == InsertTimer(Timers(q), Timer(pid, delay))
    ensures Bounded(q')
  {
    BoundedTimers(q);
    BoundedTimers(q');
    forall t | t in Timers(q') ensures t.due < USIZE_LIMIT {
      InsertKeeps(Timers(q), Timer(pid, delay), t);
    }
  }

  lemma {:induction false} TickBounded(q: seq<Delay>, q': seq<Delay>, n: nat)
    requires Bounded(q) && Timers(q') == Advance(Timers(q), n)
    ensures Bounded(q')
  {
    BoundedTimers(q);
    BoundedTimers(q');
    forall t | t in Timers(q') ensures t.due < USIZE_LIMIT {
      AdvanceDue(Timers(q), n, t);
      AdvanceKeeps(Timers(q), n, t);
    }
  }

  lemma {:induction false} HasTimer(q: seq<Delay>, p: Pid)
    ensures InSleepers(q, p) <==> exists t :: t in Timers(q) && t.pid == p
  {
    forall i | 0 <= i < |q| ensures Timers(q)[i].pid == q[i].pid && Timers(q)[i] in Timers(q) {
      TimerPid(q, 0, i);
    }
  }

  lemma {:induction false} SleepKeepsInv(k: Kernel, pid: Pid, delay: Usize, k': Kernel, switched: bool)
    requires Inv(k) && pid in k.ptable && SleepSpec(k, pid, delay, k', switched)
    ensures Inv(k')
  {
    var k1 := SetState(k, pid, Sleep).(sleepers := k'.sleepers);
    forall p ensures InSleepers(k'.sleepers, p) <==> p == pid || InSleepers(k.sleepers, p) {
      InsertKeepsSleepers(k.sleepers, k'.sleepers, pid, delay, p);
    }
    assert SleepersKnown(k1.ptable.Keys, k1.sleepers) by {
      InsertBounded(k.sleepers, k'.sleepers, pid, delay);
      forall i | 0 <= i < |k'.sleepers| ensures k'.sleepers[i].pid in k.ptable {
        assert InSleepers(k'.sleepers, k'.sleepers[i].pid);
      }
    }
    forall p | p in k1.ptable ensures Findable(k1, p) {
      assert Findable(k, p);
    }
    ScheduleKeepsInv(k1, k', switched);
  }

  /** After a tick a pid is still queued, or was due; and nobody new is queued. */
  lemma {:induction false} TickKeepsSleepers(q: seq<Delay>, q': seq<Delay>, p: Pid)
    requires Timers(q') == Advance(Timers(q), TickLength(Timers(q)))
    ensures InSleepers(q', p) ==> InSleepers(q, p)
    ensures InSleepers(q, p) && p !in Expired(Timers(q), TickLength(Timers(q))) ==> InSleepers(q', p)
  {
    var n := TickLength(Timers(q));
    HasTimer(q, p);
    HasTimer(q', p);
    if InSleepers(q', p) {
      var t :| t in Timers(q') && t.pid == p;
      AdvanceDue(Timers(q), n, t);
      AdvanceKeeps(Timers(q), n, t);
    }
    if InSleepers(q, p) && p !in Expired(Timers(q), n) {
      var i :| 0 <= i < |q| && q[i].pid == p;
      TimerPid(q, 0, i);
      var t := Timers(q)[i];
      AdvanceKeeps(Timers(q), n, Timer(p, t.due - n));
    }
  }

  lemma {:induction false} AdvanceDue(ts: seq<Timer>, n: nat, t: Timer)
    requires t in Advance(ts, n)
    ensures t.due >= 1
  {
    if ts != [] && t in Advance(ts[1..], n) {
      AdvanceDue(ts[1..], n, t);
    }
  }

  lemma {:induction false} WakeupKeepsInv(k: Kernel, k': Kernel, switched: bool)
    requires Inv(k) && WakeupSpec(k, k', switched)
    ensures Inv(k')
  {
    if k.sleepers != [] {
      var k1 := k.(sleepers := k'.sleepers);
      assert SleepersKnown(k1.ptable.Keys, k1.sleepers) by {
        TickBounded(k.sleepers, k'.sleepers, TickLength(Timers(k.sleepers)));
        forall i | 0 <= i < |k'.sleepers| ensures k'.sleepers[i].pid in k.ptable {
          assert InSleepers(k'.sleepers, k'.sleepers[i].pid);
          TickKeepsSleepers(k.sleepers, k'.sleepers, k'.sleepers[i].pid);
        }
      }
      forall p | p in k1.ptable && p !in BlockedIn(k1, Due(k)) ensures Findable(k1, p) {
        assert Findable(k, p);
        TickKeepsSleepers(k.sleepers, k'.sleepers, p);
      }
      BracketKeepsInv(k1, Due(k), k', switched);
    }
  }

  lemma {:induction false} WithdrawKeeps(k: Kernel, event: ProcessEvent)
    requires Closed(k) && NoneLostBut(k, {})
    ensures Closed(Withdraw(k, event))
    ensures NoneLostBut(Withdraw(k, event), BlockedIn(Withdraw(k, event), Waiters(k, event)))
  {
    var k1 := Withdraw(k, event);
    forall p | p in k1.ptable && p !in BlockedIn(k1, Waiters(k, event)) ensures Findable(k1, p) {
      assert Findable(k, p);
      if StateIs(k, p, EventWait) {
        var e :| e in k.events && p in k.events[e];
        assert e != event;
        assert e in k1.events && p in k1.events[e];
      }
    }
  }

  lemma {:induction false} SetFreeKeepsInv(k: Kernel, pid: Pid)
    requires Inv(k) && pid in k.ptable
    ensures Inv(SetState(k, pid, Free))
  {
    var k1 := SetState(k, pid, Free);
    forall p | p in k1.ptable ensures Findable(k1, p) {
      assert Findable(k, p);
    }
  }

  lemma {:induction false} KillKeepsInv(k: Kernel, pid: Pid, k': Kernel, switched: bool)
    requires Inv(k) && pid in k.ptable && KillSpec(k, pid, k', switched)
    ensures Inv(k')
  {
    var k1 := SetState(k, pid, Free);
    SetFreeKeepsInv(k, pid);
    WithdrawKeeps(k1, Exit(pid));
    BracketKeepsInv(Withdraw(k1, Exit(pid)), Waiters(k, Exit(pid)), k', switched);
  }

  lemma {:induction false} EventSignalKeepsInv(k: Kernel, event: ProcessEvent, k': Kernel, switched: bool)
    requires Inv(k) && EventSignalSpec(k, event, k', switched)
    ensures Inv(k')
  {
    if event in k.events {
      WithdrawKeeps(k, event);
      BracketKeepsInv(Withdraw(k, event), Waiters(k, event), k', switched);
    } else {
      forall p | p in k'.ptable ensures Findable(k', p) {
        assert Findable(k, p);
      }
    }
  }

  lemma {:induction false} EventWaitKeepsInv(k: Kernel, pid: Pid, event: ProcessEvent, k': Kernel, switched: bool)
    requires Inv(k) && pid in k.ptable
    requires ScheduleSpec(AddWaiter(SetState(k, pid, EventWait), event, pid), k', switched)
    ensures Inv(k')
  {
    var k1 := AddWaiter(SetState(k, pid, EventWait), event, pid);
    assert event in k1.events && pid in k1.events[event];
    forall p | p in k1.ptable ensures Findable(k1, p) {
      assert Findable(k, p);
      if InEvent(k.events, p) {
        var e :| e in k.events && p in k.events[e];
        assert e in k1.events && p in k1.events[e];
      }
    }
    ScheduleKeepsInv(k1, k', switched);
  }

  lemma {:induction false} IoWaitKeepsInv(k: Kernel, pid: Pid)
    requires Inv(k) && pid in k.ptable
    ensures Inv(SetState(k, pid, IOWait))
  {
    var k1 := SetState(k, pid, IOWait);
    forall p | p in k1.ptable ensures Findable(k1, p) {
      assert Findable(k, p);
    }
  }

  lemma {:induction false} StopKeepsInv(k: Kernel, k': Kernel, switched: bool)
    requires Inv(k) && k.deferCount > 0 && StopSpec(k, k', switched)
    ensures Inv(k')
  {
    var k1 := k.(deferCount := k.deferCount - 1);
    forall p | p in k1.ptable ensures Findable(k1, p) {
      assert Findable(k, p);
    }
    if k1.deferCount == 0 && k1.attempt {
      DispatchKeeps(k1, k', switched);
      DispatchEstablishesUrgent(k1, k', switched);
    }
  }

  lemma {:induction false} SpawnKeepsInv(k: Kernel, priority: nat)
    requires Inv(k)
    ensures Inv(Spawn(k, priority))
  {
    var k1 := Spawn(k, priority);
    assert k.currPid !in k.ptable;
    assert k1.ptable.Keys == k.ptable.Keys + {k.currPid};
    forall p | p in k1.ptable ensures Findable(k1, p) {
      assert p != k.currPid ==> Findable(k, p);
    }
  }

  lemma {:induction false} CreateSemaphoreKeepsInv(k: Kernel, count: int)
    requires Inv(k)
    ensures Inv(AddSemaphore(k, count))
  {
    var k1 := AddSemaphore(k, count);
    var stable := k1.stable;
    assert stable.Keys == k.stable.Keys + {k.currSid};
    assert k.currSid !in k.stable;
    forall p | p in k1.ptable ensures Findable(k1, p) {
      assert Findable(k, p);
      if InSemaphore(k.stable, p) {
        var s :| s in k.stable && p in k.stable[s].queue;
        assert s in stable && p in stable[s].queue;
      }
    }
  }

  lemma {:induction false} StartKeepsInv(k: Kernel)
    requires Inv(k)
    ensures Inv(Start(k))
  {
    forall p | p in k.ptable ensures Findable(Start(k), p) {
      assert Findable(k, p);
    }
  }

  lemma {:induction false} ReadyOpKeepsInv(k: Kernel, p: Pid, k': Kernel, switched: bool)
    requires Inv(k) && p in k.ptable && ReadySpec(k, p, k', switched)
    ensures Inv(k')
  {
    assert Findable(k, p);
    ReadyKeepsInv(k, p, k', switched);
  }

  lemma {:induction false} SemaphoreOpKeepsInv(k: Kernel, op: Op, k': Kernel, switched: bool)
    requires op.CallWaitSemaphore? || op.CallSignalSemaphore? || op.CallDeleteSemaphore? || op.CallCreateSemaphore?
    requires Inv(k) && Enabled(k, op) && Next(k, op, k', switched)
    ensures Inv(k')
  {
    match op
    case CallWaitSemaphore(sid) => WaitKeepsInv(k, sid, k', switched);
    case CallSignalSemaphore(sid) => SignalKeepsInv(k, sid, k', switched);
    case CallDeleteSemaphore(sid) => DeleteKeepsInv(k, sid, k', switched);
    case CallCreateSemaphore(count) => CreateSemaphoreKeepsInv(k, count);
  }

  lemma {:induction false} WaitOpKeepsInv(k: Kernel, op: Op, k': Kernel, switched: bool)
    requires op.CallSleep? || op.CallWakeup? || op.CallKill? || op.CallEventWait? || op.CallEventSignal?
    requires Inv(k) && Enabled(k, op) && Next(k, op, k', switched)
    ensures Inv(k')
  {
    match op
    case CallSleep(p, delay) => SleepKeepsInv(k, p, delay, k', switched);
    case CallWakeup => WakeupKeepsInv(k, k', switched);
    case CallKill(p) => KillKeepsInv(k, p, k', switched);
    case CallEventWait(p, event) => EventWaitKeepsInv(k, p, event, k', switched);
    case CallEventSignal(event) => EventSignalKeepsInv(k, event, k', switched);
  }

  /** Every successful operation keeps the invariant. */
  lemma {:induction false} NextKeepsInv(k: Kernel, op: Op, k': Kernel, switched: bool)
    requires Inv(k) && Enabled(k, op) && Next(k, op, k', switched)
    ensures Inv(k')
  {
    match op
    case CallSchedule => ScheduleKeepsInv(k, k', switched);
    case CallReady(p) => ReadyOpKeepsInv(k, p, k', switched);
    case CallIoSignal(p) => ReadyOpKeepsInv(k, p, k', switched);
    case CallDeferStart => StartKeepsInv(k);
    case CallDeferStop => StopKeepsInv(k, k', switched);
    case CallCreateProcess(priority) => SpawnKeepsInv(k, priority);
    case CallIoWait(p) => IoWaitKeepsInv(k, p);
    case CallWaitSemaphore(_) => SemaphoreOpKeepsInv(k, op, k', switched);
    case CallSignalSemaphore(_) => SemaphoreOpKeepsInv(k, op, k', switched);
    case CallDeleteSemaphore(_) => SemaphoreOpKeepsInv(k, op, k', switched);
    case CallCreateSemaphore(_) => SemaphoreOpKeepsInv(k, op, k', switched);
    case _ => WaitOpKeepsInv(k, op, k', switched);
  }
}
