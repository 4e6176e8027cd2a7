/** The process manager of src/process.rs: the fields, loops and early returns of the source, each
    operation proved to take exactly one `ProcessModel` step and to keep its invariant. */
module ProcessManagers {
  import opened Basics
  import opened SleepQueue
  import opened Words
  import opened ProcessModel
  import opened ProcessInvariant

  // ----- How the pieces of an operation compose -----

  /** No entry is more urgent. */
  ghost predicate Maximal(q: multiset<ProcessDesc>, d: ProcessDesc) {
    d in q && forall e :: e in q ==> e.priority <= d.priority
  }

  lemma {:induction false} MaximumExists(q: multiset<ProcessDesc>)
    requires q != multiset{}
    ensures exists d :: Maximal(q, d)
    decreases |q|
  {
    var d :| d in q;
    var rest := q - multiset{d};
    if rest != multiset{} {
      MaximumExists(rest);
      var m :| Maximal(rest, m);
      MaximumOfTwo(q, d, m);
    } else {
      assert q == multiset{d};
      assert Maximal(q, d);
    }
  }

  lemma {:induction false} MaximumOfTwo(q: multiset<ProcessDesc>, d: ProcessDesc, m: ProcessDesc)
    requires d in q && Maximal(q - multiset{d}, m)
    ensures Maximal(q, if d.priority < m.priority then m else d)
  {
    assert forall e :: e in q ==> e == d || e in q - multiset{d};
  }

  /** `BinaryHeap::pop`: some entry of the highest priority leaves the heap. */
  ghost predicate HeapPop(q: multiset<ProcessDesc>, d: Option<ProcessDesc>, q': multiset<ProcessDesc>) {
    if q == multiset{} then d == None && q' == q
    else
      && d.Some? && d.value in q && q' == q - multiset{d.value}
      && forall e :: e in q ==> e.priority <= d.value.priority
  }

  /** Only stale entries were dropped so far, and `d` was the most urgent of the others. */
  ghost predicate Popping(k: Kernel, d: Option<ProcessDesc>, q: multiset<ProcessDesc>) {
    if d.None? then q == multiset{} && NothingLive(k)
    else
      && d.value in k.pqueue && Pruned(k, q + multiset{d.value})
      && forall e :: e in q ==> e.priority <= d.value.priority
  }

  lemma {:induction false} FirstPop(k: Kernel, d: Option<ProcessDesc>, q: multiset<ProcessDesc>)
    requires HeapPop(k.pqueue, d, q)
    ensures Popping(k, d, q)
  {
    if d.Some? {
      assert q + multiset{d.value} == k.pqueue;
    }
  }

  /** Dropping a stale entry keeps every live one. */
  lemma {:induction false} NextPop(k: Kernel, stale: ProcessDesc, q: multiset<ProcessDesc>,
                                   d: Option<ProcessDesc>, q': multiset<ProcessDesc>)
    requires Popping(k, Some(stale), q) && !Live(k, stale) && HeapPop(q, d, q')
    ensures Popping(k, d, q')
  {
    assert Pruned(k, q) by {
      forall e | e in k.pqueue && Live(k, e) ensures q[e] == k.pqueue[e] {
        assert (q + multiset{stale})[e] == k.pqueue[e];
      }
    }
    if d.Some? {
      assert q' + multiset{d.value} == q;
    }
  }

  lemma {:induction false} PoppedTop(k: Kernel, d: ProcessDesc, q: multiset<ProcessDesc>)
    requires Popping(k, Some(d), q) && Live(k, d)
    ensures Top(k, d)
  {
    forall e | e in k.pqueue && Live(k, e) ensures e.priority <= d.priority {
      assert (q + multiset{d})[e] == k.pqueue[e];
    }
  }

  lemma {:induction false} MoreEntries(k: Kernel, woken: set<Pid>, p: Pid)
    requires woken <= k.ptable.Keys && p in k.ptable && p !in woken
    ensures multiset(Entries(k, woken + {p})) == multiset(Entries(k, woken)) + multiset{Entry(k, p)}
  {
    assert Entries(k, woken + {p}) == Entries(k, woken) + {Entry(k, p)};
    assert Entry(k, p) !in Entries(k, woken);
  }

  /** Readying one more blocked process extends the group already woken. */
  lemma {:induction false} WakeOneMore(k: Kernel, pids: set<Pid>, p: Pid)
    requires p in k.ptable && p !in pids && Blocked(k.ptable[p].state)
    ensures WakeAll(k, pids + {p}) == Enqueue(WakeAll(k, pids), p).(attempt := true)
  {
    var woken := BlockedIn(k, pids);
    assert BlockedIn(k, pids + {p}) == woken + {p};
    MoreEntries(k, woken, p);
    assert WakeAll(k, pids + {p}).ptable == Enqueue(WakeAll(k, pids), p).ptable;
  }

  /** Readying a process that is not blocked, or is woken already, changes nothing. */
  lemma {:induction false} WakeNoMore(k: Kernel, pids: set<Pid>, p: Pid)
    requires p in k.ptable && (p in pids || !Blocked(k.ptable[p].state))
    ensures WakeAll(k, pids + {p}) == WakeAll(k, pids)
    ensures !Blocked(WakeAll(k, pids).ptable[p].state)
  {
    assert BlockedIn(k, pids + {p}) == BlockedIn(k, pids);
  }

  lemma {:induction false} OneMorePid(q: seq<Pid>, i: nat)
    requires i < |q|
    ensures ToSet(q[..i + 1]) == ToSet(q[..i]) + {q[i]}
  {
    assert q[..i + 1] == q[..i] + [q[i]];
    forall p ensures p in ToSet(q[..i + 1]) <==> p in ToSet(q[..i]) + {q[i]} {
      assert p in ToSet(q[..i]) <==> p in q[..i];
      assert p in ToSet(q[..i + 1]) <==> p in q[..i + 1];
    }
  }

  /** One round of a loop that readies the pids of `q` while scheduling is deferred. */
  lemma {:induction false} WakeNext(k: Kernel, q: seq<Pid>, i: nat, stable: map<Sid, Semaphore>)
    requires i < |q| && q[i] in k.ptable
    ensures DeferredReady(WakeAll(k, ToSet(q[..i])).(stable := stable), q[i]) == WakeAll(k, ToSet(q[..i + 1])).(stable := stable)
  {
    var pids, p := ToSet(q[..i]), q[i];
    OneMorePid(q, i);
    if p in pids || !Blocked(k.ptable[p].state) {
      WakeNoMore(k, pids, p);
    } else {
      WakeOneMore(k, pids, p);
    }
  }

  lemma {:induction false} WakeNobody(k: Kernel)
    ensures WakeAll(k, {}) == k
  {
    assert BlockedIn(k, {}) == {};
    assert Entries(k, {}) == {};
    assert WakeAll(k, {}).ptable == k.ptable;
  }

  /** A second `schedule` right after one that did not switch has nothing left to decide. */
  lemma {:induction false} DispatchTwice(k: Kernel, m: Kernel, k': Kernel, switched: bool)
    requires k.running in k.ptable && Dispatch(k, m, false) && Dispatch(m, k', switched)
    ensures Dispatch(k, k', switched)
  {
    if !NothingLive(k) {
      var d :| d in k.pqueue && Live(k, d);
      assert m.pqueue[d] == k.pqueue[d];
      assert Live(m, d);
      assert Keeps(m);
    }
  }

  lemma {:induction false} WakeUnderStart(k: Kernel, pids: set<Pid>)
    ensures WakeAll(Start(k), pids) ==
            WakeAll(if k.deferCount == 0 then k.(attempt := false) else k, pids).(deferCount := k.deferCount + 1)
  {
    var k1 := if k.deferCount == 0 then k.(attempt := false) else k;
    assert BlockedIn(Start(k), pids) == BlockedIn(k1, pids);
    assert Entries(Start(k), BlockedIn(k1, pids)) == Entries(k1, BlockedIn(k1, pids));
    assert WakeAll(Start(k), pids).ptable == WakeAll(k1, pids).ptable;
  }

  /** Start, wake, Stop and a final `schedule` amount to one `WakeBracket`. */
  lemma {:induction false} BracketComposes(k: Kernel, pids: set<Pid>, m: Kernel, stopped: bool, k': Kernel, switched: bool)
    requires k.running in k.ptable
    requires StopSpec(WakeAll(Start(k), pids), m, stopped)
    requires if stopped then k' == m && switched else m.running in m.ptable && ScheduleSpec(m, k', switched)
    ensures WakeBracket(k, pids, k', switched)
  {
    WakeUnderStart(k, pids);
    var w := WakeAll(if k.deferCount == 0 then k.(attempt := false) else k, pids);
    if k.deferCount == 0 && w.attempt && !stopped {
      DispatchTwice(w, m, k', switched);
    }
  }

  lemma {:induction false} SwitchIsDispatch(k: Kernel, d: ProcessDesc, q: multiset<ProcessDesc>)
    requires k.running in k.ptable && EntriesMatch(k.ptable, k.pqueue) && Top(k, d) && Pruned(k, q + multiset{d})
    requires StateIs(k, k.running, Running) ==> k.ptable[k.running].priority <= d.priority
    ensures Dispatch(k, SetState(Preempt(k), d.pid, Running).(pqueue := q + Yielded(k), running := d.pid), true)
  {
    assert d == Entry(k, d.pid);
    assert q + Yielded(k) - Yielded(k) == q;
  }

  lemma {:induction false} KeepIsDispatch(k: Kernel, d: ProcessDesc, q: multiset<ProcessDesc>)
    requires k.running in k.ptable && Top(k, d) && Pruned(k, q + multiset{d})
    requires StateIs(k, k.running, Running) && d.priority < k.ptable[k.running].priority
    ensures Dispatch(k, k.(pqueue := q + multiset{d}), false)
  {
  }

  /** `event_signal` on a killed process, then `kill`'s own `schedule`. */
  lemma {:induction false} KillComposes(k: Kernel, pid: Pid, m: Kernel, signalled: bool, k': Kernel, switched: bool)
    requires k.running in k.ptable && pid in k.ptable
    requires EventSignalSpec(SetState(k, pid, Free), Exit(pid), m, signalled)
    requires if signalled then k' == m && switched else m.running in m.ptable && ScheduleSpec(m, k', switched)
    ensures KillSpec(k, pid, k', switched)
  {
    var freed := SetState(k, pid, Free);
    var w := Withdraw(freed, Exit(pid));
    if Exit(pid) in k.events {
      if k.deferCount == 0 && !signalled {
        DispatchTwice(WakeAll(w.(attempt := false), Waiters(k, Exit(pid))), m, k', switched);
      }
    } else {
      assert w == freed;
      WakeNobody(if k.deferCount > 0 then w else w.(attempt := false));
    }
  }

  lemma {:induction false} UpdateTwice<K, V>(m: map<K, V>, key: K, a: V, b: V)
    ensures m[key := a][key := b] == m[key := b]
  {
  }

  /** `delete_semaphore` after releasing its first `i` waiters. */
  function Draining(k: Kernel, sid: Sid, i: nat): Kernel
    requires sid in k.stable && i <= |k.stable[sid].queue|
  {
    WakeAll(Start(k), ToSet(k.stable[sid].queue[..i])).(stable := DrainedTable(k, sid, i))
  }

  function DrainedTable(k: Kernel, sid: Sid, i: nat): map<Sid, Semaphore>
    requires sid in k.stable && i <= |k.stable[sid].queue|
  {
    k.stable[sid := Semaphore(SemaFree, k.stable[sid].count + i, k.stable[sid].queue[i..])]
  }

  lemma {:induction false} DrainingStarts(k: Kernel, sid: Sid)
    requires sid in k.stable
    ensures Draining(k, sid, 0) == Start(k).(stable := k.stable[sid := k.stable[sid].(state := SemaFree)])
  {
    WakeNobody(Start(k));
    assert ToSet(k.stable[sid].queue[..0]) == {};
    assert k.stable[sid].queue[0..] == k.stable[sid].queue;
  }

  lemma {:induction false} AllDrained(k: Kernel, sid: Sid, i: nat)
    requires sid in k.stable && i <= |k.stable[sid].queue| && (i == 0 || k.stable[sid].count + i <= 0)
    requires DrainedTable(k, sid, i)[sid].count >= 0
    ensures i == Drained(k.stable[sid]) && !DeletePanics(k, sid)
  {
  }

  lemma {:induction false} DrainingEnds(k: Kernel, sid: Sid)
    requires sid in k.stable && !DeletePanics(k, sid)
    ensures Draining(k, sid, Drained(k.stable[sid])) == WakeAll(Start(Drain(k, sid)), Released(k, sid))
  {
    var i := Drained(k.stable[sid]);
    assert DrainedTable(k, sid, i) == Drain(k, sid).stable;
    assert BlockedIn(Start(k), Released(k, sid)) == BlockedIn(Start(Drain(k, sid)), Released(k, sid));
    assert WakeAll(Start(k), Released(k, sid)).ptable == WakeAll(Start(Drain(k, sid)), Released(k, sid)).ptable;
  }

  /** A round of that loop, when a waiter has left the queue and is not counted yet. */
  function PoppedTable(k: Kernel, sid: Sid, i: nat): map<Sid, Semaphore>
    requires sid in k.stable && i < |k.stable[sid].queue|
  {
    k.stable[sid := Semaphore(SemaFree, k.stable[sid].count + i, k.stable[sid].queue[i + 1..])]
  }

  function Popped(k: Kernel, sid: Sid, i: nat): Kernel
    requires sid in k.stable && i < |k.stable[sid].queue|
  {
    Draining(k, sid, i).(stable := PoppedTable(k, sid, i))
  }

  /** The invariant, as one fact. */
  ghost predicate HasInv(k: Kernel) {
    exists state :: state == k && Inv(state)
  }

  lemma {:induction false} DrainingReady(k: Kernel, sid: Sid, i: nat)
    requires Inv(k) && sid in k.stable && i < |k.stable[sid].queue|
    ensures k.stable[sid].queue[i] in k.ptable
    ensures EntriesMatch(Popped(k, sid, i).ptable, Popped(k, sid, i).pqueue)
  {
    QueuedPidKnown(k, sid, i);
    WakeAllEntries(Start(k), ToSet(k.stable[sid].queue[..i]));
  }

  lemma {:induction false} DrainedTableSteps(k: Kernel, sid: Sid, i: nat)
    requires sid in k.stable && i < |k.stable[sid].queue|
    ensures var d, p := DrainedTable(k, sid, i), PoppedTable(k, sid, i);
            && d[sid := d[sid].(queue := d[sid].queue[1..])] == p
            && p[sid := p[sid].(count := p[sid].count + 1)] == DrainedTable(k, sid, i + 1)
  {
    var d, p := DrainedTable(k, sid, i), PoppedTable(k, sid, i);
    assert k.stable[sid].queue[i..][1..] == k.stable[sid].queue[i + 1..];
    UpdateTwice(k.stable, sid, d[sid], p[sid]);
    UpdateTwice(k.stable, sid, p[sid], DrainedTable(k, sid, i + 1)[sid]);
  }

  lemma {:induction false} DrainRound(k: Kernel, sid: Sid, i: nat)
    requires sid in k.stable && i < |k.stable[sid].queue| && k.stable[sid].queue[i] in k.ptable
    ensures var k' := DeferredReady(Popped(k, sid, i), k.stable[sid].queue[i]);
            k'.stable == PoppedTable(k, sid, i) && k'.(stable := DrainedTable(k, sid, i + 1)) == Draining(k, sid, i + 1)
  {
    WakeNext(Start(k), k.stable[sid].queue, i, PoppedTable(k, sid, i));
  }

  lemma {:induction false} QueuedPidKnown(k: Kernel, sid: Sid, i: nat)
    requires Inv(k) && sid in k.stable && i < |k.stable[sid].queue|
    ensures k.stable[sid].queue[i] in k.ptable
  {
    assert k.stable[sid].queue[i] in k.stable[sid].queue;
  }

  class ProcessManager {
    var ptable: map<Pid, Process>
    var stable: map<Sid, Semaphore>
    var pqueue: multiset<ProcessDesc>
    var sleepQueue: seq<Delay>
    var eventQueue: map<ProcessEvent, seq<Pid>>
    var deferCount: nat
    var deferAttempt: bool
    var currPid: Pid
    var currSid: Sid
    var running: Pid

    ghost function View(): Kernel
      reads this
    {
      Kernel(ptable, stable, pqueue, sleepQueue, eventQueue, deferCount, deferAttempt, currPid, currSid, running)
    }

    /** `process::init`: a new manager whose null process is running. */
    constructor ()
      ensures ptable == map[0 := Process(Running, 0)] && running == 0 && currPid == 1
      ensures stable == map[] && pqueue == multiset{} && sleepQueue == [] && eventQueue == map[] && deferCount == 0
      ensures View() == INITIAL && Inv(View())
    {
      ptable, stable, pqueue := map[0 := Process(Running, 0)], map[], multiset{};
      sleepQueue, eventQueue := [], map[];
      deferCount, deferAttempt := 0, false;
      currPid, currSid, running := 1, 0, 0;
    }

    method PopHeap() returns (d: Option<ProcessDesc>)
      modifies this`pqueue
      ensures HeapPop(old(pqueue), d, pqueue)
    {
      if pqueue == multiset{} {
        return None;
      }
      MaximumExists(pqueue);
      var top :| top in pqueue && forall e | e in pqueue :: e.priority <= top.priority;
      pqueue := pqueue - multiset{top};
      return Some(top);
    }

    /** Pops until the entry's process is ready, or the heap is empty. */
    method PopReadyProc() returns (d: Option<ProcessDesc>)
      requires EntriesMatch(ptable, pqueue)
      modifies this`pqueue
      ensures d.None? ==> NothingLive(old(View())) && pqueue == multiset{}
      ensures d.Some? ==> Top(old(View()), d.value) && Pruned(old(View()), pqueue + multiset{d.value})
    {
      ghost var k := View();
      d := PopHeap();
      FirstPop(k, d, pqueue);
      while d.Some? && ptable[d.value.pid].state != State.Ready
        invariant Popping(k, d, pqueue)
        decreases |pqueue|, d.Some?
      {
        ghost var stale, q := d.value, pqueue;
        d := PopHeap();
        NextPop(k, stale, q, d, pqueue);
      }
      if d.Some? {
        PoppedTop(k, d.value, pqueue);
      }
    }

    /** The second half of `schedule`: gives the processor to the popped process, unless the running
        one is more urgent still and keeps it. */
    method Arbitrate(desc: ProcessDesc, ghost k: Kernel) returns (switched: bool)
      requires View() == k.(pqueue := pqueue) && running in ptable && EntriesMatch(ptable, k.pqueue)
      requires Top(k, desc) && Pruned(k, pqueue + multiset{desc})
      modifies this`pqueue, this`ptable, this`running
      ensures Dispatch(k, View(), switched)
    {
      var oldPid, newPid := running, desc.pid;
      var oldPriority, newPriority := ptable[oldPid].priority, ptable[newPid].priority;
      ghost var popped := pqueue;
      assert desc == ProcessDesc(newPriority, newPid);
      if oldPriority <= newPriority {
        if ptable[running].state == Running {
          ptable := ptable[running := ptable[running].(state := State.Ready)];
          pqueue := pqueue + multiset{ProcessDesc(oldPriority, oldPid)};
        }
      } else if ptable[running].state == Running {
        pqueue := pqueue + multiset{ProcessDesc(newPriority, newPid)};
        KeepIsDispatch(k, desc, popped);
        return false;
      }
      ptable := ptable[newPid := ptable[newPid].(state := Running)];
      running := newPid;
      SwitchIsDispatch(k, desc, popped);
      assert pqueue == popped + Yielded(k);
      assert View() == SetState(Preempt(k), newPid, Running).(pqueue := pqueue, running := newPid);
      return true;
    }

    /** Switches to the most urgent ready process, or only notes the attempt while deferred. */
    method Schedule() returns (switched: bool)
      requires running in ptable && EntriesMatch(ptable, pqueue)
      modifies this`deferAttempt, this`pqueue, this`ptable, this`running
      ensures ScheduleSpec(old(View()), View(), switched)
    {
      if deferCount > 0 {
        deferAttempt := true;
        return false;
      }
      ghost var k := View();
      var desc := PopReadyProc();
      if desc.None? {
        return false;
      }
      switched := Arbitrate(desc.value, k);
    }

    /** The part of `ready` that does it. */
    method MakeReady(pid: Pid)
      requires pid in ptable && EntriesMatch(ptable, pqueue)
      modifies this`pqueue, this`ptable
      ensures View() == Enqueue(old(View()), pid) && EntriesMatch(ptable, pqueue)
    {
      ptable := ptable[pid := ptable[pid].(state := State.Ready)];
      var priority := ptable[pid].priority;
      pqueue := pqueue + multiset{ProcessDesc(priority, pid)};
    }

    /** Makes a blocked process ready; free, running and ready ones are left alone. */
    method Ready(pid: Pid) returns (out: Outcome, switched: bool)
      requires running in ptable && EntriesMatch(ptable, pqueue)
      modifies this`deferAttempt, this`pqueue, this`ptable, this`running
      ensures pid !in old(ptable) ==> Refused(old(View()), ProcessNotFound(pid), out, View(), switched)
      ensures pid in old(ptable) ==> out == Done && ReadySpec(old(View()), pid, View(), switched)
      ensures pid in old(ptable) && deferCount > 0 ==> View() == DeferredReady(old(View()), pid)
    {
      if pid !in ptable {
        return Failed(ProcessNotFound(pid)), false;
      }
      out, switched := Done, false;
      if ptable[pid].state == Free || ptable[pid].state == Running || ptable[pid].state == State.Ready {
        return;
      }
      MakeReady(pid);
      switched := Schedule();
    }

    method DeferStart()
      modifies this`deferCount, this`deferAttempt
      ensures View() == Start(old(View()))
    {
      if deferCount == 0 {
        deferAttempt := false;
      }
      deferCount := deferCount + 1;
    }

    method DeferStop() returns (switched: bool)
      requires running in ptable && EntriesMatch(ptable, pqueue) && deferCount > 0
      modifies this`deferCount, this`deferAttempt, this`pqueue, this`ptable, this`running
      ensures StopSpec(old(View()), View(), switched)
    {
      deferCount := deferCount - 1;
      if deferCount == 0 && deferAttempt {
        switched := Schedule();
      } else {
        switched := false;
      }
    }

    /** The end of every deferral bracket: `Stop`, and a `schedule` if that did not switch already. */
    method CloseBracket(ghost k: Kernel, ghost pids: set<Pid>) returns (switched: bool)
      requires k.running in k.ptable && View() == WakeAll(Start(k), pids) && EntriesMatch(ptable, pqueue)
      modifies this`deferCount, this`deferAttempt, this`pqueue, this`ptable, this`running
      ensures WakeBracket(k, pids, View(), switched)
    {
      var stopped := DeferStop();
      switched := stopped;
      ghost var m := View();
      if !stopped {
        switched := Schedule();
      }
      BracketComposes(k, pids, m, stopped, View(), switched);
    }

    method CreateProcess(priority: nat) returns (pid: Pid, switched: bool)
      requires Inv(View())
      modifies this
      ensures !switched && View() == Spawn(old(View()), priority)
      ensures pid == old(currPid) && pid !in old(ptable) && pid in ptable
      ensures Inv(View())
    {
      DeferStart();
      pid := currPid;
      currPid := currPid + 1;
      ptable := ptable[pid := Process(Suspend, priority)];
      switched := DeferStop();
      SpawnKeepsInv(old(View()), priority);
    }

    method CreateSemaphore(count: int) returns (sid: Sid)
      requires Inv(View())
      modifies this
      ensures View() == AddSemaphore(old(View()), count)
      ensures sid == old(currSid) && sid !in old(stable) && sid in stable
      ensures Inv(View())
    {
      sid := currSid;
      currSid := currSid + 1;
      stable := stable[sid := Semaphore(SemaFree, count, [])];
      CreateSemaphoreKeepsInv(old(View()), count);
    }

    /** The part of `wait_semaphore` that blocks the running process. */
    method AppendWaiter(sid: Sid, ghost before: map<Sid, Semaphore>)
      requires sid in before && running in ptable
      requires stable == before[sid := before[sid].(count := before[sid].count - 1)]
      modifies this`ptable, this`stable
      ensures ptable == old(ptable)[running := old(ptable)[running].(state := State.SemaWait)]
      ensures stable == before[sid := Semaphore(before[sid].state, before[sid].count - 1, before[sid].queue + [running])]
    {
      var pid := running;
      ptable := ptable[pid := ptable[pid].(state := State.SemaWait)];
      stable := stable[sid := stable[sid].(queue := stable[sid].queue + [pid])];
      UpdateTwice(before, sid, old(stable)[sid], stable[sid]);
    }

    /** Takes the first waiter out of the queue. */
    method PopWaiter(sid: Sid) returns (pid: Pid)
      requires sid in stable && stable[sid].queue != []
      modifies this`stable
      ensures pid == old(stable)[sid].queue[0]
      ensures stable == old(stable)[sid := old(stable)[sid].(queue := old(stable)[sid].queue[1..])]
    {
      pid := stable[sid].queue[0];
      stable := stable[sid := stable[sid].(queue := stable[sid].queue[1..])];
    }

    /** The same with the count raised: the part of `signal_semaphore` before its `ready`. */
    method TakeWaiter(sid: Sid) returns (pid: Pid)
      requires sid in stable && stable[sid].queue != []
      modifies this`stable
      ensures pid == old(stable)[sid].queue[0]
      ensures stable == LeaveQueue(old(View()), sid).stable
    {
      pid := PopWaiter(sid);
      ghost var popped := stable;
      stable := stable[sid := stable[sid].(count := stable[sid].count + 1)];
      UpdateTwice(old(stable), sid, popped[sid], stable[sid]);
    }

    method WaitSemaphore(sid: Sid) returns (out: Outcome, switched: bool)
      requires Inv(View())
      modifies this
      ensures sid !in old(stable) ==> Refused(old(View()), SemaphoreNotFound(sid), out, View(), switched)
      ensures sid in old(stable) ==> out == Done && WaitSpec(old(View()), sid, View(), switched)
      ensures Inv(View())
    {
      if sid !in stable {
        return Failed(SemaphoreNotFound(sid)), false;
      }
      out := Done;
      switched := CountDown(sid);
      WaitKeepsInv(old(View()), sid, View(), switched);
    }

    /** What `wait_semaphore` does to a semaphore that it knows. */
    method CountDown(sid: Sid) returns (switched: bool)
      requires sid in stable && running in ptable && EntriesMatch(ptable, pqueue)
      modifies this`stable, this`ptable, this`deferAttempt, this`pqueue, this`running
      ensures WaitSpec(old(View()), sid, View(), switched)
    {
      switched := false;
      stable := stable[sid := stable[sid].(count := stable[sid].count - 1)];
      if stable[sid].count < 0 {
        AppendWaiter(sid, old(stable));
        assert View() == JoinQueue(old(View()), sid);
        switched := Schedule();
      }
    }

    method SignalSemaphore(sid: Sid) returns (out: Outcome, switched: bool)
      requires Inv(View())
      modifies this
      ensures sid !in old(stable) ==> Refused(old(View()), SemaphoreNotFound(sid), out, View(), switched)
      ensures out == Panicked <==> SignalPanics(old(View()), sid)
      ensures sid in old(stable) && out != Panicked ==> out == Done && SignalSpec(old(View()), sid, View(), switched)
      ensures out != Panicked ==> Inv(View())
    {
      if sid !in stable {
        return Failed(SemaphoreNotFound(sid)), false;
      }
      out, switched := Done, false;
      if stable[sid].count < 0 {
        if stable[sid].queue == [] {
          return Panicked, false;
        }
        QueuedPidKnown(View(), sid, 0);
        var pid := TakeWaiter(sid);
        assert View() == LeaveQueue(old(View()), sid);
        out, switched := Ready(pid);
      } else {
        stable := stable[sid := stable[sid].(count := stable[sid].count + 1)];
      }
      SignalKeepsInv(old(View()), sid, View(), switched);
    }

    /** One round of the loop of `delete_semaphore`. */
    method ReleaseFirst(sid: Sid, ghost k: Kernel, ghost i: nat)
      requires HasInv(k) && sid in k.stable && i < |k.stable[sid].queue| && View() == Draining(k, sid, i)
      modifies this`deferAttempt, this`pqueue, this`ptable, this`running, this`stable
      ensures View() == Draining(k, sid, i + 1)
    {
      DrainedTableSteps(k, sid, i);
      var pid := PopWaiter(sid);
      assert View() == Popped(k, sid, i);
      ReadyPopped(sid, pid, k, i);
      stable := stable[sid := stable[sid].(count := stable[sid].count + 1)];
    }

    /** Its `ready`, which cannot fail because every queued pid is known. */
    method ReadyPopped(sid: Sid, pid: Pid, ghost k: Kernel, ghost i: nat)
      requires HasInv(k) && sid in k.stable && i < |k.stable[sid].queue| && pid == k.stable[sid].queue[i]
      requires View() == Popped(k, sid, i)
      modifies this`deferAttempt, this`pqueue, this`ptable, this`running
      ensures View().(stable := DrainedTable(k, sid, i + 1)) == Draining(k, sid, i + 1)
    {
      DrainingReady(k, sid, i);
      var _, _ := Ready(pid);
      DrainRound(k, sid, i);
      assert View() == DeferredReady(Popped(k, sid, i), pid);
    }

    /** The loop of `delete_semaphore`: one waiter after the other is made ready. */
    method ReleaseWaiters(sid: Sid, ghost k: Kernel) returns (panicked: bool)
      requires HasInv(k) && sid in k.stable && View() == Draining(k, sid, 0)
      modifies this`deferAttempt, this`pqueue, this`ptable, this`running, this`stable
      ensures panicked <==> DeletePanics(k, sid)
      ensures !panicked ==> View() == WakeAll(Start(Drain(k, sid)), Released(k, sid))
    {
      ghost var i, queue := 0, k.stable[sid].queue;
      while stable[sid].count < 0
        invariant i <= |queue| && (i == 0 || k.stable[sid].count + i <= 0)
        invariant View() == Draining(k, sid, i)
        decreases -stable[sid].count
      {
        if stable[sid].queue == [] {
          return true;
        }
        ReleaseFirst(sid, k, i);
        i := i + 1;
      }
      AllDrained(k, sid, i);
      DrainingEnds(k, sid);
      return false;
    }

    method DeleteSemaphore(sid: Sid) returns (out: Outcome, switched: bool)
      requires Inv(View())
      modifies this
      ensures sid !in old(stable) ==> Refused(old(View()), SemaphoreNotFound(sid), out, View(), switched)
      ensures out == Panicked <==> DeletePanics(old(View()), sid)
      ensures sid in old(stable) && out != Panicked ==> out == Done && DeleteSpec(old(View()), sid, View(), switched)
      ensures out != Panicked ==> Inv(View())
    {
      if sid !in stable {
        return Failed(SemaphoreNotFound(sid)), false;
      }
      ghost var k := View();
      stable := stable[sid := stable[sid].(state := SemaFree)];
      DeferStart();
      DrainingStarts(k, sid);
      var panicked := ReleaseWaiters(sid, k);
      if panicked {
        return Panicked, false;
      }
      out := Done;
      WakeAllEntries(Start(Drain(k, sid)), Released(k, sid));
      switched := CloseBracket(Drain(k, sid), Released(k, sid));
      DeleteKeepsInv(old(View()), sid, View(), switched);
    }

    // ----- Sleeping -----

    method Sleep(pid: Pid, delay: Usize) returns (out: Outcome, switched: bool)
      requires Inv(View())
      modifies this
      ensures pid !in old(ptable) ==> Refused(old(View()), ProcessNotFound(pid), out, View(), switched)
      ensures pid in old(ptable) ==> out == Done && SleepSpec(old(View()), pid, delay, View(), switched)
      ensures HeadPositive(old(sleepQueue)) && delay >= 1 ==> HeadPositive(sleepQueue)
      ensures Inv(View())
    {
      if pid !in ptable {
        return Failed(ProcessNotFound(pid)), false;
      }
      out := Done;
      ptable := ptable[pid := ptable[pid].(state := State.Sleep)];
      ghost var q := sleepQueue;
      InsertDelay(pid, delay);
      assert View() == SetState(old(View()), pid, State.Sleep).(sleepers := sleepQueue);
      switched := Schedule();
      SleepKeepsInv(old(View()), pid, delay, View(), switched);
    }

    /** The cursor loop of `sleep`: finds the first node due later and splits its delta. */
    method InsertDelay(pid: Pid, delay: Usize)
      requires Bounded(sleepQueue)
      modifies this`sleepQueue
      ensures Timers(sleepQueue) == InsertTimer(Timers(old(sleepQueue)), Timer(pid, delay))
      ensures HeadPositive(old(sleepQueue)) && delay >= 1 ==> HeadPositive(sleepQueue)
    {
      var cursor := 0;
      var delaySum: Usize := 0;
      while cursor < |sleepQueue|
        invariant sleepQueue == old(sleepQueue) && cursor <= |sleepQueue|
        invariant delaySum == Total(sleepQueue[..cursor]) <= delay
      {
        PrefixTotal(sleepQueue, cursor);
        var due: Usize := delaySum + sleepQueue[cursor].delay;
        if delay < due {
          break;
        }
        delaySum := due;
        cursor := cursor + 1;
      }
      SplitNode(cursor, pid, delay, delay - delaySum);
    }

    /** The insertion at the cursor. */
    method SplitNode(cursor: nat, pid: Pid, ghost delay: Usize, relative: Usize)
      requires Bounded(sleepQueue) && cursor <= |sleepQueue| && Total(sleepQueue[..cursor]) + relative == delay
      requires cursor < |sleepQueue| ==> relative < sleepQueue[cursor].delay
      modifies this`sleepQueue
      ensures Timers(sleepQueue) == InsertTimer(Timers(old(sleepQueue)), Timer(pid, delay))
      ensures HeadPositive(old(sleepQueue)) && delay >= 1 ==> HeadPositive(sleepQueue)
    {
      ghost var front, tail := sleepQueue[..cursor], sleepQueue[cursor..];
      assert sleepQueue == front + tail;
      InsertRefines(front, tail, pid, delay);
      InsertKeepsBounds(front, tail, pid, delay);
      if cursor < |sleepQueue| {
        var node := sleepQueue[cursor];
        sleepQueue := sleepQueue[..cursor] + [Delay(pid, relative), Delay(node.pid, node.delay - relative)] + sleepQueue[cursor + 1..];
      } else {
        sleepQueue := sleepQueue[..cursor] + [Delay(pid, relative)];
      }
      assert sleepQueue == front + SplitAt(tail, pid, relative);
    }

    /** One clock tick. */
    method Wakeup() returns (switched: bool)
      requires Inv(View())
      modifies this
      ensures WakeupSpec(old(View()), View(), switched)
      ensures HeadPositive(old(sleepQueue)) ==> HeadPositive(sleepQueue)
      ensures Inv(View())
    {
      if sleepQueue == [] {
        return false;
      }
      ghost var k := View();
      var pids := TickQueue();
      ghost var k1 := k.(sleepers := sleepQueue);
      DueIsSleeping(k, k1, pids);
      DeferStart();
      WakeNobody(Start(k1));
      var i := 0;
      while i < |pids|
        invariant i <= |pids|
        invariant View() == WakeAll(Start(k1), SleepingAmong(k1, pids[..i]))
      {
        WakeAllEntries(Start(k1), SleepingAmong(k1, pids[..i]));
        assert pids[i] in ToSet(pids);
        WakeNextSleeper(k1, pids, i);
        if ptable[pids[i]].state == State.Sleep {
          var _, _ := Ready(pids[i]);
        }
        i := i + 1;
      }
      assert pids[..i] == pids;
      WakeAllEntries(Start(k1), Due(k));
      switched := CloseBracket(k1, Due(k));
      WakeupKeepsInv(old(View()), View(), switched);
    }

    /** The first half of `wakeup`: lowers the head delta and takes off the nodes that reach zero. */
    method TickQueue() returns (pids: seq<Pid>)
      requires sleepQueue != [] && Bounded(sleepQueue)
      modifies this`sleepQueue
      ensures Timers(sleepQueue) == Advance(Timers(old(sleepQueue)), TickLength(Timers(old(sleepQueue))))
      ensures ToSet(pids) == Expired(Timers(old(sleepQueue)), TickLength(Timers(old(sleepQueue))))
      ensures HeadPositive(sleepQueue)
    {
      ghost var q := sleepQueue;
      var head := sleepQueue[0];
      if head.delay >= 1 {
        head := head.(delay := head.delay - 1);
      }
      sleepQueue := [head] + sleepQueue[1..];
      ghost var low := sleepQueue;
      assert low == LoweredHead(q);
      pids := [];
      while sleepQueue != []
        invariant |pids| <= |low| && sleepQueue == low[|pids|..]
        invariant forall i :: 0 <= i < |pids| ==> low[i].delay == 0 && pids[i] == q[i].pid
        decreases |sleepQueue|
      {
        if sleepQueue[0].delay != 0 {
          break;
        }
        pids := pids + [sleepQueue[0].pid];
        sleepQueue := sleepQueue[1..];
      }
      TickRefines(q, |pids|);
      TickKeepsBounds(q, |pids|);
      ExpiredPids(q, pids);
    }

    method Kill(pid: Pid) returns (out: Outcome, switched: bool)
      requires Inv(View())
      modifies this
      ensures pid !in old(ptable) ==> Refused(old(View()), ProcessNotFound(pid), out, View(), switched)
      ensures pid in old(ptable) ==> out == Done && KillSpec(old(View()), pid, View(), switched)
      ensures Inv(View())
    {
      if pid !in ptable {
        return Failed(ProcessNotFound(pid)), false;
      }
      out := Done;
      ghost var k := View();
      if ptable[pid].state != Free {
        ptable := ptable[pid := ptable[pid].(state := Free)];
      }
      assert View() == SetState(k, pid, Free);
      SetFreeKeepsInv(k, pid);
      var signalled := EventSignal(Exit(pid));
      switched := signalled;
      ghost var m := View();
      if !signalled {
        switched := Schedule();
      }
      KillComposes(k, pid, m, signalled, View(), switched);
      KillKeepsInv(k, pid, View(), switched);
    }

    method IoWait(pid: Pid) returns (out: Outcome)
      requires Inv(View())
      modifies this
      ensures pid !in old(ptable) ==> Refused(old(View()), ProcessNotFound(pid), out, View(), false)
      ensures pid in old(ptable) ==> out == Done && View() == SetState(old(View()), pid, State.IOWait)
      ensures Inv(View())
    {
      if pid !in ptable {
        return Failed(ProcessNotFound(pid));
      }
      IoWaitKeepsInv(View(), pid);
      ptable := ptable[pid := ptable[pid].(state := State.IOWait)];
      return Done;
    }

    method IoSignal(pid: Pid) returns (out: Outcome, switched: bool)
      requires Inv(View())
      modifies this
      ensures pid !in old(ptable) ==> Refused(old(View()), ProcessNotFound(pid), out, View(), switched)
      ensures pid in old(ptable) ==> out == Done && ReadySpec(old(View()), pid, View(), switched)
      ensures Inv(View())
    {
      out, switched := Ready(pid);
      if out == Done {
        ReadyOpKeepsInv(old(View()), pid, View(), switched);
      }
    }

    method EventWait(pid: Pid, event: ProcessEvent) returns (out: Outcome, switched: bool)
      requires Inv(View())
      modifies this
      ensures pid !in old(ptable) ==> Refused(old(View()), ProcessNotFound(pid), out, View(), switched)
      ensures pid in old(ptable) ==>
        out == Done
        && ScheduleSpec(AddWaiter(SetState(old(View()), pid, State.EventWait), event, pid), View(), switched)
      ensures Inv(View())
    {
      if pid !in ptable {
        return Failed(ProcessNotFound(pid)), false;
      }
      out := Done;
      ptable := ptable[pid := ptable[pid].(state := State.EventWait)];
      if event !in eventQueue {
        eventQueue := eventQueue[event := []];
      }
      eventQueue := eventQueue[event := eventQueue[event] + [pid]];
      UpdateTwice(old(eventQueue), event, [], eventQueue[event]);
      assert eventQueue == AddWaiter(old(View()), event, pid).events;
      assert View() == AddWaiter(SetState(old(View()), pid, State.EventWait), event, pid);
      switched := Schedule();
      EventWaitKeepsInv(old(View()), pid, event, View(), switched);
    }

    method EventSignal(event: ProcessEvent) returns (switched: bool)
      requires Inv(View())
      modifies this
      ensures EventSignalSpec(old(View()), event, View(), switched)
      ensures Inv(View())
    {
      ghost var k := View();
      DeferStart();
      if event !in eventQueue {
        switched := DeferStop();
      } else {
        var pids := eventQueue[event];
        eventQueue := eventQueue - {event};
        EventPidsKnown(k, event);
        ReadyAll(pids, Withdraw(k, event));
        switched := CloseBracket(Withdraw(k, event), Waiters(k, event));
      }
      EventSignalKeepsInv(k, event, View(), switched);
    }

    /** The loop of `event_signal`, inside its deferral bracket. */
    method ReadyAll(pids: seq<Pid>, ghost k: Kernel)
      requires k.running in k.ptable && EntriesMatch(k.ptable, k.pqueue) && View() == Start(k)
      requires forall i :: 0 <= i < |pids| ==> pids[i] in k.ptable
      modifies this`deferAttempt, this`pqueue, this`ptable, this`running
      ensures View() == WakeAll(Start(k), ToSet(pids)) && EntriesMatch(ptable, pqueue)
    {
      WakeNobody(Start(k));
      assert ToSet(pids[..0]) == {};
      var i := 0;
      while i < |pids|
        invariant i <= |pids|
        invariant View() == WakeAll(Start(k), ToSet(pids[..i]))
      {
        WakeAllEntries(Start(k), ToSet(pids[..i]));
        WakeNext(Start(k), pids, i, stable);
        var _, _ := Ready(pids[i]);
        i := i + 1;
      }
      assert pids[..i] == pids;
      WakeAllEntries(Start(k), ToSet(pids));
    }
  }

  lemma {:induction false} EventPidsKnown(k: Kernel, event: ProcessEvent)
    requires Closed(k) && event in k.events
    ensures forall i :: 0 <= i < |k.events[event]| ==> k.events[event][i] in k.ptable
  {
    forall i | 0 <= i < |k.events[event]| ensures k.events[event][i] in k.ptable {
      assert k.events[event][i] in k.events[event];
    }
  }

  /** The pids among `pids` whose process is still asleep. */
  function SleepingAmong(k: Kernel, pids: seq<Pid>): set<Pid> {
    set p | p in ToSet(pids) && StateIs(k, p, Sleep)
  }

  lemma {:induction false} DueIsSleeping(k: Kernel, k1: Kernel, pids: seq<Pid>)
    requires Inv(k) && k1 == k.(sleepers := k1.sleepers)
    requires ToSet(pids) == Expired(Timers(k.sleepers), TickLength(Timers(k.sleepers)))
    ensures SleepingAmong(k1, pids) == Due(k) && SleepingAmong(k1, pids[..0]) == {}
    ensures forall p :: p in ToSet(pids) ==> p in k.ptable
  {
    assert ToSet(pids[..0]) == {};
    forall p | p in Expired(Timers(k.sleepers), TickLength(Timers(k.sleepers))) ensures p in k.ptable {
      var i :| 0 <= i < |k.sleepers| && Timers(k.sleepers)[i].pid == p;
      TimerPid(k.sleepers, 0, i);
    }
  }

  /** One round of the loop of `wakeup`. */
  lemma {:induction false} WakeNextSleeper(k: Kernel, pids: seq<Pid>, i: nat)
    requires i < |pids| && pids[i] in k.ptable
    ensures var w := WakeAll(Start(k), SleepingAmong(k, pids[..i]));
            WakeAll(Start(k), SleepingAmong(k, pids[..i + 1])) ==
            if w.ptable[pids[i]].state == Sleep then DeferredReady(w, pids[i]) else w
  {
    var p, s := pids[i], SleepingAmong(k, pids[..i]);
    OneMorePid(pids, i);
    if StateIs(k, p, Sleep) {
      assert SleepingAmong(k, pids[..i + 1]) == s + {p};
      if p in s {
        WakeNoMore(Start(k), s, p);
      } else {
        WakeOneMore(Start(k), s, p);
      }
    } else {
      assert SleepingAmong(k, pids[..i + 1]) == s;
    }
  }

  lemma {:induction false} ExpiredPids(q: seq<Delay>, pids: seq<Pid>)
    requires |pids| <= |q| && forall i :: 0 <= i < |pids| ==> pids[i] == q[i].pid
    requires forall i :: 0 <= i < |q| ==> (Timers(q)[i].due <= TickLength(Timers(q)) <==> i < |pids|)
    ensures ToSet(pids) == Expired(Timers(q), TickLength(Timers(q)))
  {
    var ts := Timers(q);
    forall i | 0 <= i < |q| ensures ts[i].pid == q[i].pid {
      TimerPid(q, 0, i);
    }
    forall i | 0 <= i < |pids| ensures pids[i] in Expired(ts, TickLength(ts)) {
      assert ts[i].due <= TickLength(ts) && ts[i].pid == pids[i];
    }
    forall p | p in Expired(ts, TickLength(ts)) ensures p in ToSet(pids) {
      var i :| 0 <= i < |ts| && ts[i].due <= TickLength(ts) && ts[i].pid == p;
      assert pids[i] == p;
    }
  }

  lemma {:induction false} PrefixTotal(q: seq<Delay>, i: nat)
    requires i < |q|
    ensures Total(q[..i + 1]) == Total(q[..i]) + q[i].delay <= Total(q)
  {
    assert q[..i + 1] == q[..i] + [q[i]];
    assert q == q[..i + 1] + q[i + 1..];
    TotalConcat(q[..i], [q[i]]);
    TotalConcat(q[..i + 1], q[i + 1..]);
    assert [q[i]][1..] == [];
  }
}
