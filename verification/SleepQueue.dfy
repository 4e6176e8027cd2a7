/** The delta-encoded sleep queue of src/process.rs, and the plain timer table it stands for.

    Each queue node stores its delay relative to the node before it.  `Timers` decodes the
    queue: the remaining time of a node is the sum of the deltas up to and including its own. */
module SleepQueue {
  import opened Words

  datatype Delay = Delay(pid: nat, delay: Usize)
  datatype Timer = Timer(pid: nat, due: nat)

  function Total(q: seq<Delay>): nat {
    if q == [] then 0 else q[0].delay + Total(q[1..])
  }

  function TimersFrom(q: seq<Delay>, base: nat): (ts: seq<Timer>)
    ensures |ts| == |q|
  {
    if q == [] then []
    else [Timer(q[0].pid, base + q[0].delay)] + TimersFrom(q[1..], base + q[0].delay)
  }

  /** The table of remaining times that the deltas encode. */
  function Timers(q: seq<Delay>): (ts: seq<Timer>)
    ensures |ts| == |q|
  {
    TimersFrom(q, 0)
  }

  ghost predicate Sorted(ts: seq<Timer>) {
    forall i, j :: 0 <= i < j < |ts| ==> ts[i].due <= ts[j].due
  }

  /** No remaining time exceeds what a `usize` can hold. */
  ghost predicate Bounded(q: seq<Delay>) {
    Total(q) < USIZE_LIMIT
  }

  /** The plain meaning of going to sleep: one more timer, after every timer due no later. */
  function InsertTimer(ts: seq<Timer>, t: Timer): seq<Timer> {
    if ts == [] || t.due < ts[0].due then [t] + ts else [ts[0]] + InsertTimer(ts[1..], t)
  }

  /** The timers still running after `n` more ticks. */
  function Advance(ts: seq<Timer>, n: nat): seq<Timer> {
    if ts == [] then []
    else if ts[0].due <= n then Advance(ts[1..], n)
    else [Timer(ts[0].pid, ts[0].due - n)] + Advance(ts[1..], n)
  }

  /** How far one clock tick moves the timers: not at all while the head delta is zero. */
  function TickLength(ts: seq<Timer>): nat {
    if ts == [] || ts[0].due == 0 then 0 else 1
  }

  function Expired(ts: seq<Timer>, n: nat): set<nat> {
    set i | 0 <= i < |ts| && ts[i].due <= n :: ts[i].pid
  }

  /** The precondition of the exact-tick law: no timer of length zero is at the head. */
  ghost predicate HeadPositive(q: seq<Delay>) {
    q == [] || 1 <= q[0].delay
  }

  lemma {:induction false} TotalConcat(a: seq<Delay>, b: seq<Delay>)
    ensures Total(a + b) == Total(a) + Total(b)
  {
    if a == [] {
      assert a + b == b;
    } else {
      assert (a + b)[1..] == a[1..] + b;
      TotalConcat(a[1..], b);
    }
  }

  lemma {:induction false} TimersConcat(a: seq<Delay>, b: seq<Delay>, base: nat)
    ensures TimersFrom(a + b, base) == TimersFrom(a, base) + TimersFrom(b, base + Total(a))
  {
    if a == [] {
      assert a + b == b;
    } else {
      assert (a + b)[1..] == a[1..] + b;
      TimersConcat(a[1..], b, base + a[0].delay);
    }
  }

  lemma {:induction false} DueBounds(q: seq<Delay>, base: nat, i: nat)
    requires i < |q|
    ensures base + q[0].delay <= TimersFrom(q, base)[i].due <= base + Total(q)
  {
    if i > 0 {
      DueBounds(q[1..], base + q[0].delay, i - 1);
    }
  }

  lemma {:induction false} DueMonotone(q: seq<Delay>, base: nat, i: nat, j: nat)
    requires i <= j < |q|
    ensures TimersFrom(q, base)[i].due <= TimersFrom(q, base)[j].due
  {
    if i == 0 {
      DueBounds(q, base, j);
    } else {
      DueMonotone(q[1..], base + q[0].delay, i - 1, j - 1);
    }
  }

  lemma {:induction false} TimerPid(q: seq<Delay>, base: nat, i: nat)
    requires i < |q|
    ensures TimersFrom(q, base)[i].pid == q[i].pid
  {
    if i > 0 {
      TimerPid(q[1..], base + q[0].delay, i - 1);
    }
  }

  /** The decoded table is sorted, whatever the deltas. */
  lemma {:induction false} TimersSorted(q: seq<Delay>)
    ensures Sorted(Timers(q))
  {
    forall i, j | 0 <= i < j < |q| ensures Timers(q)[i].due <= Timers(q)[j].due {
      DueMonotone(q, 0, i, j);
    }
  }

  lemma {:induction false} LastDueIsTotal(q: seq<Delay>, base: nat)
    requires q != []
    ensures TimersFrom(q, base)[|q| - 1].due == base + Total(q)
  {
    if |q| > 1 {
      LastDueIsTotal(q[1..], base + q[0].delay);
    }
  }

  /** The largest remaining time is the total of the deltas, so `Bounded` bounds them all. */
  lemma {:induction false} BoundedTimers(q: seq<Delay>)
    ensures Bounded(q) <==> forall t :: t in Timers(q) ==> t.due < USIZE_LIMIT
  {
    forall i | 0 <= i < |q| ensures Timers(q)[i].due <= Total(q) {
      DueBounds(q, 0, i);
    }
    if q != [] {
      LastDueIsTotal(q, 0);
      assert Timers(q)[|q| - 1] in Timers(q);
    }
  }

  /** The rest of the queue from the cursor on, with a node for `pid` before it and its delta split. */
  function SplitAt(tail: seq<Delay>, pid: nat, relative: Usize): seq<Delay>
    requires tail != [] ==> relative <= tail[0].delay
  {
    if tail == [] then [Delay(pid, relative)]
    else [Delay(pid, relative), Delay(tail[0].pid, tail[0].delay - relative)] + tail[1..]
  }

  lemma {:induction false} SplitTimers(tail: seq<Delay>, pid: nat, relative: Usize, base: nat)
    requires tail != [] ==> relative <= tail[0].delay
    ensures TimersFrom(SplitAt(tail, pid, relative), base) == [Timer(pid, base + relative)] + TimersFrom(tail, base)
    ensures Total(SplitAt(tail, pid, relative)) == if tail == [] then relative else Total(tail)
  {
    var s := SplitAt(tail, pid, relative);
    if tail != [] {
      assert s[1..][1..] == tail[1..];
      assert TimersFrom(s[1..], base + relative) == TimersFrom(tail, base);
    } else {
      assert s[1..] == [];
    }
  }

  lemma {:induction false} InsertTimerSplit(front: seq<Timer>, tail: seq<Timer>, t: Timer)
    requires forall j :: 0 <= j < |front| ==> front[j].due <= t.due
    requires tail != [] ==> t.due < tail[0].due
    ensures InsertTimer(front + tail, t) == front + ([t] + tail)
  {
    if front == [] {
      assert front + tail == tail;
    } else {
      assert (front + tail)[1..] == front[1..] + tail;
      InsertTimerSplit(front[1..], tail, t);
    }
  }

  /** Splitting the delta of the node at the cursor inserts exactly one timer and moves no other. */
  lemma {:induction false} InsertRefines(front: seq<Delay>, tail: seq<Delay>, pid: nat, delay: Usize)
    requires Total(front) <= delay && (tail != [] ==> delay < Total(front) + tail[0].delay)
    ensures Timers(front + SplitAt(tail, pid, delay - Total(front))) == InsertTimer(Timers(front + tail), Timer(pid, delay))
  {
    var s := Total(front);
    TimersConcat(front, tail, 0);
    TimersConcat(front, SplitAt(tail, pid, delay - s), 0);
    SplitTimers(tail, pid, delay - s, s);
    forall j | 0 <= j < |front| ensures Timers(front)[j].due <= delay {
      DueBounds(front, 0, j);
    }
    InsertTimerSplit(Timers(front), TimersFrom(tail, s), Timer(pid, delay));
  }

  /** Insertion keeps the queue encodable, and a real delay never puts a zero delta at the head. */
  lemma {:induction false} InsertKeepsBounds(front: seq<Delay>, tail: seq<Delay>, pid: nat, delay: Usize)
    requires Bounded(front + tail)
    requires Total(front) <= delay && (tail != [] ==> delay < Total(front) + tail[0].delay)
    ensures var q := front + SplitAt(tail, pid, delay - Total(front));
            Bounded(q) && (HeadPositive(front + tail) && delay >= 1 ==> HeadPositive(q))
  {
    TotalConcat(front, tail);
    TotalConcat(front, SplitAt(tail, pid, delay - Total(front)));
    SplitTimers(tail, pid, delay - Total(front), 0);
  }

  /** Lowering the head delta by one lowers every remaining time by one. */
  lemma {:induction false} LowerHead(q: seq<Delay>, base: nat, base': nat, i: nat)
    requires base == base' + 1 && i < |q|
    ensures TimersFrom(q, base)[i].due == TimersFrom(q, base')[i].due + 1
  {
    if i > 0 {
      LowerHead(q[1..], base + q[0].delay, base' + q[0].delay, i - 1);
    }
  }

  lemma {:induction false} AdvanceAll(ts: seq<Timer>, n: nat, k: nat)
    requires k <= |ts|
    requires forall i :: 0 <= i < k ==> ts[i].due <= n
    requires forall i :: k <= i < |ts| ==> n < ts[i].due
    ensures |Advance(ts, n)| == |ts| - k
    ensures forall i :: 0 <= i < |ts| - k ==> Advance(ts, n)[i] == Timer(ts[k + i].pid, ts[k + i].due - n)
  {
    if k > 0 {
      AdvanceAll(ts[1..], n, k - 1);
      assert forall i :: 0 <= i < |ts[1..]| ==> ts[1..][i] == ts[i + 1];
    } else if ts != [] {
      AdvanceAll(ts[1..], n, 0);
      assert Advance(ts, n) == [Timer(ts[0].pid, ts[0].due - n)] + Advance(ts[1..], n);
      assert forall i :: 0 <= i < |ts[1..]| ==> ts[1..][i] == ts[i + 1];
    }
  }

  /** The queue with its head delta lowered, unless it is zero already. */
  function LoweredHead(q: seq<Delay>): seq<Delay>
    requires q != []
  {
    [if q[0].delay >= 1 then Delay(q[0].pid, q[0].delay - 1) else q[0]] + q[1..]
  }

  lemma {:induction false} LoweredTimers(q: seq<Delay>, i: nat)
    requires i < |q|
    ensures Timers(q)[i].due == Timers(LoweredHead(q))[i].due + TickLength(Timers(q))
  {
    if i > 0 && q[0].delay >= 1 {
      LowerHead(q[1..], q[0].delay, q[0].delay - 1, i - 1);
    }
    assert q[0].delay == 0 ==> LoweredHead(q) == q;
  }

  lemma {:induction false} DropZeros(q: seq<Delay>, k: nat)
    requires k <= |q| && (forall i :: 0 <= i < k ==> q[i].delay == 0)
    ensures Timers(q)[k..] == Timers(q[k..])
    ensures Total(q) == Total(q[k..])
    ensures forall i :: 0 <= i < k ==> Timers(q)[i].due == 0
  {
    if k == 0 {
      assert q[0..] == q;
    } else {
      DropZeros(q[1..], k - 1);
      assert q[1..][k - 1..] == q[k..];
      assert Timers(q) == [Timer(q[0].pid, 0)] + Timers(q[1..]);
    }
  }

  /** Dropping the leading zero deltas of the ticked queue drops exactly the expired timers. */
  lemma {:induction false} TickRefines(q: seq<Delay>, k: nat)
    requires q != []
    requires k <= |q| && (forall i :: 0 <= i < k ==> LoweredHead(q)[i].delay == 0)
    requires k < |q| ==> LoweredHead(q)[k].delay != 0
    ensures Timers(LoweredHead(q)[k..]) == Advance(Timers(q), TickLength(Timers(q)))
    ensures forall i :: 0 <= i < |q| ==> (Timers(q)[i].due <= TickLength(Timers(q)) <==> i < k)
  {
    var ts, n, low := Timers(q), TickLength(Timers(q)), LoweredHead(q);
    var tt := Timers(low);
    DropZeros(low, k);
    forall i | 0 <= i < |q| ensures ts[i] == Timer(tt[i].pid, tt[i].due + n) {
      LoweredTimers(q, i);
      TimerPid(q, 0, i);
      TimerPid(low, 0, i);
    }
    forall i | k <= i < |q| ensures tt[i].due > 0 {
      DueBounds(low[k..], 0, i - k);
      assert tt[i] == tt[k..][i - k];
    }
    AdvanceAll(ts, n, k);
    assert tt[k..] == Advance(ts, n);
  }

  /** A tick keeps the queue encodable and leaves no zero delta at the head. */
  lemma {:induction false} TickKeepsBounds(q: seq<Delay>, k: nat)
    requires q != [] && Bounded(q)
    requires k <= |q| && (forall i :: 0 <= i < k ==> LoweredHead(q)[i].delay == 0)
    requires k < |q| ==> LoweredHead(q)[k].delay != 0
    ensures Bounded(LoweredHead(q)[k..]) && HeadPositive(LoweredHead(q)[k..])
  {
    DropZeros(LoweredHead(q), k);
    assert LoweredHead(q)[1..] == q[1..];
  }

  /** What one more tick leaves of a table: exactly the timers with time left, lowered by `n`. */
  lemma {:induction false} AdvanceKeeps(ts: seq<Timer>, n: nat, t: Timer)
    requires t.due >= 1
    ensures t in Advance(ts, n) <==> Timer(t.pid, t.due + n) in ts
  {
    if ts != [] {
      AdvanceKeeps(ts[1..], n, t);
      assert ts == [ts[0]] + ts[1..];
    }
  }

  lemma {:induction false} InsertKeeps(ts: seq<Timer>, t: Timer, u: Timer)
    ensures u in InsertTimer(ts, t) <==> u == t || u in ts
  {
    if ts != [] && t.due >= ts[0].due {
      InsertKeeps(ts[1..], t, u);
      assert ts == [ts[0]] + ts[1..];
    }
  }
}
